/** Shared vocabulary: optional values and the smaller of two reals. */
module Prelude {
  datatype Option<+T> = None | Some(value: T)

  function Min(x: real, y: real): real {
    if x <= y then x else y
  }
}
