/** The string functions the configuration and header code relies on. */
module Text {
  /** White space as Unicode defines it, and as strings.TrimSpace removes it. */
  predicate IsSpace(c: char) {
    || '\t' <= c <= '\r' || c == ' ' || c == '\U{85}' || c == '\U{A0}' || c == '\U{1680}'
    || '\U{2000}' <= c <= '\U{200A}' || c == '\U{2028}' || c == '\U{2029}' || c == '\U{202F}' || c == '\U{205F}'
      || c == '\U{3000}'
  }

  function TrimLeft<T>(s: seq<T>, cut: T -> bool): seq<T> {
    if |s| > 0 && cut(s[0]) then TrimLeft(s[1..], cut) else s
  }

  function TrimRight<T>(s: seq<T>, cut: T -> bool): seq<T> {
    if |s| > 0 && cut(s[|s| - 1]) then TrimRight(s[..|s| - 1], cut) else s
  }

  function TrimSpace(s: string): string {
    TrimRight(TrimLeft(s, IsSpace), IsSpace)
  }

  /** Trimming on the right removes cut characters only, and leaves a prefix that does not end in one. */
  lemma {:induction false} TrimRightMeaning<T>(s: seq<T>, cut: T -> bool)
    ensures TrimRight(s, cut) <= s
    ensures TrimRight(s, cut) == [] || !cut(TrimRight(s, cut)[|TrimRight(s, cut)| - 1])
    ensures forall i | |TrimRight(s, cut)| <= i < |s| :: cut(s[i])
    ensures TrimRight(s, cut) == s <==> s == [] || !cut(s[|s| - 1])
  {
    if s != [] && cut(s[|s| - 1]) {
      TrimRightMeaning(s[..|s| - 1], cut);
    }
  }

  ghost predicate All<T>(s: seq<T>, cut: T -> bool) {
    forall i | 0 <= i < |s| :: cut(s[i])
  }

  /** Neither end is a cut character. */
  predicate Trim<T>(s: seq<T>, cut: T -> bool) {
    |s| > 0 ==> !cut(s[0]) && !cut(s[|s| - 1])
  }

  /** Cut characters in front are removed, up to the first other one. */
  lemma {:induction false} TrimLeftDrops<T>(left: seq<T>, s: seq<T>, cut: T -> bool)
    requires All(left, cut) && (s == [] || !cut(s[0]))
    ensures TrimLeft(left + s, cut) == s
  {
    if left == [] {
      assert left + s == s;
    } else {
      assert (left + s)[1..] == left[1..] + s;
      TrimLeftDrops(left[1..], s, cut);
    }
  }

  /** Cut characters behind are removed, down to the last other one. */
  lemma {:induction false} TrimRightDrops<T>(s: seq<T>, right: seq<T>, cut: T -> bool)
    requires All(right, cut) && (s == [] || !cut(s[|s| - 1]))
    ensures TrimRight(s + right, cut) == s
  {
    if right == [] {
      assert s + right == s;
    } else {
      var n := |right| - 1;
      assert (s + right)[..|s + right| - 1] == s + right[..n];
      TrimRightDrops(s, right[..n], cut);
    }
  }

  /** Every text is white space, a trimmed text, and white space. */
  lemma {:induction false} Trimming(s: string) returns (left: string, right: string)
    ensures s == left + TrimSpace(s) + right
    ensures All(left, IsSpace) && All(right, IsSpace) && Trim(TrimSpace(s), IsSpace)
  {
    var k := 0;
    while k < |s| && IsSpace(s[k])
      invariant k <= |s| && All(s[..k], IsSpace)
    {
      k := k + 1;
    }
    left := s[..k];
    var rest := s[k..];
    assert s == left + rest;
    TrimLeftDrops(left, rest, IsSpace);
    TrimRightMeaning(rest, IsSpace);
    right := rest[|TrimSpace(s)|..];
    assert rest == TrimSpace(s) + right;
  }

  /** The trimmed text is the only one with which this is so. */
  lemma {:induction false} TrimmingIsUnique(left: string, s: string, right: string)
    requires All(left, IsSpace) && All(right, IsSpace) && Trim(s, IsSpace)
    ensures TrimSpace(left + s + right) == s
  {
    if s == "" {
      var blank := left + right;
      assert left + s + right == blank + "" && All(blank, IsSpace);
      TrimLeftDrops(blank, "", IsSpace);
    } else {
      assert left + s + right == left + (s + right);
      TrimLeftDrops(left, s + right, IsSpace);
      TrimRightDrops(s, right, IsSpace);
    }
  }

  /** White space around a text does not matter. */
  lemma {:induction false} TrimSpaceAround(left: string, s: string, right: string)
    requires All(left, IsSpace) && All(right, IsSpace)
    ensures TrimSpace(left + s + right) == TrimSpace(s)
  {
    var l, r := Trimming(s);
    assert left + s + right == (left + l) + TrimSpace(s) + (r + right);
    TrimmingIsUnique(left + l, TrimSpace(s), r + right);
  }

  predicate HasPrefix(s: string, prefix: string) {
    prefix <= s
  }

  /** The pieces of s between the separators; one piece if there is none. */
  function Split(s: string, separator: char): (pieces: seq<string>)
    ensures pieces != []
  {
    if s == [] then [""]
    else
      var rest := Split(s[1..], separator);
      if s[0] == separator then [""] + rest else [[s[0]] + rest[0]] + rest[1..]
  }

  /** Splitting distributes over concatenation at a separator. */
  lemma {:induction false} SplitConcat(p: string, s: string, separator: char)
    ensures Split(p + [separator] + s, separator) == Split(p, separator) + Split(s, separator)
  {
    var all := p + [separator] + s;
    if p == [] {
      assert all[1..] == s && all[0] == separator;
    } else {
      assert all[1..] == p[1..] + [separator] + s && all[0] == p[0];
      SplitConcat(p[1..], s, separator);
    }
  }

  /** A text without the separator is one piece. */
  lemma {:induction false} SplitWhole(s: string, separator: char)
    requires separator !in s
    ensures Split(s, separator) == [s]
  {
    if s != "" {
      SplitWhole(s[1..], separator);
      assert [s[0]] + s[1..] == s;
    }
  }

  lemma {:induction false} SplitPadLeft(w: string, s: string, separator: char)
    requires separator !in w
    ensures var pieces := Split(s, separator); Split(w + s, separator) == [w + pieces[0]] + pieces[1..]
  {
    if w == "" {
      assert w + s == s && w + Split(s, separator)[0] == Split(s, separator)[0];
    } else {
      assert (w + s)[1..] == w[1..] + s;
      SplitPadLeft(w[1..], s, separator);
      assert [w[0]] + (w[1..] + Split(s, separator)[0]) == w + Split(s, separator)[0];
    }
  }

  /** What the first character does to the pieces of the rest. */
  function Prepend(c: char, pieces: seq<string>, separator: char): seq<string>
    requires pieces != []
  {
    if c == separator then [""] + pieces else [[c] + pieces[0]] + pieces[1..]
  }

  function PadLast(pieces: seq<string>, w: string): seq<string>
    requires pieces != []
  {
    pieces[..|pieces| - 1] + [pieces[|pieces| - 1] + w]
  }

  lemma {:induction false} PrependPads(c: char, pieces: seq<string>, w: string, separator: char)
    requires pieces != []
    ensures Prepend(c, PadLast(pieces, w), separator) == PadLast(Prepend(c, pieces, separator), w)
  {
    if c != separator && |pieces| == 1 {
      assert [c] + (pieces[0] + w) == ([c] + pieces[0]) + w;
    }
  }

  lemma {:induction false} SplitPadRight(s: string, w: string, separator: char)
    requires separator !in w
    ensures Split(s + w, separator) == PadLast(Split(s, separator), w)
  {
    if s == "" {
      assert s + w == w && "" + w == w;
      SplitWhole(w, separator);
    } else {
      assert (s + w)[1..] == s[1..] + w && (s + w)[0] == s[0];
      assert Split(s + w, separator) == Prepend(s[0], Split(s[1..] + w, separator), separator);
      assert Split(s, separator) == Prepend(s[0], Split(s[1..], separator), separator);
      hide Split, Prepend, PadLast;
      SplitPadRight(s[1..], w, separator);
      PrependPads(s[0], Split(s[1..], separator), w, separator);
    }
  }
}
