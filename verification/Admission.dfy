/**
 The admission law that every token bucket of the proxy is measured against.

 A bucket of capacity `burst` gains `perTick` tokens for each clock tick and pays one token for each
 admission.  The law talks about the times of the past admissions only: a request at time t conforms when,
 for every past admission, the admissions from that one on, together with the new one, fit into one burst
 plus what was earned since.  No tokens, refills or stored timestamps occur in it.
 */
module Admission {
  import opened Prelude

  datatype Quota = Quota(burst: real, perTick: real) {
    predicate Valid() {
      burst >= 1.0 && perTick > 0.0
    }
  }

  /** Tokens earned in dt clock ticks. */
  function Gain(q: Quota, dt: int): real {
    q.perTick * dt as real
  }

  /** The law: a request at time t is within the quota, given the times of all past admissions. */
  predicate Conforms(q: Quota, past: seq<int>, t: int) {
    forall i | 0 <= i < |past| :: (|past| - i + 1) as real <= q.burst + Gain(q, t - past[i])
  }

  /** A history each of whose admissions conformed when it was made. */
  ghost predicate Lawful(q: Quota, past: seq<int>) {
    forall j | 0 <= j < |past| :: Conforms(q, past[..j], past[j])
  }

  /** The room left at time t: the least slack that any past admission leaves, and at most one burst. */
  function Level(q: Quota, past: seq<int>, t: int): real {
    if past == [] then q.burst
    else Min(q.burst + Gain(q, t - past[0]) - |past| as real, Level(q, past[1..], t))
  }

  lemma {:induction false} GainAdds(q: Quota, a: int, b: int)
    ensures Gain(q, a) + Gain(q, b) == Gain(q, a + b)
  {
    assert (a + b) as real == a as real + b as real;
  }

  lemma {:induction false} GainMonotone(q: Quota, a: int, b: int)
    requires q.Valid() && a <= b
    ensures Gain(q, a) <= Gain(q, b)
  {
    GainAdds(q, a, b - a);
  }

  /** The level is a lower bound of the burst and of every slack, and it is attained by one of them. */
  lemma {:induction false} LevelIsLeastSlack(q: Quota, past: seq<int>, t: int)
    ensures Level(q, past, t) <= q.burst
    ensures forall i | 0 <= i < |past| :: Level(q, past, t) <= q.burst + Gain(q, t - past[i]) - (|past| - i) as real
    ensures || Level(q, past, t) == q.burst
            || exists i | 0 <= i < |past| :: Level(q, past, t) == q.burst + Gain(q, t - past[i]) - (|past| - i) as real
  {
    if past != [] {
      var rest := past[1..];
      LevelIsLeastSlack(q, rest, t);
      forall i | 0 <= i < |past|
        ensures Level(q, past, t) <= q.burst + Gain(q, t - past[i]) - (|past| - i) as real
      {
        if i > 0 {
          assert rest[i - 1] == past[i];
        }
      }
      if Level(q, past, t) != q.burst && Level(q, past, t) == Level(q, rest, t) {
        var i :| 0 <= i < |rest| && Level(q, rest, t) == q.burst + Gain(q, t - rest[i]) - (|rest| - i) as real;
        assert past[i + 1] == rest[i];
      }
    }
  }

  /** Having a whole token of room is the same as conforming. */
  lemma {:induction false} LevelDecides(q: Quota, past: seq<int>, t: int)
    requires q.Valid()
    ensures Level(q, past, t) >= 1.0 <==> Conforms(q, past, t)
  {
    LevelIsLeastSlack(q, past, t);
    if Level(q, past, t) < 1.0 {
      var i :| 0 <= i < |past| && Level(q, past, t) == q.burst + Gain(q, t - past[i]) - (|past| - i) as real;
      assert (|past| - i + 1) as real > q.burst + Gain(q, t - past[i]);
    }
  }

  /**
   Recording an admission at x is the same as storing one token less than the level at x and refilling from there.
   This holds for every t, also for t < x: the law does not need the clock to be monotone.
   */
  lemma {:induction false} LevelAppend(q: Quota, past: seq<int>, x: int, t: int)
    ensures Level(q, past + [x], t) == Min(q.burst, Level(q, past, x) - 1.0 + Gain(q, t - x))
  {
    var all := past + [x];
    if past == [] {
      assert all[1..] == [];
    } else {
      assert all[1..] == past[1..] + [x] && all[0] == past[0];
      LevelAppend(q, past[1..], x, t);
      GainAdds(q, x - past[0], t - x);
    }
  }

  /** Between two times with no admission the level only refills, provided time does not run backwards. */
  lemma {:induction false} LevelRefills(q: Quota, past: seq<int>, u: int, t: int)
    requires q.Valid() && u <= t
    ensures Level(q, past, t) == Min(q.burst, Level(q, past, u) + Gain(q, t - u))
  {
    GainMonotone(q, 0, t - u);
    if past != [] {
      LevelRefills(q, past[1..], u, t);
      GainAdds(q, u - past[0], t - u);
    }
  }

  /** Admissions of a lawful history that fall into [lo, hi]. */
  function Within(past: seq<int>, lo: int, hi: int): nat {
    if past == [] then 0 else (if lo <= past[0] <= hi then 1 else 0) + Within(past[1..], lo, hi)
  }

  lemma {:induction false} WithinAppend(past: seq<int>, x: int, lo: int, hi: int)
    ensures Within(past + [x], lo, hi) == Within(past, lo, hi) + (if lo <= x <= hi then 1 else 0)
  {
    if past == [] {
      assert past + [x] == [x];
    } else {
      assert (past + [x])[1..] == past[1..] + [x];
      WithinAppend(past[1..], x, lo, hi);
    }
  }

  lemma {:induction false} WithinAtMostAll(past: seq<int>, lo: int, hi: int)
    ensures Within(past, lo, hi) <= |past|
  {
    if past != [] {
      WithinAtMostAll(past[1..], lo, hi);
    }
  }

  lemma {:induction false} LawfulSuffix(q: Quota, past: seq<int>)
    requires Lawful(q, past) && past != []
    ensures Lawful(q, past[1..])
  {
    var rest := past[1..];
    forall j | 0 <= j < |rest| ensures Conforms(q, rest[..j], rest[j]) {
      assert Conforms(q, past[..j + 1], past[j + 1]);
      forall i | 0 <= i < j
        ensures (j - i + 1) as real <= q.burst + Gain(q, rest[j] - rest[..j][i])
      {
        assert past[..j + 1][i + 1] == rest[..j][i];
      }
    }
  }

  lemma {:induction false} LawfulPrefix(q: Quota, past: seq<int>, n: nat)
    requires Lawful(q, past) && n <= |past|
    ensures Lawful(q, past[..n])
  {
    forall j | 0 <= j < n ensures Conforms(q, past[..n][..j], past[..n][j]) {
      assert past[..n][..j] == past[..j];
    }
  }

  lemma {:induction false} LawfulAppend(q: Quota, past: seq<int>, t: int)
    requires Lawful(q, past) && Conforms(q, past, t)
    ensures Lawful(q, past + [t])
  {
    var all := past + [t];
    forall j | 0 <= j < |all| ensures Conforms(q, all[..j], all[j]) {
      if j < |past| {
        assert all[..j] == past[..j];
      } else {
        assert all[..j] == past;
      }
    }
  }

  /**
   No window holds more than one burst and what is earned during the window, whatever the order of the clock readings.
   */
  lemma {:induction false} WindowBound(q: Quota, past: seq<int>, lo: int, hi: int)
    requires q.Valid() && Lawful(q, past) && lo <= hi
    ensures Within(past, lo, hi) as real <= q.burst + Gain(q, hi - lo)
    decreases |past|
  {
    GainMonotone(q, 0, hi - lo);
    if past != [] {
      var n := |past| - 1;
      if !(lo <= past[0] <= hi) {
        LawfulSuffix(q, past);
        WindowBound(q, past[1..], lo, hi);
      } else if !(lo <= past[n] <= hi) {
        LawfulPrefix(q, past, n);
        WindowBound(q, past[..n], lo, hi);
        assert past == past[..n] + [past[n]];
        WithinAppend(past[..n], past[n], lo, hi);
      } else {
        WithinAtMostAll(past, lo, hi);
        assert Conforms(q, past[..n], past[n]);
        if n > 0 {
          assert past[..n][0] == past[0];
          GainMonotone(q, past[n] - past[0], hi - lo);
        }
      }
    }
  }

  /** A lawful bucket that was left alone long enough to earn one token admits the next request. */
  lemma {:induction false} RestedConforms(q: Quota, past: seq<int>, t: int)
    requires q.Valid() && Lawful(q, past)
    requires past != [] ==> Gain(q, t - past[|past| - 1]) >= 1.0
    ensures Conforms(q, past, t)
  {
    if past != [] {
      var n := |past| - 1;
      assert Conforms(q, past[..n], past[n]);
      forall i | 0 <= i < |past|
        ensures (|past| - i + 1) as real <= q.burst + Gain(q, t - past[i])
      {
        GainAdds(q, past[n] - past[i], t - past[n]);
        if i < n {
          assert past[..n][i] == past[i];
        } else {
          assert Gain(q, 0) == 0.0;
        }
      }
    }
  }

  lemma {:induction false} GainScales(q: Quota, fine: Quota, k: int, d: int)
    requires fine.perTick * k as real == q.perTick
    ensures Gain(fine, k * d) == Gain(q, d)
  {
    var kr, dr := k as real, d as real;
    assert (k * d) as real == kr * dr;
    assert fine.perTick * (kr * dr) == (fine.perTick * kr) * dr;
  }

  /** The law is indifferent to the unit of the clock: k times finer ticks that each earn 1/k. */
  lemma {:induction false} LevelScales(q: Quota, fine: Quota, k: int, past: seq<int>, finePast: seq<int>, t: int)
    requires fine.burst == q.burst && fine.perTick * k as real == q.perTick
    requires |finePast| == |past| && forall i | 0 <= i < |past| :: finePast[i] == k * past[i]
    ensures Level(fine, finePast, k * t) == Level(q, past, t)
  {
    if past != [] {
      var d := t - past[0];
      assert k * t - finePast[0] == k * d;
      GainScales(q, fine, k, d);
      LevelScales(q, fine, k, past[1..], finePast[1..], t);
    }
  }
}
