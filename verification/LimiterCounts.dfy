/**
 The admission law of the local limiter in plain counts: who was admitted when, and the configured rates and bursts.

 Neither keys nor buckets nor histories occur in the statements.  A limit for each client counts the admissions of that
 client; a limit of a route and the global one count those of all clients together.
 */
module LimiterCounts {
  import opened Prelude
  import opened Admission
  import opened Limiter
  import opened LimiterLaw
  import opened LimiterRuns
  import opened LimiterAdmission

  /** An admitted request that a limit of that family counts for client c. */
  predicate Counted(family: Family, s: Served, c: string) {
    s.ok && (family == PerClient ==> s.client == c)
  }

  /** The admissions counted for client c among the requests from the k-th on. */
  function CountFrom(family: Family, served: seq<Served>, c: string, k: nat): nat
    requires k <= |served|
    decreases |served| - k
  {
    if k == |served| then 0
    else (if Counted(family, served[k], c) then 1 else 0) + CountFrom(family, served, c, k + 1)
  }

  /** The admissions counted for client c with readings in [lo, hi]. */
  function CountWithin(family: Family, served: seq<Served>, c: string, lo: int, hi: int): nat {
    if served == [] then 0
    else
      var n := |served| - 1;
      CountWithin(family, served[..n], c, lo, hi)
      + if Counted(family, served[n], c) && lo <= served[n].now <= hi then 1 else 0
  }

  /** One burst and what the rate, in tokens per minute, earns in dt nanoseconds. */
  function Earned(l: Limit, dt: int): real {
    l.burst as real + (l.rate * dt) as real / 60_000_000_000.0
  }

  /**
   One limit's decision on a request of client c at time t: from every counted admission on, those admissions and
   the new
   one fit into what the limit earns from that admission's time.
   */
  predicate Fits(l: Limit, served: seq<Served>, c: string, t: int) {
    forall k | 0 <= k < |served| && Counted(l.family, served[k], c) ::
      (CountFrom(l.family, served, c, k) + 1) as real <= Earned(l, t - served[k].now)
  }

  // ----- Keys and histories, in counts.

  /**
   A request's bucket is charged for client c exactly if the limit is not for each client, or the clients are the
   same.
   */
  lemma {:induction false} HitsAreCounted(cfg: Config, s: Served, i: nat, c: string)
    requires cfg.Valid() && i < |cfg.limits|
    ensures Hits(cfg, s, i, c) <==> Counted(cfg.limits[i].family, s, c)
  {
    KeysDisjoint(cfg, i, s.client, i, c);
  }

  lemma {:induction false} EarnedIsGain(l: Limit, dt: int)
    requires l.Valid()
    ensures Earned(l, dt) == l.AsQuota().burst + Gain(l.AsQuota(), dt)
  {
    assert (l.rate * dt) as real == l.rate as real * dt as real;
    assert Gain(l.AsQuota(), dt) == (l.rate * dt) as real / MINUTE as real;
  }

  lemma {:induction false} CountFromAppend(family: Family, served: seq<Served>, s: Served, c: string, k: nat)
    requires k <= |served|
    ensures CountFrom(family, served + [s], c, k)
            == CountFrom(family, served, c, k) + if Counted(family, s, c) then 1 else 0
    decreases |served| - k
  {
    var all := served + [s];
    if k == |served| {
      assert CountFrom(family, all, c, k + 1) == 0;
    } else {
      assert all[k] == served[k];
      CountFromAppend(family, served, s, c, k + 1);
    }
  }

  /**
   The p-th charge of a bucket is the admission of some request k, and the charges from it on are those counted from k
   on.
   */
  lemma {:induction false} ChargeIsCounted(cfg: Config, served: seq<Served>, i: nat, c: string, p: nat) returns (k: nat)
    requires cfg.Valid() && i < |cfg.limits| && p < |Times(cfg, served, i, c)|
    ensures k < |served| && Counted(cfg.limits[i].family, served[k], c) && served[k].now == Times(cfg, served, i, c)[p]
    ensures CountFrom(cfg.limits[i].family, served, c, k) == |Times(cfg, served, i, c)| - p
  {
    var n, family := |served| - 1, cfg.limits[i].family;
    HitsAreCounted(cfg, served[n], i, c);
    assert served == served[..n] + [served[n]];
    hide Counted, Hits;
    if p < |Times(cfg, served[..n], i, c)| {
      k := ChargeIsCounted(cfg, served[..n], i, c, p);
      CountFromAppend(family, served[..n], served[n], c, k);
    } else {
      k := n;
      assert CountFrom(family, served, c, n + 1) == 0;
    }
  }

  /** The admission of request k is some charge of the bucket, and so on. */
  lemma {:induction false} CountedIsCharge(cfg: Config, served: seq<Served>, i: nat, c: string, k: nat) returns (p: nat)
    requires cfg.Valid() && i < |cfg.limits| && k < |served| && Counted(cfg.limits[i].family, served[k], c)
    ensures p < |Times(cfg, served, i, c)| && served[k].now == Times(cfg, served, i, c)[p]
    ensures CountFrom(cfg.limits[i].family, served, c, k) == |Times(cfg, served, i, c)| - p
  {
    var n, family := |served| - 1, cfg.limits[i].family;
    HitsAreCounted(cfg, served[n], i, c);
    assert served == served[..n] + [served[n]];
    hide Counted, Hits;
    if k < n {
      assert served[..n][k] == served[k];
      p := CountedIsCharge(cfg, served[..n], i, c, k);
      CountFromAppend(family, served[..n], served[n], c, k);
    } else {
      p := |Times(cfg, served[..n], i, c)|;
      assert CountFrom(family, served, c, n + 1) == 0;
    }
  }

  /** The law on a bucket's history is the law on the counted admissions. */
  lemma {:induction false} ConformsIsFits(cfg: Config, served: seq<Served>, i: nat, c: string, t: int)
    requires cfg.Valid() && i < |cfg.limits|
    ensures Conforms(cfg.limits[i].AsQuota(), Times(cfg, served, i, c), t) <==> Fits(cfg.limits[i], served, c, t)
  {
    var l, times := cfg.limits[i], Times(cfg, served, i, c);
    hide Times, Earned, Gain, Counted, CountFrom;
    if Fits(l, served, c, t) {
      forall p | 0 <= p < |times| ensures (|times| - p + 1) as real <= l.AsQuota().burst
        + Gain(l.AsQuota(), t - times[p]) {
        var k := ChargeIsCounted(cfg, served, i, c, p);
        EarnedIsGain(l, t - times[p]);
      }
    }
    if Conforms(l.AsQuota(), times, t) {
      forall k | 0 <= k < |served| && Counted(l.family, served[k], c)
        ensures (CountFrom(l.family, served, c, k) + 1) as real <= Earned(l, t - served[k].now)
      {
        var p := CountedIsCharge(cfg, served, i, c, k);
        EarnedIsGain(l, t - times[p]);
      }
    }
  }

  lemma {:induction false} WithinIsCounted(cfg: Config, served: seq<Served>, i: nat, c: string, lo: int, hi: int)
    requires cfg.Valid() && i < |cfg.limits|
    ensures Within(Times(cfg, served, i, c), lo, hi) == CountWithin(cfg.limits[i].family, served, c, lo, hi)
  {
    if served != [] {
      var n := |served| - 1;
      HitsAreCounted(cfg, served[n], i, c);
      hide Counted, Hits, Within;
      WithinIsCounted(cfg, served[..n], i, c, lo, hi);
      WithinAppend(Times(cfg, served[..n], i, c), served[n].now, lo, hi);
      assert Times(cfg, served[..n], i, c) + [] == Times(cfg, served[..n], i, c);
    } else {
      assert Within([], lo, hi) == 0;
    }
  }

  // ----- The law of a run.

  lemma {:induction false} NoEvictionOfKey(served: seq<Served>, key: string)
    requires NoEviction(served)
    ensures EvictionsOf(served, key) == 0
  {
    if served != [] {
      NoEvictionOfKey(served[..|served| - 1], key);
      NothingForgotten(served[|served| - 1].events, key);
    }
  }

  /**
   The exact decision, from the empty map: with readings not older than a sweep and without evictions, a request is
   admitted
   if and only if it fits every limit, where a limit for each client counts the earlier admissions of that client and
   any other limit those of all clients.
   */
  lemma {:induction false} DecisionInCounts(cfg: Config, start: int, reqs: seq<Request>, j: nat)
    requires cfg.Valid() && WellFormed(cfg, reqs) && ClockOk(cfg, State(map[], start), reqs) && j < |reqs|
    requires NoEviction(Run(cfg, State(map[], start), reqs))
    ensures var served := Run(cfg, State(map[], start), reqs);
            served[j].ok
            <==> forall i | 0 <= i < |cfg.limits| :: Fits(cfg.limits[i], served[..j], reqs[j].client, reqs[j].now)
  {
    var served := Run(cfg, State(map[], start), reqs);
    hide ClockOk, NoEviction, Run, Fits, Conforms, Times, Key, KeyClockOk;
    forall i | 0 <= i < |cfg.limits|
      ensures KeyOrderlyThrough(cfg, start, reqs, j, i)
      ensures KeyLawful(cfg, start, reqs, j, i) <==> Fits(cfg.limits[i], served[..j], reqs[j].client, reqs[j].now)
    {
      NoEvictionOfKey(served, Key(cfg, i, reqs[j].client));
      EvictionsPrefix(served, Key(cfg, i, reqs[j].client), j + 1);
      ClockOkIsKeyClockOk(cfg, start, reqs, i, reqs[j].client);
      KeyClockOkPrefix(cfg, start, reqs, j + 1, i, reqs[j].client);
      ConformsIsFits(cfg, served[..j], i, reqs[j].client, reqs[j].now);
    }
    hide KeyLawful, KeyOrderlyThrough;
    AdmissionLaw(cfg, start, reqs, j);
  }

  lemma {:induction false} WindowBoundEarned(cfg: Config, start: int, reqs: seq<Request>, i: nat, c: string,
      lo: int, hi: int)
    requires cfg.Valid() && WellFormed(cfg, reqs) && ClockOk(cfg, State(map[], start), reqs)
    requires NoEviction(Run(cfg, State(map[], start), reqs)) && i < |cfg.limits| && lo <= hi
    ensures CountWithin(cfg.limits[i].family, Run(cfg, State(map[], start), reqs), c, lo, hi) as real
            <= Earned(cfg.limits[i], hi - lo)
  {
    var served := Run(cfg, State(map[], start), reqs);
    NoEvictionOfKey(served, Key(cfg, i, c));
    hide ClockOk, NoEviction, Run, Times, Key, KeyClockOk, Within, CountWithin, Gain, EvictionsOf, Earned;
    ClockOkIsKeyClockOk(cfg, start, reqs, i, c);
    WindowBoundAnyOrder(cfg, start, reqs, i, c, lo, hi);
    WithinIsCounted(cfg, served, i, c, lo, hi);
    EarnedIsGain(cfg.limits[i], hi - lo);
  }

  /**
   The window bound, from the empty map: the admissions that a limit counts within a window are at most one burst
   and what
   its rate earns in the window.
   */
  lemma {:induction false} WindowBoundInCounts(cfg: Config, start: int, reqs: seq<Request>, i: nat, c: string,
      lo: int, hi: int)
    requires cfg.Valid() && WellFormed(cfg, reqs) && ClockOk(cfg, State(map[], start), reqs)
    requires NoEviction(Run(cfg, State(map[], start), reqs)) && i < |cfg.limits| && lo <= hi
    ensures CountWithin(cfg.limits[i].family, Run(cfg, State(map[], start), reqs), c, lo, hi) as real
            <= cfg.limits[i].burst as real + (cfg.limits[i].rate * (hi - lo)) as real / 60_000_000_000.0
  {
    WindowBoundEarned(cfg, start, reqs, i, c, lo, hi);
    hide ClockOk, NoEviction, Run, CountWithin;
  }

  /**
   Two clients share the bucket of a route: with one token a minute and a burst of one, the second client is denied.
   */
  lemma {:induction false} RouteIsShared(route: string, start: int, a: string, b: string, t: int)
    ensures var cfg := Config([Limit(PerRoute, 1, 1)], route);
            var reqs := [Request(a, t, [""]), Request(b, t, [""])];
            && cfg.Valid() && WellFormed(cfg, reqs)
            && (start <= t ==> Run(cfg, State(map[], start), reqs)[0].ok && !Run(cfg, State(map[], start), reqs)[1].ok)
  {
    var cfg := Config([Limit(PerRoute, 1, 1)], route);
    var reqs := [Request(a, t, [""]), Request(b, t, [""])];
    var s := State(map[], start);
    if start <= t {
      var served := Run(cfg, s, reqs);
      SmallRunsDoNotEvict(cfg, s, reqs);
      MonotoneIsClockOk(cfg, s, reqs);
      DecisionInCounts(cfg, start, reqs, 0);
      DecisionInCounts(cfg, start, reqs, 1);
      assert Counted(PerRoute, served[..1][0], b) && CountFrom(PerRoute, served[..1], b, 0) == 1;
    }
  }
}
