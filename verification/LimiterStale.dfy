/**
 Clock readings older than a sweep: exactly when the limiter then departs from the admission law.

 A request reads the clock before it takes the lock, so another request may sweep in between, with a later reading.
 The sweep drops buckets that are full at its own reading; for the older one they may still be short of a token.
 */
module LimiterStale {
  import opened Prelude
  import opened Admission
  import opened Limiter
  import opened LimiterLaw
  import opened LimiterRuns
  import opened LimiterBuckets

  // ----- A sweep, and a reading that may be older.

  /** A bucket that a sweep may have dropped, seen from any reading. */
  lemma {:induction false} SweptBucket(q: Quota, store: Store, key: string, past: seq<int>, now: int, t: int)
    requires q.Valid() && Available(q, Lookup(store, key), t) == Level(q, past, t)
    ensures Conforms(q, past, t)
            <==> Available(q, Lookup(Unswept(store, now), key), t) >= 1.0 && !DroppedShort(q, store, key, now, t)
  {
    LevelDecides(q, past, t);
  }

  ghost predicate Law(cfg: Config, ledger: Ledger, client: string, t: int)
    requires cfg.Valid()
  {
    forall i | 0 <= i < |cfg.limits| :: Conforms(cfg.limits[i].AsQuota(), Past(ledger, Key(cfg, i, client)), t)
  }

  /** A sweep at `now` drops a bucket that is short of a token at time t. */
  predicate DroppedShort(q: Quota, store: Store, key: string, now: int, t: int) {
    key in store && store[key].fullAt < now && Available(q, Some(store[key]), t) < 1.0
  }

  /**
   The exact condition, on the map.  Let the map agree with the history from the last sweep on, let a sweep run at
   `now`, and let a request come with any reading t not before the last sweep.  The decision on the swept map
   is the law's unless, and only unless, some bucket of the request was dropped short of a token while every limit
   finds a token in the swept map.
   */
  lemma {:induction false} SweptDecision(cfg: Config, s: State, ledger: Ledger, client: string, now: int, t: int,
      victims: seq<string>)
    requires cfg.Valid() && Refines(cfg, s.store, ledger, s.lastSweep) && s.lastSweep <= t
    requires |victims| == |cfg.limits| && KeepsOwn(cfg, client,
             Examine(cfg, client, t, Unswept(s.store, now), victims).events)
    ensures Examine(cfg, client, t, Unswept(s.store, now), victims).ok == Law(cfg, ledger, client, t)
            <==> !(HasRoom(cfg, Unswept(s.store, now), client, t)
                   && exists i | 0 <= i < |cfg.limits| :: DroppedShort(cfg.limits[i].AsQuota(), s.store,
                     Key(cfg, i, client), now, t))
  {
    var swept := Unswept(s.store, now);
    ExamineIsProduct(cfg, client, t, swept, victims);
    forall i | 0 <= i < |cfg.limits|
      ensures var q, key := cfg.limits[i].AsQuota(), Key(cfg, i, client);
              Conforms(q, Past(ledger, key), t)
              <==> Available(q, Lookup(swept, key), t) >= 1.0 && !DroppedShort(q, s.store, key, now, t)
    {
      var q, key := cfg.limits[i].AsQuota(), Key(cfg, i, client);
      assert Mirrors(q, Lookup(s.store, key), Past(ledger, key), s.lastSweep);
      SweptBucket(q, s.store, key, Past(ledger, key), now, t);
    }
    hide Conforms, Available, DroppedShort, Key, Examine;
  }

  // ----- A concrete run.

  /** One request per second and client, a burst of one. */
  const ONE_PER_SECOND := Config([Limit(PerClient, 60, 1)], "/")

  const FIRST := Request("a", 59_000_000_000, [""])
  const SWEEPING := Request("b", 61_000_000_000, [""])
  const STALE := Request("a", 59_500_000_000, [""])

  /**
   The law fails for a reading that is older than a sweep.  Client a is admitted at 59s; client b's request at
   61s sweeps a's refilled bucket; a request of a that read its clock at 59.5s, before that sweep, is then admitted
   although only half a token was earned since a's admission.
   */
  lemma {:induction false} StaleReadingBreaksLaw()
    ensures ONE_PER_SECOND.Valid() && WellFormed(ONE_PER_SECOND, [FIRST, SWEEPING, STALE])
    ensures var served := Run(ONE_PER_SECOND, State(map[], 0), [FIRST, SWEEPING, STALE]);
            && NoEviction(served)
            && served[2].ok
            && !Conforms(ONE_PER_SECOND.limits[0].AsQuota(), Times(ONE_PER_SECOND, served[..2], 0, "a"), STALE.now)
  {
    var cfg, s0 := ONE_PER_SECOND, State(map[], 0);
    hide Step, Run, Conforms, Times, Key;
    var s1, s2, v3 := StaleSteps();
    var v1, v2 := Served("a", FIRST.now, true, [None]), Served("b", SWEEPING.now, true, [None]);
    RunOfThree(cfg, s0, FIRST, SWEEPING, STALE);
    StaleTimes(v1, v2);
    assert [v1, v2, v3][..2] == [v1, v2];
  }

  lemma {:induction false} RunOfThree(cfg: Config, s0: State, r1: Request, r2: Request, r3: Request)
    requires cfg.Valid() && WellFormed(cfg, [r1, r2, r3])
    ensures |r1.victims| == |r2.victims| == |r3.victims| == |cfg.limits|
    ensures var (s1, v1) := Step(cfg, s0, r1);
            var (s2, v2) := Step(cfg, s1, r2);
            Run(cfg, s0, [r1, r2, r3]) == [v1, v2, Step(cfg, s2, r3).1]
  {
    var all := [r1, r2, r3];
    assert all[0] == r1 && all[1] == r2 && all[2] == r3;
    assert StateAfter(cfg, s0, []) == s0 && Run(cfg, s0, []) == [];
    hide Step, Run, StateAfter;
    RunAppend(cfg, s0, [], r1);
    RunAppend(cfg, s0, [r1], r2);
    RunAppend(cfg, s0, [r1, r2], r3);
    assert [] + [r1] == [r1] && [r1] + [r2] == [r1, r2] && [r1, r2] + [r3] == all;
  }

  lemma {:induction false} StaleTimes(v1: Served, v2: Served)
    requires v1 == Served("a", FIRST.now, true, [None]) && v2 == Served("b", SWEEPING.now, true, [None])
    ensures Times(ONE_PER_SECOND, [v1, v2], 0, "a") == [FIRST.now]
  {
    var cfg := ONE_PER_SECOND;
    assert [v1, v2][..1] == [v1] && [v1][..0] == [];
    assert Key(cfg, 0, "a")[3] != Key(cfg, 0, "b")[3];
    assert Times(cfg, [v1], 0, "a") == [FIRST.now];
  }

  /** The three steps one by one. */
  lemma {:induction false} StaleSteps() returns (s1: State, s2: State, v3: Served)
    ensures var cfg := ONE_PER_SECOND;
            && cfg.Valid()
            && Step(cfg, State(map[], 0), FIRST) == (s1, Served("a", FIRST.now, true, [None]))
            && Step(cfg, s1, SWEEPING) == (s2, Served("b", SWEEPING.now, true, [None]))
            && v3 == Step(cfg, s2, STALE).1 == Served("a", STALE.now, true, [None])
            && !Conforms(cfg.limits[0].AsQuota(), [FIRST.now], STALE.now)
  {
    var cfg, q, s0 := ONE_PER_SECOND, Limit(PerClient, 60, 1).AsQuota(), State(map[], 0);
    var a, b := Key(cfg, 0, "a"), Key(cfg, 0, "b");
    assert a[3] != b[3] && a != "" && b != "";
    OneSecondToRefill(q);
    hide Step, Charged, Key;
    AbsentStep(s0, FIRST);
    s1 := Step(cfg, s0, FIRST).0;
    assert s1 == State(map[a := Charged(q, 1.0, FIRST.now), "" := ZERO_BUCKET], 0);
    RefilledIsSwept(a, q);
    AbsentStep(s1, SWEEPING);
    s2 := Step(cfg, s1, SWEEPING).0;
    assert s2 == State(map[b := Charged(q, 1.0, SWEEPING.now), "" := ZERO_BUCKET], SWEEPING.now);
    AbsentStep(s2, STALE);
    v3 := Step(cfg, s2, STALE).1;
    assert [FIRST.now][0] == FIRST.now && Gain(q, STALE.now - FIRST.now) < 1.0;
  }

  /** A request whose bucket is absent once the sweep is over. */
  lemma {:induction false} AbsentStep(s: State, r: Request)
    requires |r.victims| == 1 && |Swept(s, r.now).store| < MAX_BUCKETS
             && Key(ONE_PER_SECOND, 0, r.client) !in Swept(s, r.now).store
    ensures ONE_PER_SECOND.Valid()
    ensures var cfg, swept := ONE_PER_SECOND, Swept(s, r.now);
            var bucket := Charged(cfg.limits[0].AsQuota(), 1.0, r.now);
            Step(cfg, s, r) == (State(swept.store[Key(cfg, 0, r.client) := bucket]["" := ZERO_BUCKET], swept.lastSweep),
                                Served(r.client, r.now, true, [None]))
  {
    hide Step, Swept, Charged, Key;
    SingleLimitStep(ONE_PER_SECOND, s, r);
  }

  lemma {:induction false} RefilledIsSwept(a: string, q: Quota)
    requires q == Limit(PerClient, 60, 1).AsQuota()
    ensures Swept(State(map[a := Charged(q, 1.0, FIRST.now), "" := ZERO_BUCKET], 0), SWEEPING.now)
            == State(map[], SWEEPING.now)
  {
    OneSecondToRefill(q);
    var store := map[a := Charged(q, 1.0, FIRST.now), "" := ZERO_BUCKET];
    assert Unswept(store, SWEEPING.now) == map[];
  }

  lemma {:induction false} OneSecondToRefill(q: Quota)
    requires q == Limit(PerClient, 60, 1).AsQuota()
    ensures q.burst == 1.0 && q.perTick * 1_000_000_000.0 == 1.0 && FullIn(q, 0.0) == SECOND
  {
    assert 1.0 / q.perTick == 1_000_000_000.0;
  }
}
