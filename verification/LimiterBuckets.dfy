/**
 What one request of the local limiter does, read off the map bucket by bucket, for clock readings of any age.
 */
module LimiterBuckets {
  import opened Prelude
  import opened Admission
  import opened Limiter
  import opened LimiterLaw
  import opened LimiterRuns
  import opened LimiterAnyClock

  // ----- The limiter's own decision, read off the map.

  /** Each limit finds a whole token. */
  ghost predicate HasRoom(cfg: Config, store: Store, client: string, t: int)
    requires cfg.Valid()
  {
    forall i | 0 <= i < |cfg.limits| :: Available(cfg.limits[i].AsQuota(), Lookup(store, Key(cfg, i, client)), t) >= 1.0
  }

  /** Examining leaves alone every bucket that it does not evict. */
  lemma {:induction false} ExamineKeeps(cfg: Config, client: string, now: int, store: Store, victims: seq<string>,
      key: string)
    requires cfg.Valid() && |victims| <= |cfg.limits|
    requires Forgets(Examine(cfg, client, now, store, victims).events, key) == 0
    ensures Lookup(Examine(cfg, client, now, store, victims).store, key) == Lookup(store, key)
  {
    if victims != [] {
      var n := |victims| - 1;
      var before, after := Examine(cfg, client, now, store, victims[..n]), Examine(cfg, client, now, store, victims);
      assert after.events[..n] == before.events;
      ExamineKeeps(cfg, client, now, store, victims[..n], key);
    }
  }

  /** A request that evicts none of its own keys is admitted exactly if each limit finds a token. */
  lemma {:induction false} ExamineIsProduct(cfg: Config, client: string, now: int, store: Store, victims: seq<string>)
    requires cfg.Valid() && |victims| <= |cfg.limits| && KeepsOwn(cfg, client,
             Examine(cfg, client, now, store, victims).events)
    ensures Examine(cfg, client, now, store, victims).ok
            <==> forall i | 0 <= i < |victims| :: Available(cfg.limits[i].AsQuota(),
              Lookup(store, Key(cfg, i, client)), now) >= 1.0
  {
    if victims != [] {
      var n := |victims| - 1;
      var before, after := Examine(cfg, client, now, store, victims[..n]), Examine(cfg, client, now, store, victims);
      assert after == ExamineOne(cfg, n, client, now, before, victims[n]);
      hide Available, Charged, Key, Examine;
      assert after.events[..n] == before.events;
      forall i | 0 <= i < |cfg.limits| ensures Forgets(before.events, Key(cfg, i, client)) == 0 {
        assert Forgets(after.events, Key(cfg, i, client)) == 0;
      }
      ExamineIsProduct(cfg, client, now, store, victims[..n]);
      ExamineKeeps(cfg, client, now, store, victims[..n], Key(cfg, n, client));
    }
  }

  /** A request that evicts none of its own keys is admitted exactly if each limit finds a token once it has swept. */
  lemma {:induction false} DecidedOnStore(cfg: Config, s: State, r: Request)
    requires cfg.Valid() && |r.victims| == |cfg.limits| && KeepsOwn(cfg, r.client, Step(cfg, s, r).1.events)
    ensures Step(cfg, s, r).1.ok <==> HasRoom(cfg, Swept(s, r.now).store, r.client, r.now)
  {
    ExamineIsProduct(cfg, r.client, r.now, Swept(s, r.now).store, r.victims);
  }

  lemma {:induction false} ChargesOne(cfg: Config, i: nat, client: string, now: int, a: Attempt, victim: string)
    requires cfg.Valid() && i < |cfg.limits|
    ensures var a' := ExamineOne(cfg, i, client, now, a, victim);
            var q := cfg.limits[i].AsQuota();
            var room := Available(q, Lookup(a.store, Key(cfg, i, client)), now);
            && |a'.events| == |a.events| + 1 && a'.events[..|a.events|] == a.events
            && (a'.ok ==> a.ok && room >= 1.0 && a'.charged == a.charged + [Charged(q, room, now)])
  {
    hide Available, Charged, Key, Lookup, Evicts;
  }

  /** An admission charges each bucket from what it finds when its turn comes, which is at least a token. */
  lemma {:induction false} ChargedInTurn(cfg: Config, client: string, now: int, store: Store, victims: seq<string>,
      i: nat)
    requires cfg.Valid() && i < |victims| <= |cfg.limits| && Examine(cfg, client, now, store, victims).ok
    ensures var q := cfg.limits[i].AsQuota();
            var before := Examine(cfg, client, now, store, victims[..i]);
            var room := Available(q, Lookup(before.store, Key(cfg, i, client)), now);
            room >= 1.0 && Examine(cfg, client, now, store, victims).charged[i] == Charged(q, room, now)
  {
    var n := |victims| - 1;
    var before := Examine(cfg, client, now, store, victims[..n]);
    assert Examine(cfg, client, now, store, victims) == ExamineOne(cfg, n, client, now, before, victims[n]);
    hide Available, Charged, Key, Examine, Lookup, ExamineOne;
    ChargesOne(cfg, n, client, now, before, victims[n]);
    if i < n {
      ChargedInTurn(cfg, client, now, store, victims[..n], i);
      assert victims[..n][..i] == victims[..i];
    }
  }

  lemma {:induction false} ForgetsGrow(before: seq<Option<string>>, after: seq<Option<string>>, key: string)
    requires |after| == |before| + 1 && after[..|before|] == before
    ensures Forgets(before, key) <= Forgets(after, key)
  {
  }

  lemma {:induction false} EventsPrefix(cfg: Config, client: string, now: int, store: Store, victims: seq<string>,
      i: nat, key: string)
    requires cfg.Valid() && i <= |victims| <= |cfg.limits|
    ensures Forgets(Examine(cfg, client, now, store, victims[..i]).events, key)
            <= Forgets(Examine(cfg, client, now, store, victims).events, key)
  {
    if i == |victims| {
      assert victims[..i] == victims;
    } else {
      var n := |victims| - 1;
      var before := Examine(cfg, client, now, store, victims[..n]);
      assert Examine(cfg, client, now, store, victims) == ExamineOne(cfg, n, client, now, before, victims[n]);
      hide Available, Charged, Key, Examine, Lookup, ExamineOne, Forgets;
      ChargesOne(cfg, n, client, now, before, victims[n]);
      ForgetsGrow(before.events, Examine(cfg, client, now, store, victims).events, key);
      EventsPrefix(cfg, client, now, store, victims[..n], i, key);
      assert victims[..n][..i] == victims[..i];
    }
  }

  /** An admission charges each bucket that it does not evict from what the map held at first. */
  lemma {:induction false} ChargedAt(cfg: Config, client: string, now: int, store: Store, victims: seq<string>, i: nat)
    requires cfg.Valid() && i < |victims| <= |cfg.limits|
    requires var a := Examine(cfg, client, now, store, victims); a.ok && Forgets(a.events, Key(cfg, i, client)) == 0
    ensures var q := cfg.limits[i].AsQuota();
            var room := Available(q, Lookup(store, Key(cfg, i, client)), now);
            room >= 1.0 && Examine(cfg, client, now, store, victims).charged[i] == Charged(q, room, now)
  {
    hide Available, Charged, Key, Examine, Lookup, Forgets;
    EventsPrefix(cfg, client, now, store, victims, i, Key(cfg, i, client));
    ExamineKeeps(cfg, client, now, store, victims[..i], Key(cfg, i, client));
    ChargedInTurn(cfg, client, now, store, victims, i);
  }

  /** One bucket after one request that does not evict it: charged from what the sweep left, or as the sweep left it. */
  lemma {:induction false} BucketAfter(cfg: Config, s: State, r: Request, i: nat, c: string)
    requires cfg.Valid() && |r.victims| == |cfg.limits| && i < |cfg.limits|
    requires Forgets(Step(cfg, s, r).1.events, Key(cfg, i, c)) == 0
    ensures var (s', served) := Step(cfg, s, r);
            var q, found := cfg.limits[i].AsQuota(), Lookup(Swept(s, r.now).store, Key(cfg, i, c));
            var room := Available(q, found, r.now);
            if Hits(cfg, served, i, c) then
              room >= 1.0 && Lookup(s'.store, Key(cfg, i, c)) == Some(Charged(q, room, r.now))
            else Lookup(s'.store, Key(cfg, i, c)) == found
  {
    var swept := Swept(s, r.now).store;
    var a := Examine(cfg, r.client, r.now, swept, r.victims);
    hide Available, Charged, Key, Swept;
    ExamineKeeps(cfg, r.client, r.now, swept, r.victims, Key(cfg, i, c));
    if a.ok {
      WriteBackAt(cfg, r.client, a.store, map[], a.charged, seq(|cfg.limits|, _ => []), i, c);
      if Key(cfg, i, r.client) == Key(cfg, i, c) {
        ChargedAt(cfg, r.client, r.now, swept, r.victims, i);
      }
    }
  }

  /** The stored full time is the one that belongs to the stored tokens. */
  predicate FullTimeIsRight(q: Quota, bucket: Option<Bucket>)
    requires q.Valid()
  {
    bucket.Some? ==> bucket.value.fullAt == bucket.value.updated + FullIn(q, bucket.value.tokens)
  }

  /** What a request finds after its own sweep is what it would have found before it. */
  lemma {:induction false} OwnSweepIsInvisible(q: Quota, s: State, key: string, now: int)
    requires q.Valid() && FullTimeIsRight(q, Lookup(s.store, key))
    ensures Available(q, Lookup(Swept(s, now).store, key), now) == Available(q, Lookup(s.store, key), now)
    ensures Lookup(Swept(s, now).store, key) == Lookup(s.store, key)
            || (key in s.store && key !in Swept(s, now).store && s.store[key].fullAt < now)
  {
    if key in s.store && key !in Swept(s, now).store {
      SweptIsFull(q, s.store[key], now, now);
    }
  }

  /**
   Admission takes exactly one token from each of the request's buckets; denial, and every other bucket, loses nothing.
   This is so for any clock reading and for every key that the request does not evict.
   */
  lemma {:induction false} TokensConserved(cfg: Config, s: State, r: Request, i: nat, c: string)
    requires cfg.Valid() && |r.victims| == |cfg.limits| && i < |cfg.limits|
    requires FullTimeIsRight(cfg.limits[i].AsQuota(), Lookup(s.store, Key(cfg, i, c)))
    requires Forgets(Step(cfg, s, r).1.events, Key(cfg, i, c)) == 0
    ensures var (s', served) := Step(cfg, s, r);
            var q, key := cfg.limits[i].AsQuota(), Key(cfg, i, c);
            Available(q, Lookup(s'.store, key), r.now)
            == Available(q, Lookup(s.store, key), r.now) - if Hits(cfg, served, i, c) then 1.0 else 0.0
  {
    var q := cfg.limits[i].AsQuota();
    assert Gain(q, 0) == 0.0;
    hide Step, Key, Forgets, Swept;
    BucketAfter(cfg, s, r, i, c);
    OwnSweepIsInvisible(q, s, Key(cfg, i, c), r.now);
  }

  /** Every bucket that any run stores has the right full time. */
  lemma {:induction false} RunStoresRight(cfg: Config, start: int, reqs: seq<Request>, i: nat, c: string)
    requires cfg.Valid() && WellFormed(cfg, reqs) && i < |cfg.limits|
    ensures FullTimeIsRight(cfg.limits[i].AsQuota(), Lookup(StateAfter(cfg, State(map[], start), reqs).store,
            Key(cfg, i, c)))
  {
    var s := State(map[], start);
    RunIsRemembered(cfg, start, reqs);
    var store, ledger := StateAfter(cfg, s, reqs).store, Remembered(cfg, s, reqs);
    assert Refines(cfg, store, ledger, 0);
    assert Mirrors(cfg.limits[i].AsQuota(), Lookup(store, Key(cfg, i, c)), Past(ledger, Key(cfg, i, c)), 0);
  }

  /** Conservation in every run, with readings in any order and any evictions of other keys. */
  lemma {:induction false} TokensConservedInRun(cfg: Config, start: int, reqs: seq<Request>, r: Request, i: nat,
      c: string)
    requires cfg.Valid() && WellFormed(cfg, reqs) && |r.victims| == |cfg.limits| && i < |cfg.limits|
    requires Forgets(Step(cfg, StateAfter(cfg, State(map[], start), reqs), r).1.events, Key(cfg, i, c)) == 0
    ensures var s := StateAfter(cfg, State(map[], start), reqs);
            var (s', served) := Step(cfg, s, r);
            var q, key := cfg.limits[i].AsQuota(), Key(cfg, i, c);
            Available(q, Lookup(s'.store, key), r.now)
            == Available(q, Lookup(s.store, key), r.now) - if Hits(cfg, served, i, c) then 1.0 else 0.0
  {
    hide *;
    RunStoresRight(cfg, start, reqs, i, c);
    TokensConserved(cfg, StateAfter(cfg, State(map[], start), reqs), r, i, c);
  }

  // ----- Sweeps and evictions keep the map small.

  /** A bucket that has been full for a nanosecond is dropped by a sweep. */
  lemma {:induction false} FullBucketsAreSwept(q: Quota, store: Store, key: string, now: int)
    requires q.Valid() && key in store && FullTimeIsRight(q, Lookup(store, key))
    requires store[key].tokens + Gain(q, now - 1 - store[key].updated) >= q.burst
    ensures key !in Unswept(store, now)
  {
    var b := store[key];
    var x, dt := (q.burst - b.tokens) / q.perTick, (now - 1 - b.updated) as real;
    assert q.perTick * x == q.burst - b.tokens;
    assert q.perTick * (dt - x) >= 0.0;
    assert dt >= x;
  }

  /**
   No request leaves the last sweep a minute behind, or a second behind when it finds the map at capacity; and
   sweeps are at
   least a second apart.
   */
  lemma {:induction false} SweepsAreTimely(cfg: Config, s: State, r: Request)
    requires cfg.Valid() && |r.victims| == |cfg.limits|
    ensures var last := Step(cfg, s, r).0.lastSweep;
            && r.now - last < 60_000_000_000
            && (|s.store| >= 100_000 ==> r.now - last < 1_000_000_000)
            && (last != s.lastSweep ==> last == r.now && r.now - s.lastSweep >= 1_000_000_000)
  {
    hide Examine, WriteBack, Unswept;
  }

  /** A missing bucket evicts exactly one entry at capacity and none below, so there is room for it. */
  lemma {:induction false} EvictionMakesRoom(cfg: Config, i: nat, client: string, now: int, a: Attempt, victim: string)
    requires cfg.Valid() && i < |cfg.limits| && a.ok && Key(cfg, i, client) !in a.store && |a.store| <= 100_000
    requires |a.store| == 100_000 ==> victim in a.store
    ensures var a' := ExamineOne(cfg, i, client, now, a, victim);
            |a'.store| < 100_000 && (|a.store| < 100_000 ==> a'.store == a.store)
  {
    hide Available, Charged, Key;
    if |a.store| == 100_000 {
      assert (a.store - {victim}).Keys == a.store.Keys - {victim};
    }
  }

  /** A bucket that is there is never a reason to evict. */
  lemma {:induction false} PresentKeyEvictsNothing(cfg: Config, i: nat, client: string, now: int, a: Attempt,
      victim: string)
    requires cfg.Valid() && i < |cfg.limits| && Key(cfg, i, client) in a.store
    ensures ExamineOne(cfg, i, client, now, a, victim).store == a.store
  {
  }

  /** The limits in use are those with a positive rate, with the rate as burst where none is given. */
  lemma {:induction false} ConfiguredExactly(candidates: seq<Limit>, l: Limit)
    ensures l in Configured(candidates)
            <==> exists i | 0 <= i < |candidates| ::
                   && l.family == candidates[i].family && l.rate == candidates[i].rate && l.rate > 0
                   && l.burst == if candidates[i].burst > 0 then candidates[i].burst else l.rate
  {
    if candidates != [] {
      var n := |candidates| - 1;
      ConfiguredExactly(candidates[..n], l);
      assert forall i | 0 <= i < n :: candidates[..n][i] == candidates[i];
    }
  }
}
