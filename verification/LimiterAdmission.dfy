/**
 The admission law of the local limiter, end to end, for clock readings that reach the lock in any order.

 A sweep matters to a key only if it drops the key's bucket, and a dropped bucket only until the key is charged again.
 In between, a reading older than the sweep's may find the key full although it is not.  The theorems say for every
 run exactly when a decision departs from the law, and that it never does under a condition on the request's own keys.
 */
module LimiterAdmission {
  import opened Prelude
  import opened Admission
  import opened Limiter
  import opened LimiterLaw
  import opened LimiterRuns
  import opened LimiterAnyClock
  import opened LimiterBuckets

  // ----- The bucket as it would be if nothing were ever dropped.

  /** The bucket of a key in an infinite map that is never swept, charged for the requests that were admitted. */
  function Undropped(cfg: Config, served: seq<Served>, i: nat, c: string): Option<Bucket>
    requires cfg.Valid() && i < |cfg.limits|
  {
    if served == [] then None
    else
      var n := |served| - 1;
      var before, q := Undropped(cfg, served[..n], i, c), cfg.limits[i].AsQuota();
      if Hits(cfg, served[n], i, c) then Some(Charged(q, Available(q, before, served[n].now), served[n].now))
        else before
  }

  /** Its tokens are the least slack of the whole history, at every time. */
  lemma {:induction false} UndroppedTells(cfg: Config, served: seq<Served>, i: nat, c: string, t: int)
    requires cfg.Valid() && i < |cfg.limits|
    ensures var q := cfg.limits[i].AsQuota();
            Available(q, Undropped(cfg, served, i, c), t) == Level(q, Times(cfg, served, i, c), t)
    ensures FullTimeIsRight(cfg.limits[i].AsQuota(), Undropped(cfg, served, i, c))
  {
    if served != [] {
      var n := |served| - 1;
      UndroppedTells(cfg, served[..n], i, c, t);
      UndroppedTells(cfg, served[..n], i, c, served[n].now);
      LevelAppend(cfg.limits[i].AsQuota(), Times(cfg, served[..n], i, c), served[n].now, t);
      assert Times(cfg, served[..n], i, c) + [] == Times(cfg, served[..n], i, c);
    }
  }

  /** The law's decision on the j-th request: every configured quota conforms to the admissions on its own key. */
  ghost predicate LawSays(cfg: Config, start: int, reqs: seq<Request>, j: nat)
    requires cfg.Valid() && WellFormed(cfg, reqs) && j < |reqs|
  {
    forall i | 0 <= i < |cfg.limits| :: KeyLawful(cfg, start, reqs, j, i)
  }

  ghost predicate KeyLawful(cfg: Config, start: int, reqs: seq<Request>, j: nat, i: nat)
    requires cfg.Valid() && WellFormed(cfg, reqs) && j < |reqs| && i < |cfg.limits|
  {
    Conforms(cfg.limits[i].AsQuota(), Times(cfg, Run(cfg, State(map[], start), reqs)[..j], i, reqs[j].client),
      reqs[j].now)
  }

  /** The map that the j-th request finds when it has swept. */
  function FoundBy(cfg: Config, start: int, reqs: seq<Request>, j: nat): Store
    requires cfg.Valid() && WellFormed(cfg, reqs) && j < |reqs|
  {
    Swept(StateAfter(cfg, State(map[], start), reqs[..j]), reqs[j].now).store
  }

  lemma {:induction false} DecidedByFound(cfg: Config, start: int, reqs: seq<Request>, j: nat)
    requires cfg.Valid() && WellFormed(cfg, reqs) && j < |reqs|
    requires KeepsOwn(cfg, reqs[j].client, Run(cfg, State(map[], start), reqs)[j].events)
    ensures Run(cfg, State(map[], start), reqs)[j].ok <==> HasRoom(cfg, FoundBy(cfg, start, reqs, j), reqs[j].client,
            reqs[j].now)
  {
    hide Run, StateAfter, Step, KeepsOwn, HasRoom;
    RunAt(cfg, State(map[], start), reqs, j);
    DecidedOnStore(cfg, StateAfter(cfg, State(map[], start), reqs[..j]), reqs[j]);
  }

  /**
   Where the limiter departs from the law, on every run and with no condition on the clock.  A request none of whose own
   keys is evicted under it is decided otherwise than the law demands if and only if every limit finds a token in the
   map although one of its buckets, had it never been dropped, would be short of one.
   */
  lemma {:induction false} DepartsFromLaw(cfg: Config, start: int, reqs: seq<Request>, j: nat)
    requires cfg.Valid() && WellFormed(cfg, reqs) && j < |reqs|
    requires KeepsOwn(cfg, reqs[j].client, Run(cfg, State(map[], start), reqs)[j].events)
    ensures var served := Run(cfg, State(map[], start), reqs);
            served[j].ok != LawSays(cfg, start, reqs, j)
            <==> HasRoom(cfg, FoundBy(cfg, start, reqs, j), reqs[j].client, reqs[j].now)
                 && exists i | 0 <= i < |cfg.limits| ::
                      Available(cfg.limits[i].AsQuota(), Undropped(cfg, served[..j], i, reqs[j].client),
                        reqs[j].now) < 1.0
  {
    var served := Run(cfg, State(map[], start), reqs);
    forall i | 0 <= i < |cfg.limits|
      ensures KeyLawful(cfg, start, reqs, j, i)
              <==> var kept := Undropped(cfg, served[..j], i, reqs[j].client);
                   Available(cfg.limits[i].AsQuota(), kept, reqs[j].now) >= 1.0
    {
      hide Run, Undropped, Available, Times, Conforms, Level;
      UndroppedTells(cfg, served[..j], i, reqs[j].client, reqs[j].now);
      LevelDecides(cfg.limits[i].AsQuota(), Times(cfg, served[..j], i, reqs[j].client), reqs[j].now);
    }
    if LawSays(cfg, start, reqs, j) {
      forall i | 0 <= i < |cfg.limits|
        ensures Conforms(cfg.limits[i].AsQuota(), Times(cfg, served[..j], i, reqs[j].client), reqs[j].now)
      {
        assert KeyLawful(cfg, start, reqs, j, i);
      }
      ConformingIsAdmitted(cfg, start, reqs, j);
    }
    hide Run, Undropped, Available, KeyLawful, HasRoom, FoundBy, KeepsOwn;
    DecidedByFound(cfg, start, reqs, j);
  }

  // ----- Buckets dropped by a sweep and not charged since.

  /** The sweep of the k-th request drops the key's bucket. */
  predicate Drops(cfg: Config, start: int, reqs: seq<Request>, k: nat, key: string)
    requires cfg.Valid() && WellFormed(cfg, reqs) && k < |reqs|
  {
    key in StateAfter(cfg, State(map[], start), reqs[..k]).store && key !in FoundBy(cfg, start, reqs, k)
  }

  /**
   The k-th request drops the bucket of limit i for client c, and up to the j-th nobody charges it anew, the k-th
   included.
   */
  ghost predicate Gone(cfg: Config, start: int, reqs: seq<Request>, k: nat, j: nat, i: nat, c: string)
    requires cfg.Valid() && WellFormed(cfg, reqs) && k < j <= |reqs| && i < |cfg.limits|
  {
    && Drops(cfg, start, reqs, k, Key(cfg, i, c))
    && forall m | k <= m < j :: !Hits(cfg, Run(cfg, State(map[], start), reqs)[m], i, c)
  }

  /**
   The condition on one key: a request on it that comes while the bucket is gone does not carry a reading older than the
   sweep that dropped it.  Readings may otherwise be in any order, and older than any sweep that leaves the key alone.
   */
  ghost predicate KeyClockOk(cfg: Config, start: int, reqs: seq<Request>, i: nat, c: string)
    requires cfg.Valid() && WellFormed(cfg, reqs) && i < |cfg.limits|
  {
    forall j: nat | j < |reqs| :: KeyClockOkAt(cfg, start, reqs, j, i, c)
  }

  ghost predicate KeyClockOkAt(cfg: Config, start: int, reqs: seq<Request>, j: nat, i: nat, c: string)
    requires cfg.Valid() && WellFormed(cfg, reqs) && j < |reqs| && i < |cfg.limits|
  {
    Key(cfg, i, reqs[j].client) == Key(cfg, i, c) ==>
      forall k: nat | k < j && Gone(cfg, start, reqs, k, j, i, c) :: reqs[k].now <= reqs[j].now
  }

  /** The bucket that the k-th request dropped. */
  function DroppedBucket(cfg: Config, start: int, reqs: seq<Request>, k: nat, key: string): Bucket
    requires cfg.Valid() && WellFormed(cfg, reqs) && k < |reqs| && Drops(cfg, start, reqs, k, key)
  {
    StateAfter(cfg, State(map[], start), reqs[..k]).store[key]
  }

  /** Everything about the first requests of a run can be read off the run of these requests alone. */
  lemma {:induction false} GonePrefix(cfg: Config, start: int, reqs: seq<Request>, n: nat, k: nat, j: nat, i: nat,
      c: string)
    requires cfg.Valid() && WellFormed(cfg, reqs) && k < j <= n <= |reqs| && i < |cfg.limits|
    ensures Gone(cfg, start, reqs[..n], k, j, i, c) == Gone(cfg, start, reqs, k, j, i, c)
    ensures Drops(cfg, start, reqs[..n], k, Key(cfg, i, c)) == Drops(cfg, start, reqs, k, Key(cfg, i, c))
  {
    hide Run, StateAfter, Swept, Hits, Key;
    assert reqs[..n][..k] == reqs[..k];
    RunPrefix(cfg, State(map[], start), reqs, n);
    var some, all := Run(cfg, State(map[], start), reqs[..n]), Run(cfg, State(map[], start), reqs);
    assert forall m | k <= m < j :: some[m] == all[m];
  }

  lemma {:induction false} KeyClockOkPrefix(cfg: Config, start: int, reqs: seq<Request>, n: nat, i: nat, c: string)
    requires cfg.Valid() && WellFormed(cfg, reqs) && n <= |reqs| && i < |cfg.limits|
             && KeyClockOk(cfg, start, reqs, i, c)
    ensures KeyClockOk(cfg, start, reqs[..n], i, c)
  {
    hide Gone, Run, Key;
    forall j: nat | j < n
      ensures KeyClockOkAt(cfg, start, reqs[..n], j, i, c)
    {
      assert KeyClockOkAt(cfg, start, reqs, j, i, c);
      forall k: nat | k < j ensures Gone(cfg, start, reqs[..n], k, j, i, c) == Gone(cfg, start, reqs, k, j, i, c) {
        GonePrefix(cfg, start, reqs, n, k, j, i, c);
      }
    }
  }

  /**
   The map holds either the bucket that was never dropped, or nothing because a sweep dropped just that bucket and
   nobody has charged it since; then `gone` is the request that swept.
   */
  ghost predicate Traced(cfg: Config, start: int, reqs: seq<Request>, i: nat, c: string, gone: Option<nat>)
    requires cfg.Valid() && WellFormed(cfg, reqs) && i < |cfg.limits|
  {
    var s := State(map[], start);
    var key, kept := Key(cfg, i, c), Undropped(cfg, Run(cfg, s, reqs), i, c);
    var bucket := Lookup(StateAfter(cfg, s, reqs).store, key);
    match gone
    case None => bucket == kept
    case Some(k) =>
      && bucket == None && k < |reqs| && Gone(cfg, start, reqs, k, |reqs|, i, c)
      && kept == Some(DroppedBucket(cfg, start, reqs, k, key)) && kept.value.fullAt < reqs[k].now
  }

  /**
   Unless its reading is older than the sweep that dropped the bucket, a request finds what it would have found
   undropped.
   */
  lemma {:induction false} FindsUndropped(cfg: Config, start: int, reqs: seq<Request>, j: nat, i: nat, c: string,
      gone: Option<nat>)
    requires cfg.Valid() && WellFormed(cfg, reqs) && j < |reqs| && i < |cfg.limits|
    requires Traced(cfg, start, reqs[..j], i, c, gone) && (gone.Some? ==> reqs[gone.value].now <= reqs[j].now)
    ensures var q, kept := cfg.limits[i].AsQuota(), Undropped(cfg, Run(cfg, State(map[], start), reqs[..j]), i, c);
            Available(q, Lookup(FoundBy(cfg, start, reqs, j), Key(cfg, i, c)), reqs[j].now)
              == Available(q, kept, reqs[j].now)
  {
    hide Run, StateAfter, Undropped, Key, Gone;
    var q, s0, now := cfg.limits[i].AsQuota(), State(map[], start), reqs[j].now;
    var s, kept := StateAfter(cfg, s0, reqs[..j]), Undropped(cfg, Run(cfg, s0, reqs[..j]), i, c);
    UndroppedTells(cfg, Run(cfg, s0, reqs[..j]), i, c, now);
    if gone.None? {
      OwnSweepIsInvisible(q, s, Key(cfg, i, c), now);
    } else {
      SweptIsFull(q, kept.value, now, now);
    }
  }

  /** The last request of a run, as it changes the key's bucket in the map and the one that is never dropped. */
  lemma {:induction false} LastRequest(cfg: Config, start: int, reqs: seq<Request>, i: nat, c: string)
    requires cfg.Valid() && WellFormed(cfg, reqs) && reqs != [] && i < |cfg.limits|
    requires Forgets(Run(cfg, State(map[], start), reqs)[|reqs| - 1].events, Key(cfg, i, c)) == 0
    ensures var n, s0, q, key := |reqs| - 1, State(map[], start), cfg.limits[i].AsQuota(), Key(cfg, i, c);
            var served, found := Run(cfg, s0, reqs), Lookup(FoundBy(cfg, start, reqs, n), key);
            var kept, room := Undropped(cfg, Run(cfg, s0, reqs[..n]), i, c), Available(q, found, reqs[n].now);
            && served[..n] == Run(cfg, s0, reqs[..n])
            && if Hits(cfg, served[n], i, c) then
                 && room >= 1.0 && Lookup(StateAfter(cfg, s0, reqs).store, key) == Some(Charged(q, room, reqs[n].now))
                 && Undropped(cfg, served, i, c) == Some(Charged(q, Available(q, kept, reqs[n].now), reqs[n].now))
               else Lookup(StateAfter(cfg, s0, reqs).store, key) == found && Undropped(cfg, served, i, c) == kept
  {
    var n, s0 := |reqs| - 1, State(map[], start);
    RunPrefix(cfg, s0, reqs, n);
    RunAt(cfg, s0, reqs, n);
    hide Run, Step, Key, Charged, Forgets, Swept, Available, Hits;
    BucketAfter(cfg, StateAfter(cfg, s0, reqs[..n]), reqs[n], i, c);
  }

  /** How the trace of a key moves with the last request of a run. */
  lemma {:induction false} TraceStep(cfg: Config, start: int, reqs: seq<Request>, i: nat, c: string, gone: Option<nat>)
    returns (gone': Option<nat>)
    requires cfg.Valid() && WellFormed(cfg, reqs) && reqs != [] && i < |cfg.limits|
    requires Traced(cfg, start, reqs[..|reqs| - 1], i, c, gone) && KeyClockOkAt(cfg, start, reqs, |reqs| - 1, i, c)
    requires Forgets(Run(cfg, State(map[], start), reqs)[|reqs| - 1].events, Key(cfg, i, c)) == 0
    ensures Traced(cfg, start, reqs, i, c, gone')
    ensures var n, served := |reqs| - 1, Run(cfg, State(map[], start), reqs);
            Hits(cfg, served[n], i, c) ==>
              Conforms(cfg.limits[i].AsQuota(), Times(cfg, served[..n], i, c), served[n].now)
  {
    hide Run, StateAfter, Undropped, Step, Charged, Conforms, Times, Forgets, Key;
    var n, s0, q, key := |reqs| - 1, State(map[], start), cfg.limits[i].AsQuota(), Key(cfg, i, c);
    var served := Run(cfg, s0, reqs);
    LastRequest(cfg, start, reqs, i, c);
    if gone.Some? {
      GonePrefix(cfg, start, reqs, n, gone.value, n, i, c);
    }
    if Hits(cfg, served[n], i, c) {
      FindsUndropped(cfg, start, reqs, n, i, c, gone);
      UndroppedTells(cfg, served[..n], i, c, reqs[n].now);
      LevelDecides(q, Times(cfg, served[..n], i, c), reqs[n].now);
      gone' := None;
    } else if gone.Some? {
      gone' := gone;
      StillGone(cfg, start, reqs, i, c, gone.value);
    } else {
      gone' := NewlyGone(cfg, start, reqs, i, c);
    }
  }

  /** A bucket that is gone stays gone when the last request does not charge it. */
  lemma {:induction false} StillGone(cfg: Config, start: int, reqs: seq<Request>, i: nat, c: string, k: nat)
    requires cfg.Valid() && WellFormed(cfg, reqs) && reqs != [] && i < |cfg.limits|
    requires Traced(cfg, start, reqs[..|reqs| - 1], i, c, Some(k))
             && !Hits(cfg, Run(cfg, State(map[], start), reqs)[|reqs| - 1], i, c)
    requires Forgets(Run(cfg, State(map[], start), reqs)[|reqs| - 1].events, Key(cfg, i, c)) == 0
    ensures Traced(cfg, start, reqs, i, c, Some(k))
  {
    hide Run, StateAfter, Undropped, Key, Hits, Forgets;
    var n := |reqs| - 1;
    GonePrefix(cfg, start, reqs, n, k, n, i, c);
    LastRequest(cfg, start, reqs, i, c);
    assert reqs[..n][..k] == reqs[..k];
  }

  /** When the last request does not charge the bucket, its sweep drops it or leaves it. */
  lemma {:induction false} NewlyGone(cfg: Config, start: int, reqs: seq<Request>, i: nat,
      c: string) returns (gone: Option<nat>)
    requires cfg.Valid() && WellFormed(cfg, reqs) && reqs != [] && i < |cfg.limits|
    requires Traced(cfg, start, reqs[..|reqs| - 1], i, c, None)
             && !Hits(cfg, Run(cfg, State(map[], start), reqs)[|reqs| - 1], i, c)
    requires Forgets(Run(cfg, State(map[], start), reqs)[|reqs| - 1].events, Key(cfg, i, c)) == 0
    ensures Traced(cfg, start, reqs, i, c, gone)
  {
    hide Run, StateAfter, Undropped, Key, Hits, Forgets;
    var n, key := |reqs| - 1, Key(cfg, i, c);
    LastRequest(cfg, start, reqs, i, c);
    UndroppedTells(cfg, Run(cfg, State(map[], start), reqs[..n]), i, c, reqs[n].now);
    OwnSweepIsInvisible(cfg.limits[i].AsQuota(), StateAfter(cfg, State(map[], start), reqs[..n]), key, reqs[n].now);
    gone := if Drops(cfg, start, reqs, n, key) then Some(n) else None;
  }

  /** The trace of a key over a whole run, and the lawfulness of its history. */
  lemma {:induction false} KeyTrace(cfg: Config, start: int, reqs: seq<Request>, i: nat,
      c: string) returns (gone: Option<nat>)
    requires cfg.Valid() && WellFormed(cfg, reqs) && i < |cfg.limits| && KeyClockOk(cfg, start, reqs, i, c)
    requires EvictionsOf(Run(cfg, State(map[], start), reqs), Key(cfg, i, c)) == 0
    ensures Traced(cfg, start, reqs, i, c, gone)
    ensures Lawful(cfg.limits[i].AsQuota(), Times(cfg, Run(cfg, State(map[], start), reqs), i, c))
  {
    if reqs == [] {
      gone := None;
    } else {
      var n, s0 := |reqs| - 1, State(map[], start);
      var served := Run(cfg, s0, reqs);
      hide Run, Traced, KeyClockOkAt, Key, Forgets, Hits, Conforms, Lawful;
      RunPrefix(cfg, s0, reqs, n);
      KeyClockOkPrefix(cfg, start, reqs, n, i, c);
      gone := KeyTrace(cfg, start, reqs[..n], i, c);
      assert KeyClockOkAt(cfg, start, reqs, n, i, c);
      gone := TraceStep(cfg, start, reqs, i, c, gone);
      if Hits(cfg, served[n], i, c) {
        LawfulAppend(cfg.limits[i].AsQuota(), Times(cfg, served[..n], i, c), served[n].now);
      } else {
        assert Times(cfg, served[..n], i, c) + [] == Times(cfg, served[..n], i, c);
      }
    }
  }

  lemma {:induction false} UndroppedStays(cfg: Config, served: seq<Served>, k: nat, i: nat, c: string)
    requires cfg.Valid() && i < |cfg.limits| && k <= |served|
             && forall m | k <= m < |served| :: !Hits(cfg, served[m], i, c)
    ensures Undropped(cfg, served, i, c) == Undropped(cfg, served[..k], i, c)
  {
    if k == |served| {
      assert served[..k] == served;
    } else {
      var n := |served| - 1;
      assert served[..n][..k] == served[..k];
      UndroppedStays(cfg, served[..n], k, i, c);
    }
  }

  /** While a bucket is gone, the dropped bucket is what would be there had it not been dropped. */
  lemma {:induction false} GoneIsUndropped(cfg: Config, start: int, reqs: seq<Request>, k: nat, i: nat, c: string)
    requires cfg.Valid() && WellFormed(cfg, reqs) && i < |cfg.limits| && k < |reqs|
             && Gone(cfg, start, reqs, k, |reqs|, i, c)
    requires KeyClockOk(cfg, start, reqs, i, c) && EvictionsOf(Run(cfg, State(map[], start), reqs), Key(cfg, i, c)) == 0
    ensures Undropped(cfg, Run(cfg, State(map[], start), reqs), i, c)
            == Some(DroppedBucket(cfg, start, reqs, k, Key(cfg, i, c)))
  {
    var s0 := State(map[], start);
    hide Run, StateAfter, Undropped, Key, Hits, KeyClockOk, EvictionsOf;
    RunPrefix(cfg, s0, reqs, k);
    KeyClockOkPrefix(cfg, start, reqs, k, i, c);
    EvictionsPrefix(Run(cfg, s0, reqs), Key(cfg, i, c), k);
    var gone := KeyTrace(cfg, start, reqs[..k], i, c);
    UndroppedStays(cfg, Run(cfg, s0, reqs), k, i, c);
  }

  lemma {:induction false} EvictionsPrefix(served: seq<Served>, key: string, n: nat)
    requires n <= |served|
    ensures EvictionsOf(served[..n], key) <= EvictionsOf(served, key)
  {
    if n == |served| {
      assert served[..n] == served;
    } else {
      var all := |served| - 1;
      assert served[..all][..n] == served[..n];
      EvictionsPrefix(served[..all], key, n);
    }
  }

  // ----- The exact condition, and the law.

  /**
   A sweep with a later reading dropped the request's bucket of limit i, nobody has charged it since, and at the
   request's own reading the dropped bucket is short of a token.
   */
  ghost predicate WentShort(cfg: Config, start: int, reqs: seq<Request>, j: nat, i: nat)
    requires cfg.Valid() && WellFormed(cfg, reqs) && j < |reqs| && i < |cfg.limits|
  {
    exists k: nat | k < j && Gone(cfg, start, reqs, k, j, i, reqs[j].client) ::
      && reqs[j].now < reqs[k].now
      && Available(cfg.limits[i].AsQuota(), Some(DroppedBucket(cfg, start, reqs, k, Key(cfg, i, reqs[j].client))),
        reqs[j].now) < 1.0
  }

  /**
   The earlier requests on the i-th key of the j-th request meet the condition, and the key was not evicted before.
   */
  ghost predicate KeyOrderly(cfg: Config, start: int, reqs: seq<Request>, j: nat, i: nat)
    requires cfg.Valid() && WellFormed(cfg, reqs) && j < |reqs| && i < |cfg.limits|
  {
    && KeyClockOk(cfg, start, reqs[..j], i, reqs[j].client)
    && EvictionsOf(Run(cfg, State(map[], start), reqs)[..j], Key(cfg, i, reqs[j].client)) == 0
  }

  /** The same for the j-th request as well. */
  ghost predicate KeyOrderlyThrough(cfg: Config, start: int, reqs: seq<Request>, j: nat, i: nat)
    requires cfg.Valid() && WellFormed(cfg, reqs) && j < |reqs| && i < |cfg.limits|
  {
    && KeyClockOk(cfg, start, reqs[..j + 1], i, reqs[j].client)
    && EvictionsOf(Run(cfg, State(map[], start), reqs)[..j + 1], Key(cfg, i, reqs[j].client)) == 0
  }

  /** A bucket that went short is one that would be short had it not been dropped. */
  lemma {:induction false} ShortIsUndropped(cfg: Config, start: int, reqs: seq<Request>, j: nat, i: nat)
    requires cfg.Valid() && WellFormed(cfg, reqs) && j < |reqs| && i < |cfg.limits|
             && KeyOrderly(cfg, start, reqs, j, i)
    ensures var kept := Undropped(cfg, Run(cfg, State(map[], start), reqs[..j]), i, reqs[j].client);
            WentShort(cfg, start, reqs, j, i) ==> Available(cfg.limits[i].AsQuota(), kept, reqs[j].now) < 1.0
  {
    hide Run, StateAfter, Undropped, Key, Hits, KeyClockOk, EvictionsOf, Available;
    var c := reqs[j].client;
    if WentShort(cfg, start, reqs, j, i) {
      var k: nat :| k < j && Gone(cfg, start, reqs, k, j, i, c) && reqs[j].now < reqs[k].now
                    && Available(cfg.limits[i].AsQuota(), Some(DroppedBucket(cfg, start, reqs, k, Key(cfg, i, c))),
                      reqs[j].now) < 1.0;
      RunPrefix(cfg, State(map[], start), reqs, j);
      GonePrefix(cfg, start, reqs, j, k, j, i, c);
      GoneIsUndropped(cfg, start, reqs[..j], k, i, c);
      assert reqs[..j][..k] == reqs[..k];
    }
  }

  /** A request finds what it would have found undropped, or nothing because of a sweep with a later reading. */
  lemma {:induction false} FoundOrShort(cfg: Config, start: int, reqs: seq<Request>, j: nat, i: nat)
    requires cfg.Valid() && WellFormed(cfg, reqs) && j < |reqs| && i < |cfg.limits|
             && KeyOrderly(cfg, start, reqs, j, i)
    ensures var q, now := cfg.limits[i].AsQuota(), reqs[j].now;
            var found := Lookup(FoundBy(cfg, start, reqs, j), Key(cfg, i, reqs[j].client));
            var kept := Undropped(cfg, Run(cfg, State(map[], start), reqs[..j]), i, reqs[j].client);
            || Available(q, found, now) == Available(q, kept, now)
            || (found == None && (Available(q, kept, now) < 1.0 ==> WentShort(cfg, start, reqs, j, i)))
  {
    hide Run, StateAfter, Undropped, Key, Gone, KeyClockOk, EvictionsOf, Available;
    var c := reqs[j].client;
    RunPrefix(cfg, State(map[], start), reqs, j);
    var gone := KeyTrace(cfg, start, reqs[..j], i, c);
    if gone.None? || reqs[gone.value].now <= reqs[j].now {
      FindsUndropped(cfg, start, reqs, j, i, c, gone);
    } else {
      var k := gone.value;
      GonePrefix(cfg, start, reqs, j, k, j, i, c);
      assert reqs[..j][..k] == reqs[..k];
      assert Gone(cfg, start, reqs, k, j, i, c);
    }
  }

  /** One key of a request with any reading. */
  lemma {:induction false} KeyDecision(cfg: Config, start: int, reqs: seq<Request>, j: nat, i: nat)
    requires cfg.Valid() && WellFormed(cfg, reqs) && j < |reqs| && i < |cfg.limits|
             && KeyOrderly(cfg, start, reqs, j, i)
    ensures KeyLawful(cfg, start, reqs, j, i)
            <==> && Available(cfg.limits[i].AsQuota(), Lookup(FoundBy(cfg, start, reqs, j),
              Key(cfg, i, reqs[j].client)), reqs[j].now) >= 1.0
                 && !WentShort(cfg, start, reqs, j, i)
  {
    var q, c, now := cfg.limits[i].AsQuota(), reqs[j].client, reqs[j].now;
    var before := Run(cfg, State(map[], start), reqs[..j]);
    assert Available(q, None, now) == q.burst;
    RunPrefix(cfg, State(map[], start), reqs, j);
    hide Run, Undropped, Key, KeyOrderly, WentShort, Conforms, Level, Times, FoundBy, Available;
    UndroppedTells(cfg, before, i, c, now);
    LevelDecides(q, Times(cfg, before, i, c), now);
    FoundOrShort(cfg, start, reqs, j, i);
    ShortIsUndropped(cfg, start, reqs, j, i);
  }

  /**
   The exact condition for a reading of any age.  Let the earlier requests on the keys of the j-th request meet the
   condition on the key, and let none of its keys be evicted.  Then it is decided by the law unless, and only unless,
   every limit finds a token in the map although one of its buckets went short: dropped by a sweep with a later
   reading, not charged since, and short of a token at the request's reading.
   */
  lemma {:induction false} DecisionAfterSweep(cfg: Config, start: int, reqs: seq<Request>, j: nat)
    requires cfg.Valid() && WellFormed(cfg, reqs) && j < |reqs|
    requires forall i | 0 <= i < |cfg.limits| :: KeyOrderly(cfg, start, reqs, j, i)
    requires KeepsOwn(cfg, reqs[j].client, Run(cfg, State(map[], start), reqs)[j].events)
    ensures Run(cfg, State(map[], start), reqs)[j].ok == LawSays(cfg, start, reqs, j)
            <==> !(HasRoom(cfg, FoundBy(cfg, start, reqs, j), reqs[j].client, reqs[j].now)
                   && exists i | 0 <= i < |cfg.limits| :: WentShort(cfg, start, reqs, j, i))
  {
    hide Run, KeyLawful, KeyOrderly, WentShort, FoundBy, KeepsOwn, Available, Key;
    DecidedByFound(cfg, start, reqs, j);
    forall i | 0 <= i < |cfg.limits|
      ensures KeyLawful(cfg, start, reqs, j, i)
              <==> && Available(cfg.limits[i].AsQuota(), Lookup(FoundBy(cfg, start, reqs, j),
                Key(cfg, i, reqs[j].client)), reqs[j].now) >= 1.0
                   && !WentShort(cfg, start, reqs, j, i)
    {
      KeyDecision(cfg, start, reqs, j, i);
    }
  }

  /**
   The admission law, end to end.  In a run with sweeps and evictions and with readings in any order, a request none
   of whose keys was evicted, and all of whose keys meet the condition on the key, is admitted if and only if each
   configured quota conforms to the times of the earlier admissions on its own key.
   */
  lemma {:induction false} AdmissionLaw(cfg: Config, start: int, reqs: seq<Request>, j: nat)
    requires cfg.Valid() && WellFormed(cfg, reqs) && j < |reqs|
    requires forall i | 0 <= i < |cfg.limits| :: KeyOrderlyThrough(cfg, start, reqs, j, i)
    ensures Run(cfg, State(map[], start), reqs)[j].ok <==> LawSays(cfg, start, reqs, j)
  {
    hide KeyOrderly, KeyOrderlyThrough, WentShort, Run, Key, Forgets, LawSays, HasRoom, FoundBy;
    forall i | 0 <= i < |cfg.limits|
      ensures KeyOrderly(cfg, start, reqs, j, i) && !WentShort(cfg, start, reqs, j, i)
      ensures Forgets(Run(cfg, State(map[], start), reqs)[j].events, Key(cfg, i, reqs[j].client)) == 0
    {
      OrderlyKey(cfg, start, reqs, j, i);
    }
    DecisionAfterSweep(cfg, start, reqs, j);
  }

  lemma {:induction false} OrderlyKey(cfg: Config, start: int, reqs: seq<Request>, j: nat, i: nat)
    requires cfg.Valid() && WellFormed(cfg, reqs) && j < |reqs| && i < |cfg.limits|
    requires KeyOrderlyThrough(cfg, start, reqs, j, i)
    ensures KeyOrderly(cfg, start, reqs, j, i) && !WentShort(cfg, start, reqs, j, i)
    ensures Forgets(Run(cfg, State(map[], start), reqs)[j].events, Key(cfg, i, reqs[j].client)) == 0
  {
    var served, c := Run(cfg, State(map[], start), reqs), reqs[j].client;
    hide Run, Gone, Key, Forgets, Available;
    KeyClockOkPrefix(cfg, start, reqs[..j + 1], j, i, c);
    assert reqs[..j + 1][..j] == reqs[..j] && served[..j + 1][..j] == served[..j] && served[..j + 1][j] == served[j];
    assert KeyClockOkAt(cfg, start, reqs[..j + 1], j, i, c);
    forall k: nat | k < j ensures Gone(cfg, start, reqs, k, j, i, c) ==> reqs[k].now <= reqs[j].now {
      GonePrefix(cfg, start, reqs, j + 1, k, j, i, c);
    }
  }

  /** A sweep that dropped the bucket, not charged since, has a reading that is not later than t. */
  ghost predicate NotGoneAt(cfg: Config, start: int, reqs: seq<Request>, i: nat, c: string, t: int)
    requires cfg.Valid() && WellFormed(cfg, reqs) && i < |cfg.limits|
  {
    forall k: nat | k < |reqs| && Gone(cfg, start, reqs, k, |reqs|, i, c) :: reqs[k].now <= t
  }

  /**
   What the map holds, end to end: the tokens a request would find in any bucket that was not evicted are the least
   slack that the admissions on its key leave; at every time if the bucket is stored, and else at every time not before
   the sweep that dropped it.
   */
  lemma {:induction false} TokensAreLeastSlack(cfg: Config, start: int, reqs: seq<Request>, i: nat, c: string, t: int)
    requires cfg.Valid() && WellFormed(cfg, reqs) && i < |cfg.limits| && KeyClockOk(cfg, start, reqs, i, c)
    requires EvictionsOf(Run(cfg, State(map[], start), reqs), Key(cfg, i, c)) == 0
    requires NotGoneAt(cfg, start, reqs, i, c, t)
    ensures var q, s := cfg.limits[i].AsQuota(), State(map[], start);
            Available(q, Lookup(StateAfter(cfg, s, reqs).store, Key(cfg, i, c)), t)
              == Level(q, Times(cfg, Run(cfg, s, reqs), i, c), t)
  {
    hide Run, StateAfter, Undropped, Key, Gone, KeyClockOk, EvictionsOf, Times, Level;
    var gone := KeyTrace(cfg, start, reqs, i, c);
    var q, kept := cfg.limits[i].AsQuota(), Undropped(cfg, Run(cfg, State(map[], start), reqs), i, c);
    UndroppedTells(cfg, Run(cfg, State(map[], start), reqs), i, c, t);
    if gone.Some? {
      SweptIsFull(q, kept.value, reqs[gone.value].now, t);
    }
  }

  /** A stored bucket is never gone, so it tells the least slack at every time, past or future. */
  lemma {:induction false} StoredTellsAlways(cfg: Config, start: int, reqs: seq<Request>, i: nat, c: string, t: int)
    requires cfg.Valid() && WellFormed(cfg, reqs) && i < |cfg.limits| && KeyClockOk(cfg, start, reqs, i, c)
    requires EvictionsOf(Run(cfg, State(map[], start), reqs), Key(cfg, i, c)) == 0
    requires Key(cfg, i, c) in StateAfter(cfg, State(map[], start), reqs).store
    ensures var q, s := cfg.limits[i].AsQuota(), State(map[], start);
            Available(q, Lookup(StateAfter(cfg, s, reqs).store, Key(cfg, i, c)), t)
              == Level(q, Times(cfg, Run(cfg, s, reqs), i, c), t)
  {
    hide Run, StateAfter, Undropped, Key, Gone, KeyClockOk, EvictionsOf, Times, Level, Available;
    var gone := KeyTrace(cfg, start, reqs, i, c);
    UndroppedTells(cfg, Run(cfg, State(map[], start), reqs), i, c, t);
  }

  /**
   As long as a key is not evicted no window holds more than one burst of it and what is earned, for readings in any
   order.
   */
  lemma {:induction false} WindowBoundAnyOrder(cfg: Config, start: int, reqs: seq<Request>, i: nat, c: string,
      lo: int, hi: int)
    requires cfg.Valid() && WellFormed(cfg, reqs) && i < |cfg.limits| && lo <= hi && KeyClockOk(cfg, start, reqs, i, c)
    requires EvictionsOf(Run(cfg, State(map[], start), reqs), Key(cfg, i, c)) == 0
    ensures var q := cfg.limits[i].AsQuota();
            Within(Times(cfg, Run(cfg, State(map[], start), reqs), i, c), lo, hi) as real <= q.burst + Gain(q, hi - lo)
  {
    hide Run, KeyClockOk, Within, Gain;
    var gone := KeyTrace(cfg, start, reqs, i, c);
    WindowBound(cfg.limits[i].AsQuota(), Times(cfg, Run(cfg, State(map[], start), reqs), i, c), lo, hi);
  }

  // ----- Simple conditions that imply the one on the key.

  /** A key that no sweep drops needs no condition at all. */
  lemma {:induction false} NeverDroppedIsOk(cfg: Config, start: int, reqs: seq<Request>, i: nat, c: string)
    requires cfg.Valid() && WellFormed(cfg, reqs) && i < |cfg.limits|
    requires forall k: nat | k < |reqs| :: !Drops(cfg, start, reqs, k, Key(cfg, i, c))
    ensures KeyClockOk(cfg, start, reqs, i, c)
  {
    hide Drops, Key, Run;
  }

  /** While readings are not older than the last sweep, the time of the last sweep only advances. */
  lemma {:induction false} LastSweepAdvances(cfg: Config, start: int, reqs: seq<Request>, k: nat, j: nat)
    requires cfg.Valid() && WellFormed(cfg, reqs) && k <= j <= |reqs| && ClockOk(cfg, State(map[], start), reqs)
    ensures StateAfter(cfg, State(map[], start), reqs[..k]).lastSweep
            <= StateAfter(cfg, State(map[], start), reqs[..j]).lastSweep
  {
    if k < j {
      LastSweepAdvances(cfg, start, reqs, k, j - 1);
      assert ClockOkAt(cfg, State(map[], start), reqs, j - 1);
      assert reqs[..j][..j - 1] == reqs[..j - 1];
      hide ClockOk, ClockOkAt, Examine, WriteBack;
    }
  }

  /** Readings that are never older than any sweep meet the condition on every key. */
  lemma {:induction false} ClockOkIsKeyClockOk(cfg: Config, start: int, reqs: seq<Request>, i: nat, c: string)
    requires cfg.Valid() && WellFormed(cfg, reqs) && i < |cfg.limits| && ClockOk(cfg, State(map[], start), reqs)
    ensures KeyClockOk(cfg, start, reqs, i, c)
  {
    hide ClockOk, Gone, Key;
    forall j: nat | j < |reqs|
      ensures KeyClockOkAt(cfg, start, reqs, j, i, c)
    {
      forall k: nat | k < j && Gone(cfg, start, reqs, k, j, i, c) ensures reqs[k].now <= reqs[j].now {
        DroppedBefore(cfg, start, reqs, k, j, i, c);
      }
    }
  }

  lemma {:induction false} DroppedBefore(cfg: Config, start: int, reqs: seq<Request>, k: nat, j: nat, i: nat, c: string)
    requires cfg.Valid() && WellFormed(cfg, reqs) && i < |cfg.limits| && ClockOk(cfg, State(map[], start), reqs)
    requires k < j < |reqs| && Gone(cfg, start, reqs, k, j, i, c)
    ensures reqs[k].now <= reqs[j].now
  {
    var s0 := State(map[], start);
    assert ClockOkAt(cfg, s0, reqs, j);
    LastSweepAdvances(cfg, start, reqs, k + 1, j);
    assert reqs[..k + 1][..k] == reqs[..k];
    hide ClockOk, Run, Key;
    assert StateAfter(cfg, s0, reqs[..k + 1]).lastSweep == Swept(StateAfter(cfg, s0, reqs[..k]), reqs[k].now).lastSweep;
  }
}
