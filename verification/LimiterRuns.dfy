/**
 Whole runs of the local limiter: the admission law, joint charging and window bounds.
 */
module LimiterRuns {
  import opened Prelude
  import opened Admission
  import opened Limiter
  import opened LimiterLaw

  ghost predicate WellFormed(cfg: Config, reqs: seq<Request>) {
    forall j | 0 <= j < |reqs| :: |reqs[j].victims| == |cfg.limits|
  }

  function StateAfter(cfg: Config, s: State, reqs: seq<Request>): State
    requires cfg.Valid() && WellFormed(cfg, reqs)
  {
    if reqs == [] then s else Step(cfg, StateAfter(cfg, s, reqs[..|reqs| - 1]), reqs[|reqs| - 1]).0
  }

  /** One more request. */
  lemma {:induction false} RunAppend(cfg: Config, s: State, reqs: seq<Request>, r: Request)
    requires cfg.Valid() && WellFormed(cfg, reqs) && |r.victims| == |cfg.limits|
    ensures WellFormed(cfg, reqs + [r])
    ensures var (s', served) := Step(cfg, StateAfter(cfg, s, reqs), r);
            StateAfter(cfg, s, reqs + [r]) == s' && Run(cfg, s, reqs + [r]) == Run(cfg, s, reqs) + [served]
  {
    hide Step;
    assert (reqs + [r])[..|reqs|] == reqs;
  }

  /** The j-th outcome is that of the step from the state after the j requests before it. */
  lemma {:induction false} RunAt(cfg: Config, s: State, reqs: seq<Request>, j: nat)
    requires cfg.Valid() && WellFormed(cfg, reqs) && j < |reqs|
    ensures Run(cfg, s, reqs)[j] == Step(cfg, StateAfter(cfg, s, reqs[..j]), reqs[j]).1
  {
    hide Step, StateAfter;
    var n := |reqs| - 1;
    if j < n {
      RunAt(cfg, s, reqs[..n], j);
      assert reqs[..n][..j] == reqs[..j];
    }
  }

  /** The requests of a run in the order in which they entered the critical section, with their outcomes. */
  function Run(cfg: Config, s: State, reqs: seq<Request>): (served: seq<Served>)
    requires cfg.Valid() && WellFormed(cfg, reqs)
    ensures |served| == |reqs|
    ensures forall j | 0 <= j < |served| :: served[j].now == reqs[j].now && served[j].client == reqs[j].client
    ensures forall j | 0 <= j < |served| :: |served[j].events| == |cfg.limits|
  {
    if reqs == [] then []
    else
      var n := |reqs| - 1;
      Run(cfg, s, reqs[..n]) + [Step(cfg, StateAfter(cfg, s, reqs[..n]), reqs[n]).1]
  }

  lemma {:induction false} RunPrefix(cfg: Config, s: State, reqs: seq<Request>, j: nat)
    requires cfg.Valid() && WellFormed(cfg, reqs) && j <= |reqs|
    ensures Run(cfg, s, reqs[..j]) == Run(cfg, s, reqs)[..j]
  {
    hide Run, StateAfter, Step;
    forall k: nat | k < j ensures Run(cfg, s, reqs[..j])[k] == Run(cfg, s, reqs)[k] {
      RunAt(cfg, s, reqs[..j], k);
      RunAt(cfg, s, reqs, k);
      assert reqs[..j][..k] == reqs[..k];
    }
  }

  /** The clock reading of the j-th request is not older than the last sweep executed before it entered. */
  ghost predicate ClockOkAt(cfg: Config, s: State, reqs: seq<Request>, j: nat)
    requires cfg.Valid() && WellFormed(cfg, reqs) && j < |reqs|
  {
    StateAfter(cfg, s, reqs[..j]).lastSweep <= reqs[j].now
  }

  ghost predicate ClockOk(cfg: Config, s: State, reqs: seq<Request>)
    requires cfg.Valid() && WellFormed(cfg, reqs)
  {
    forall j: nat | j < |reqs| :: ClockOkAt(cfg, s, reqs, j)
  }

  lemma {:induction false} ClockOkSplit(cfg: Config, s: State, before: seq<Request>, more: seq<Request>)
    requires cfg.Valid() && WellFormed(cfg, before + more) && ClockOk(cfg, s, before + more)
    ensures WellFormed(cfg, before) && WellFormed(cfg, more)
    ensures ClockOk(cfg, s, before) && ClockOk(cfg, StateAfter(cfg, s, before), more)
  {
    var all := before + more;
    forall j | 0 <= j < |more| ensures |more[j].victims| == |cfg.limits| {
      assert all[|before| + j] == more[j];
    }
    forall j | 0 <= j < |before| ensures |before[j].victims| == |cfg.limits| {
      assert all[j] == before[j];
    }
    forall j: nat | j < |before| ensures ClockOkAt(cfg, s, before, j) {
      assert ClockOkAt(cfg, s, all, j);
      assert all[..j] == before[..j];
    }
    forall j: nat | j < |more| ensures ClockOkAt(cfg, StateAfter(cfg, s, before), more, j) {
      assert ClockOkAt(cfg, s, all, |before| + j);
      assert all[..|before| + j] == before + more[..j];
      StateAfterConcat(cfg, s, before, more[..j]);
    }
  }

  lemma {:induction false} StateAfterConcat(cfg: Config, s: State, before: seq<Request>, more: seq<Request>)
    requires cfg.Valid() && WellFormed(cfg, before) && WellFormed(cfg, more)
    ensures StateAfter(cfg, s, before + more) == StateAfter(cfg, StateAfter(cfg, s, before), more)
  {
    if more == [] {
      assert before + more == before;
    } else {
      var n := |more| - 1;
      assert (before + more)[..|before| + n] == before + more[..n];
      StateAfterConcat(cfg, s, before, more[..n]);
    }
  }

  ghost predicate Monotone(start: int, reqs: seq<Request>) {
    && (reqs != [] ==> start <= reqs[0].now)
    && forall j | 0 < j < |reqs| :: reqs[j - 1].now <= reqs[j].now
  }

  function LedgerAfter(cfg: Config, ledger: Ledger, served: seq<Served>): Ledger
    requires cfg.Valid() && forall j | 0 <= j < |served| :: |served[j].events| == |cfg.limits|
  {
    if served == [] then ledger
    else
      var n := |served| - 1;
      LedgerStep(cfg, LedgerAfter(cfg, ledger, served[..n]), served[n].client, served[n].now, served[n].events).0
  }

  ghost predicate ExplainedAt(cfg: Config, ledger: Ledger, served: seq<Served>, j: nat)
    requires cfg.Valid() && j < |served| && forall k | 0 <= k < |served| :: |served[k].events| == |cfg.limits|
  {
    var s := served[j];
    s.ok == LedgerStep(cfg, LedgerAfter(cfg, ledger, served[..j]), s.client, s.now, s.events).1
  }

  /** Every outcome is the ledger's verdict on the requests before it. */
  ghost predicate Explained(cfg: Config, ledger: Ledger, served: seq<Served>)
    requires cfg.Valid()
  {
    && (forall j | 0 <= j < |served| :: |served[j].events| == |cfg.limits|)
    && forall j: nat | j < |served| :: ExplainedAt(cfg, ledger, served, j)
  }

  lemma {:induction false} ExplainedPrefix(cfg: Config, ledger: Ledger, served: seq<Served>, n: nat)
    requires cfg.Valid() && Explained(cfg, ledger, served) && n <= |served|
    ensures Explained(cfg, ledger, served[..n])
  {
    forall j: nat | j < n
      ensures ExplainedAt(cfg, ledger, served[..n], j)
    {
      assert ExplainedAt(cfg, ledger, served, j);
      assert served[..n][..j] == served[..j];
    }
  }

  lemma {:induction false} ExplainedAppend(cfg: Config, ledger: Ledger, served: seq<Served>, s: Served)
    requires cfg.Valid() && Explained(cfg, ledger, served) && |s.events| == |cfg.limits|
    requires s.ok == LedgerStep(cfg, LedgerAfter(cfg, ledger, served), s.client, s.now, s.events).1
    ensures Explained(cfg, ledger, served + [s])
    ensures LedgerAfter(cfg, ledger, served + [s]) == LedgerStep(cfg, LedgerAfter(cfg, ledger, served), s.client,
            s.now, s.events).0
  {
    var all := served + [s];
    assert all[..|served|] == served;
    forall j: nat | j < |all|
      ensures ExplainedAt(cfg, ledger, all, j)
    {
      if j < |served| {
        assert ExplainedAt(cfg, ledger, served, j);
        assert all[..j] == served[..j];
      }
    }
  }

  // ----- Refinement over whole runs.

  /**
   The limiter with sweeps and evictions decides exactly like the ledger, on every run whose clock is never behind a
   sweep.
   */
  lemma {:induction false} LimiterRefinesLedger(cfg: Config, s: State, ledger: Ledger, reqs: seq<Request>)
    requires cfg.Valid() && WellFormed(cfg, reqs) && ClockOk(cfg, s, reqs)
    requires Refines(cfg, s.store, ledger, s.lastSweep)
    ensures Explained(cfg, ledger, Run(cfg, s, reqs))
    ensures var last := StateAfter(cfg, s, reqs);
            Refines(cfg, last.store, LedgerAfter(cfg, ledger, Run(cfg, s, reqs)), last.lastSweep)
  {
    if reqs != [] {
      var n := |reqs| - 1;
      var r := reqs[n];
      assert reqs == reqs[..n] + [r];
      ClockOkSplit(cfg, s, reqs[..n], [r]);
      assert ClockOkAt(cfg, s, reqs, n);
      LimiterRefinesLedger(cfg, s, ledger, reqs[..n]);
      var mid, before := StateAfter(cfg, s, reqs[..n]), Run(cfg, s, reqs[..n]);
      var (last, served) := Step(cfg, mid, r);
      StepRefines(cfg, mid, LedgerAfter(cfg, ledger, before), r);
      ExplainedAppend(cfg, ledger, before, served);
      assert Run(cfg, s, reqs) == before + [served] && StateAfter(cfg, s, reqs) == last;
    }
  }

  lemma {:induction false} SweepTimeBehindClock(cfg: Config, s: State, reqs: seq<Request>)
    requires cfg.Valid() && WellFormed(cfg, reqs) && Monotone(s.lastSweep, reqs)
    ensures StateAfter(cfg, s, reqs).lastSweep <= if reqs == [] then s.lastSweep else reqs[|reqs| - 1].now
  {
    if reqs != [] {
      SweepTimeBehindClock(cfg, s, reqs[..|reqs| - 1]);
    }
  }

  /** A clock that reaches the lock in order is never behind a sweep. */
  lemma {:induction false} MonotoneIsClockOk(cfg: Config, s: State, reqs: seq<Request>)
    requires cfg.Valid() && WellFormed(cfg, reqs) && Monotone(s.lastSweep, reqs)
    ensures ClockOk(cfg, s, reqs)
  {
    forall j: nat | j < |reqs| ensures ClockOkAt(cfg, s, reqs, j) {
      SweepTimeBehindClock(cfg, s, reqs[..j]);
    }
  }

  lemma {:induction false} ExamineSingle(cfg: Config, client: string, now: int, store: Store, victims: seq<string>)
    requires cfg.Valid() && |cfg.limits| == 1 == |victims| && |store| < MAX_BUCKETS
    ensures var q := cfg.limits[0].AsQuota();
            var room := Available(q, Lookup(store, Key(cfg, 0, client)), now);
            Examine(cfg, client, now, store, victims)
            == Attempt(store, if room < 1.0 then [] else [Charged(q, room, now)], [None], room >= 1.0)
  {
    assert victims[..0] == [];
    assert Examine(cfg, client, now, store, victims[..0]) == Attempt(store, [], [], true);
  }

  /** One request against a limiter with a single limit and a map below capacity. */
  lemma {:induction false} SingleLimitStep(cfg: Config, s: State, r: Request)
    requires cfg.Valid() && |cfg.limits| == 1 == |r.victims| && |Swept(s, r.now).store| < MAX_BUCKETS
    ensures var store, key, q := Swept(s, r.now).store, Key(cfg, 0, r.client), cfg.limits[0].AsQuota();
            var room := Available(q, Lookup(store, key), r.now);
            Step(cfg, s, r) == (
              State(if room < 1.0 then store else store[key := Charged(q, room, r.now)]["" := ZERO_BUCKET],
                Swept(s, r.now).lastSweep),
              Served(r.client, r.now, room >= 1.0, [None]))
  {
    hide Swept, Available, Charged, Key, Examine;
    var store := Swept(s, r.now).store;
    ExamineSingle(cfg, r.client, r.now, store, r.victims);
    var a := Examine(cfg, r.client, r.now, store, r.victims);
    if a.ok {
      WriteBackOne(store, PaddedKeys(cfg, r.client), PaddedBuckets(a.charged));
    }
  }

  lemma {:induction false} WriteBackOne(store: Store, keys: seq<string>, buckets: seq<Bucket>)
    requires |keys| == |buckets| == 3 && keys[1] == keys[2] == "" && buckets[1] == buckets[2]
    ensures WriteBack(store, keys, buckets) == store[keys[0] := buckets[0]]["" := buckets[1]]
  {
    var once := store[keys[0] := buckets[0]];
    assert keys[..2][..1] == keys[..1] && buckets[..2][..1] == buckets[..1];
    assert WriteBack(store, keys[..1], buckets[..1]) == once;
    assert WriteBack(store, keys[..2], buckets[..2]) == once["" := buckets[1]];
  }

  // ----- One key's view of one request.

  function Forgets(events: seq<Option<string>>, key: string): nat {
    if events == [] then 0
    else Forgets(events[..|events| - 1], key) + (if events[|events| - 1] == Some(key) then 1 else 0)
  }

  lemma {:induction false} JudgeAt(cfg: Config, client: string, now: int, ledger: Ledger, events: seq<Option<string>>,
      key: string)
    requires cfg.Valid() && |events| <= |cfg.limits|
    ensures var v := Judge(cfg, client, now, ledger, events);
            && (Past(v.ledger, key) == Past(ledger, key) || (Forgets(events, key) > 0 && Past(v.ledger, key) == []))
            && (v.ok ==> forall i | 0 <= i < |events| && Key(cfg, i, client) == key ::
                  exists past :: v.pasts[i] == past + [now] && Conforms(cfg.limits[i].AsQuota(), past, now)
                                 && (past == Past(ledger, key) || (Forgets(events, key) > 0 && past == [])))
  {
    if events != [] {
      JudgeAt(cfg, client, now, ledger, events[..|events| - 1], key);
    }
  }

  predicate Hits(cfg: Config, s: Served, i: nat, c: string)
    requires i < |cfg.limits|
  {
    s.ok && Key(cfg, i, s.client) == Key(cfg, i, c)
  }

  /**
   An admission adds its time to the history of each of its keys, everything else leaves histories alone, and only
   evictions forget.
   */
  lemma {:induction false} KeyEffect(cfg: Config, ledger: Ledger, s: Served, i: nat, c: string)
    requires cfg.Valid() && i < |cfg.limits| == |s.events|
    requires s.ok == LedgerStep(cfg, ledger, s.client, s.now, s.events).1
    ensures var key := Key(cfg, i, c);
            var before := Past(ledger, key);
            var after := Past(LedgerStep(cfg, ledger, s.client, s.now, s.events).0, key);
            if Hits(cfg, s, i, c) then
              || (after == before + [s.now] && Conforms(cfg.limits[i].AsQuota(), before, s.now))
              || (Forgets(s.events, key) > 0 && after == [s.now])
            else
              after == before || (Forgets(s.events, key) > 0 && after == [])
  {
    var key := Key(cfg, i, c);
    var v := Judge(cfg, s.client, s.now, ledger, s.events);
    JudgeAt(cfg, s.client, s.now, ledger, s.events, key);
    if v.ok {
      WriteBackAt(cfg, s.client, map[], v.ledger, seq(|cfg.limits|, _ => ZERO_BUCKET), v.pasts, i, c);
    }
  }

  // ----- The exact law, for all configured buckets at once.

  function EvictionsOf(served: seq<Served>, key: string): nat {
    if served == [] then 0
    else EvictionsOf(served[..|served| - 1], key) + Forgets(served[|served| - 1].events, key)
  }

  predicate Quiet(events: seq<Option<string>>) {
    forall i | 0 <= i < |events| :: events[i].None?
  }

  predicate NoEviction(served: seq<Served>) {
    forall j | 0 <= j < |served| :: Quiet(served[j].events)
  }

  lemma {:induction false} NothingForgotten(events: seq<Option<string>>, key: string)
    requires Quiet(events)
    ensures Forgets(events, key) == 0
  {
    if events != [] {
      NothingForgotten(events[..|events| - 1], key);
    }
  }

  /** The clock readings of the admitted requests that were charged to the i-th limit's bucket for client c. */
  function Times(cfg: Config, served: seq<Served>, i: nat, c: string): seq<int>
    requires i < |cfg.limits|
  {
    if served == [] then []
    else
      var n := |served| - 1;
      Times(cfg, served[..n], i, c) + if Hits(cfg, served[n], i, c) then [served[n].now] else []
  }

  /** As long as a key is not evicted, whatever else is, its history is exactly what was charged to it, and lawful. */
  lemma {:induction false} LedgerRecordsTimes(cfg: Config, served: seq<Served>, i: nat, c: string)
    requires cfg.Valid() && i < |cfg.limits| && Explained(cfg, map[], served)
             && EvictionsOf(served, Key(cfg, i, c)) == 0
    ensures Past(LedgerAfter(cfg, map[], served), Key(cfg, i, c)) == Times(cfg, served, i, c)
    ensures Lawful(cfg.limits[i].AsQuota(), Times(cfg, served, i, c))
  {
    if served != [] {
      var n := |served| - 1;
      ExplainedPrefix(cfg, map[], served, n);
      LedgerRecordsTimes(cfg, served[..n], i, c);
      assert ExplainedAt(cfg, map[], served, n);
      KeyEffect(cfg, LedgerAfter(cfg, map[], served[..n]), served[n], i, c);
      if Hits(cfg, served[n], i, c) {
        LawfulAppend(cfg.limits[i].AsQuota(), Times(cfg, served[..n], i, c), served[n].now);
      }
    }
  }

  /** No key of the request is evicted while the request is examined; other keys may be. */
  ghost predicate KeepsOwn(cfg: Config, client: string, events: seq<Option<string>>) {
    forall i | 0 <= i < |cfg.limits| :: Forgets(events, Key(cfg, i, client)) == 0
  }

  /** Joint charging is a product of independent decisions. */
  lemma {:induction false} JudgeIsProduct(cfg: Config, client: string, now: int, ledger: Ledger,
      events: seq<Option<string>>)
    requires cfg.Valid() && |events| <= |cfg.limits| && KeepsOwn(cfg, client, events)
    ensures Judge(cfg, client, now, ledger, events).ok
            <==> forall i | 0 <= i < |events| :: Conforms(cfg.limits[i].AsQuota(), Past(ledger, Key(cfg, i, client)),
              now)
  {
    if events != [] {
      var n := |events| - 1;
      forall i | 0 <= i < |cfg.limits| ensures Forgets(events[..n], Key(cfg, i, client)) == 0 {
        assert Forgets(events, Key(cfg, i, client)) == 0;
      }
      JudgeIsProduct(cfg, client, now, ledger, events[..n]);
      JudgeAt(cfg, client, now, ledger, events[..n], Key(cfg, n, client));
    }
  }

  // ----- Evictions.

  lemma {:induction false} NoEvictionBelowCapacity(cfg: Config, client: string, now: int, store: Store,
      victims: seq<string>)
    requires cfg.Valid() && |victims| <= |cfg.limits| && |store| < MAX_BUCKETS
    ensures Examine(cfg, client, now, store, victims).store == store
    ensures Quiet(Examine(cfg, client, now, store, victims).events)
  {
    if victims != [] {
      NoEvictionBelowCapacity(cfg, client, now, store, victims[..|victims| - 1]);
    }
  }

  /** A request adds at most three entries to the map. */
  lemma {:induction false} StepAddsThree(cfg: Config, s: State, r: Request)
    requires cfg.Valid() && |r.victims| == |cfg.limits| && |s.store| < MAX_BUCKETS
    ensures var (s', served) := Step(cfg, s, r);
            Quiet(served.events) && |s'.store| <= |s.store| + 3
  {
    var swept := Swept(s, r.now);
    SubmapIsSmaller(swept.store, s.store);
    NoEvictionBelowCapacity(cfg, r.client, r.now, swept.store, r.victims);
    var a := Examine(cfg, r.client, r.now, swept.store, r.victims);
    if a.ok {
      WriteBackAdds(a.store, PaddedKeys(cfg, r.client), PaddedBuckets(a.charged));
    }
  }

  lemma {:induction false} WriteBackAdds<V>(m: map<string, V>, keys: seq<string>, values: seq<V>)
    requires |keys| == |values|
    ensures |WriteBack(m, keys, values)| <= |m| + |keys|
  {
    if keys != [] {
      var n := |keys| - 1;
      WriteBackAdds(m, keys[..n], values[..n]);
      var before := WriteBack(m, keys[..n], values[..n]);
      assert before[keys[n] := values[n]].Keys == before.Keys + {keys[n]};
    }
  }

  /** A run that is too short to fill the map evicts nothing. */
  lemma {:induction false} SmallRunsDoNotEvict(cfg: Config, s: State, reqs: seq<Request>)
    requires cfg.Valid() && WellFormed(cfg, reqs) && |s.store| + 3 * |reqs| < MAX_BUCKETS
    ensures NoEviction(Run(cfg, s, reqs)) && |StateAfter(cfg, s, reqs).store| <= |s.store| + 3 * |reqs|
    ensures forall key :: EvictionsOf(Run(cfg, s, reqs), key) == 0
  {
    if reqs != [] {
      var n := |reqs| - 1;
      SmallRunsDoNotEvict(cfg, s, reqs[..n]);
      StepAddsThree(cfg, StateAfter(cfg, s, reqs[..n]), reqs[n]);
      var served := Run(cfg, s, reqs);
      assert served[..n] == Run(cfg, s, reqs[..n]);
      forall key ensures EvictionsOf(served, key) == 0 {
        NothingForgotten(served[n].events, key);
      }
    }
  }

  lemma {:induction false} SubmapIsSmaller(small: Store, large: Store)
    requires small.Keys <= large.Keys
    ensures |small| <= |large|
  {
    SubsetIsSmaller(small.Keys, large.Keys);
  }

  lemma {:induction false} SubsetIsSmaller<T>(small: set<T>, large: set<T>)
    requires small <= large
    ensures |small| <= |large|
  {
    assert large == small + (large - small);
  }

  function Charges(cfg: Config, served: seq<Served>, i: nat, c: string): nat
    requires i < |cfg.limits|
  {
    if served == [] then 0
    else Charges(cfg, served[..|served| - 1], i, c) + if Hits(cfg, served[|served| - 1], i, c) then 1 else 0
  }

  function Bursts(q: Quota, n: nat): real {
    n as real * q.burst
  }

  /**
   The counting behind the window bound.  The last `recent` admissions in `past`, all since `since`, are not yet
   paid for by an eviction; all earlier ones are covered by one burst for each eviction and by what was earned
   between `lo` and `since`.
   */
  ghost predicate Covered(q: Quota, charges: nat, evictions: nat, past: seq<int>, recent: nat, lo: int, since: int,
      now: int) {
    && lo <= since <= now
    && recent <= |past| && (recent > 0 ==> since <= past[|past| - recent])
    && recent as real <= q.burst + Gain(q, now - since)
    && charges as real <= Bursts(q, evictions) + Gain(q, since - lo) + recent as real
  }

  lemma {:induction false} BurstsGrow(q: Quota, e: nat, f: nat)
    requires q.Valid()
    ensures Bursts(q, e + f) >= Bursts(q, e) + if f > 0 then q.burst else 0.0
  {
    var extra := f as real;
    assert (e + f) as real == e as real + extra;
    assert (e as real + extra) * q.burst == e as real * q.burst + extra * q.burst;
    if f > 0 {
      assert (extra - 1.0) * q.burst >= 0.0;
    }
  }

  lemma {:induction false} CoveredLater(q: Quota, charges: nat, e: nat, f: nat, past: seq<int>, recent: nat, lo: int,
      since: int, now: int, t: int)
    requires q.Valid() && Covered(q, charges, e, past, recent, lo, since, now) && now <= t
    ensures Covered(q, charges, e + f, past, recent, lo, since, t)
  {
    hide Gain, Bursts;
    GainMonotone(q, now - since, t - since);
    BurstsGrow(q, e, f);
  }

  lemma {:induction false} CoveredCharge(q: Quota, charges: nat, e: nat, past: seq<int>, recent: nat, lo: int,
      since: int, t: int)
    requires q.Valid() && Covered(q, charges, e, past, recent, lo, since, t) && Conforms(q, past, t)
    ensures Covered(q, charges + 1, e, past + [t], recent + 1, lo, since, t)
  {
    assert Gain(q, 0) == 0.0;
    hide Gain, Bursts;
    GainMonotone(q, 0, t - since);
    if recent > 0 {
      GainMonotone(q, t - past[|past| - recent], t - since);
    }
  }

  lemma {:induction false} CoveredAfresh(q: Quota, charges: nat, e: nat, f: nat, past: seq<int>, recent: nat, lo: int,
      since: int, t: int, hit: bool)
    requires q.Valid() && Covered(q, charges, e, past, recent, lo, since, t) && f > 0
    ensures Covered(q, charges + if hit then 1 else 0, e + f, if hit then [t] else [], if hit then 1 else 0, lo, t, t)
  {
    assert Gain(q, t - t) == 0.0;
    hide Gain, Bursts;
    GainAdds(q, since - lo, t - since);
    assert since - lo + (t - since) == t - lo;
    BurstsGrow(q, e, f);
  }

  /** How one request, with f evictions of the key, moves the account; `after` is the key's new history. */
  lemma {:induction false} CoveredStep(q: Quota, charges: nat, e: nat, f: nat, past: seq<int>, after: seq<int>,
      hit: bool,
                    recent: nat, lo: int, since: int, now: int, t: int)
    returns (recent': nat, since': int)
    requires q.Valid() && Covered(q, charges, e, past, recent, lo, since, now) && now <= t
    requires if hit then (after == past + [t] && Conforms(q, past, t)) || (f > 0 && after == [t])
             else after == past || (f > 0 && after == [])
    ensures Covered(q, charges + if hit then 1 else 0, e + f, after, recent', lo, since', t)
  {
    if hit && after == past + [t] && Conforms(q, past, t) {
      CoveredLater(q, charges, e, f, past, recent, lo, since, now, t);
      CoveredCharge(q, charges, e + f, past, recent, lo, since, t);
      recent', since' := recent + 1, since;
    } else if !hit && after == past {
      CoveredLater(q, charges, e, f, past, recent, lo, since, now, t);
      recent', since' := recent, since;
    } else {
      CoveredLater(q, charges, e, 0, past, recent, lo, since, now, t);
      CoveredAfresh(q, charges, e, f, past, recent, lo, since, t, hit);
      recent', since' := if hit then 1 else 0, t;
    }
  }

  /** So many full bursts and what is earned in dt ticks. */
  function Allowance(q: Quota, bursts: nat, dt: int): real {
    Bursts(q, bursts) + Gain(q, dt)
  }

  lemma {:induction false} CoveredBound(q: Quota, charges: nat, e: nat, past: seq<int>, recent: nat, lo: int,
      since: int, now: int, hi: int)
    requires q.Valid() && Covered(q, charges, e, past, recent, lo, since, now) && now <= hi
    ensures charges as real <= Allowance(q, e + 1, hi - lo)
  {
    hide Gain, Bursts;
    GainAdds(q, since - lo, now - since);
    assert since - lo + (now - since) == now - lo;
    GainMonotone(q, now - lo, hi - lo);
    BurstsGrow(q, e, 1);
  }

  ghost predicate InWindow(served: seq<Served>, lo: int, hi: int) {
    && lo <= hi
    && (forall j | 0 <= j < |served| :: lo <= served[j].now <= hi)
    && forall j, k | 0 <= j < k < |served| :: served[j].now <= served[k].now
  }

  lemma {:induction false} ChargesCovered(cfg: Config, ledger: Ledger, served: seq<Served>, i: nat, c: string,
      lo: int, hi: int)
    returns (recent: nat, since: int)
    requires cfg.Valid() && i < |cfg.limits| && Explained(cfg, ledger, served) && InWindow(served, lo, hi)
    ensures Covered(cfg.limits[i].AsQuota(), Charges(cfg, served, i, c), EvictionsOf(served, Key(cfg, i, c)),
                    Past(LedgerAfter(cfg, ledger, served), Key(cfg, i, c)), recent, lo, since,
                    if served == [] then lo else served[|served| - 1].now)
  {
    var q, key := cfg.limits[i].AsQuota(), Key(cfg, i, c);
    if served == [] {
      recent, since := 0, lo;
    } else {
      var n := |served| - 1;
      var s := served[n];
      ExplainedPrefix(cfg, ledger, served, n);
      recent, since := ChargesCovered(cfg, ledger, served[..n], i, c, lo, hi);
      var mid := LedgerAfter(cfg, ledger, served[..n]);
      var past, after := Past(mid, key), Past(LedgerAfter(cfg, ledger, served), key);
      var charges, evictions, f := Charges(cfg, served[..n], i, c), EvictionsOf(served[..n], key),
        Forgets(s.events, key);
      var hit := Hits(cfg, s, i, c);
      assert ExplainedAt(cfg, ledger, served, n);
      KeyEffect(cfg, mid, s, i, c);
      recent, since := CoveredStep(q, charges, evictions, f, past, after, hit, recent, lo, since,
                                   if n == 0 then lo else served[n - 1].now, s.now);
    }
  }

  /**
   With k evictions of a key, a window of length hi - lo admits at most k + 1 bursts of it and what is earned in the
   window.
   */
  lemma {:induction false} WindowBoundWithEvictions(cfg: Config, ledger: Ledger, served: seq<Served>, i: nat,
      c: string, lo: int, hi: int)
    requires cfg.Valid() && i < |cfg.limits| && Explained(cfg, ledger, served) && InWindow(served, lo, hi)
    ensures Charges(cfg, served, i, c) as real
            <= Allowance(cfg.limits[i].AsQuota(), EvictionsOf(served, Key(cfg, i, c)) + 1, hi - lo)
  {
    var recent, since := ChargesCovered(cfg, ledger, served, i, c, lo, hi);
    CoveredBound(cfg.limits[i].AsQuota(), Charges(cfg, served, i, c), EvictionsOf(served, Key(cfg, i, c)),
                 Past(LedgerAfter(cfg, ledger, served), Key(cfg, i, c)), recent, lo, since,
                 if served == [] then lo else served[|served| - 1].now, hi);
  }

  /** The window bound for any stretch `inside` of a run of the limiter whose clock reaches the lock in order. */
  lemma {:induction false} WindowBoundOfRun(cfg: Config, start: int, before: seq<Request>, inside: seq<Request>,
      i: nat, c: string, lo: int, hi: int)
    requires cfg.Valid() && WellFormed(cfg, before) && WellFormed(cfg, inside) && i < |cfg.limits| && lo <= hi
    requires Monotone(start, before + inside)
    requires forall j | 0 <= j < |inside| :: lo <= inside[j].now <= hi
    ensures var served := Run(cfg, StateAfter(cfg, State(map[], start), before), inside);
            Charges(cfg, served, i, c) as real
            <= Allowance(cfg.limits[i].AsQuota(), EvictionsOf(served, Key(cfg, i, c)) + 1, hi - lo)
  {
    hide *;
    var s := State(map[], start);
    var mid := StateAfter(cfg, s, before);
    var ledger := StretchExplained(cfg, start, before, inside);
    StretchIsSorted(start, before, inside);
    WindowBoundWithEvictions(cfg, ledger, Run(cfg, mid, inside), i, c, lo, hi);
  }

  lemma {:induction false} StretchExplained(cfg: Config, start: int, before: seq<Request>,
      inside: seq<Request>) returns (ledger: Ledger)
    requires cfg.Valid() && WellFormed(cfg, before) && WellFormed(cfg, inside) && Monotone(start, before + inside)
    ensures Explained(cfg, ledger, Run(cfg, StateAfter(cfg, State(map[], start), before), inside))
  {
    var s := State(map[], start);
    MonotoneIsClockOk(cfg, s, before + inside);
    ClockOkSplit(cfg, s, before, inside);
    LimiterRefinesLedger(cfg, s, map[], before);
    ledger := LedgerAfter(cfg, map[], Run(cfg, s, before));
    LimiterRefinesLedger(cfg, StateAfter(cfg, s, before), ledger, inside);
  }

  lemma {:induction false} StretchIsSorted(start: int, before: seq<Request>, inside: seq<Request>)
    requires Monotone(start, before + inside)
    ensures forall j, k | 0 <= j < k < |inside| :: inside[j].now <= inside[k].now
  {
    var all := before + inside;
    MonotoneIsSorted(start, all);
    forall j, k | 0 <= j < k < |inside| ensures inside[j].now <= inside[k].now {
      assert all[|before| + j] == inside[j] && all[|before| + k] == inside[k];
    }
  }

  lemma {:induction false} MonotoneIsSorted(start: int, reqs: seq<Request>)
    requires Monotone(start, reqs)
    ensures forall j, k | 0 <= j <= k < |reqs| :: start <= reqs[j].now <= reqs[k].now
  {
    if reqs != [] {
      var n := |reqs| - 1;
      MonotoneIsSorted(start, reqs[..n]);
      forall j, k | 0 <= j <= k < |reqs| ensures start <= reqs[j].now <= reqs[k].now {
        if j < n {
          assert reqs[..n][j] == reqs[j] && reqs[..n][n - 1] == reqs[n - 1];
          assert k < n ==> reqs[..n][k] == reqs[k];
        } else if n > 0 {
          assert reqs[..n][n - 1] == reqs[n - 1];
        }
      }
    }
  }
}
