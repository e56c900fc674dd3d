/**
 Runs of the local limiter with clock readings in any order, however old.

 A reading that is older than a sweep may find a bucket gone that would not yet have been full for it.  So the
 reference here is a ledger that also forgets a key's history when the sweep drops the key's bucket.  The limiter
 follows this ledger on every run, with no condition on the clock; what the ledger remembers of a key is always the
 end of the key's true history, hence the limiter errs on one side only: it never denies what the law admits.
 */
module LimiterAnyClock {
  import opened Prelude
  import opened Admission
  import opened Limiter
  import opened LimiterLaw
  import opened LimiterRuns

  /** Histories of keys whose bucket is gone are forgotten. */
  function Remember(ledger: Ledger, store: Store): Ledger {
    map key | key in ledger && key in store :: ledger[key]
  }

  /** Store and ledger tell the same room at every time, past or future. */
  ghost predicate Always(cfg: Config, store: Store, ledger: Ledger)
    requires cfg.Valid()
  {
    forall lo: int :: Refines(cfg, store, ledger, lo)
  }

  lemma {:induction false} RefinesLater(cfg: Config, store: Store, ledger: Ledger, lo: int, hi: int)
    requires cfg.Valid() && Refines(cfg, store, ledger, lo) && lo <= hi
    ensures Refines(cfg, store, ledger, hi)
  {
    forall i, c | 0 <= i < |cfg.limits|
      ensures Mirrors(cfg.limits[i].AsQuota(), Lookup(store, Key(cfg, i, c)), Past(ledger, Key(cfg, i, c)), hi)
    {
      assert Mirrors(cfg.limits[i].AsQuota(), Lookup(store, Key(cfg, i, c)), Past(ledger, Key(cfg, i, c)), lo);
    }
  }

  /** A sweep keeps the agreement whatever its reading, because the ledger forgets what the sweep drops. */
  lemma {:induction false} SweepIsRemembered(cfg: Config, s: State, ledger: Ledger, now: int)
    requires cfg.Valid() && Always(cfg, s.store, ledger)
    ensures Always(cfg, Swept(s, now).store, Remember(ledger, Swept(s, now).store))
  {
    var swept := Swept(s, now).store;
    forall lo: int, i, c | 0 <= i < |cfg.limits|
      ensures Mirrors(cfg.limits[i].AsQuota(), Lookup(swept, Key(cfg, i, c)),
              Past(Remember(ledger, swept), Key(cfg, i, c)), lo)
    {
      assert Refines(cfg, s.store, ledger, lo);
      assert Mirrors(cfg.limits[i].AsQuota(), Lookup(s.store, Key(cfg, i, c)), Past(ledger, Key(cfg, i, c)), lo);
    }
  }

  /** One request, with any clock reading. */
  lemma {:induction false} StepIsRemembered(cfg: Config, s: State, ledger: Ledger, r: Request)
    requires cfg.Valid() && |r.victims| == |cfg.limits| && Always(cfg, s.store, ledger)
    ensures var (s', served) := Step(cfg, s, r);
            var (ledger', ok) := LedgerStep(cfg, Remember(ledger, Swept(s, r.now).store), r.client, r.now,
              served.events);
            served.ok == ok && Always(cfg, s'.store, ledger')
  {
    var swept := Swept(s, r.now).store;
    var kept := Remember(ledger, swept);
    var a := Examine(cfg, r.client, r.now, swept, r.victims);
    var v := Judge(cfg, r.client, r.now, kept, a.events);
    var (s', served) := Step(cfg, s, r);
    var ledger' := LedgerStep(cfg, kept, r.client, r.now, served.events).0;
    SweepIsRemembered(cfg, s, ledger, r.now);
    hide Remember, Examine, Judge, Refines, WriteBack, PaddedKeys, PaddedBuckets, Keys;
    forall lo: int
      ensures served.ok == v.ok && Refines(cfg, s'.store, ledger', lo)
    {
      var from := if lo <= r.now then lo else r.now;
      assert Refines(cfg, swept, kept, from);
      ExamineRefines(cfg, r.client, r.now, swept, kept, r.victims, from);
      if a.ok {
        WriteBackRefines(cfg, r.client, a, v, from);
      }
      RefinesLater(cfg, s'.store, ledger', from, lo);
    }
    assert Refines(cfg, s'.store, ledger', 0);
  }

  /** What the limiter remembers after a run from the empty map. */
  function Remembered(cfg: Config, s: State, reqs: seq<Request>): Ledger
    requires cfg.Valid() && WellFormed(cfg, reqs)
  {
    if reqs == [] then map[]
    else
      var n := |reqs| - 1;
      var (before, r) := (StateAfter(cfg, s, reqs[..n]), reqs[n]);
      var kept := Remember(Remembered(cfg, s, reqs[..n]), Swept(before, r.now).store);
      LedgerStep(cfg, kept, r.client, r.now, Step(cfg, before, r).1.events).0
  }

  /** What the limiter remembers when the j-th request has entered and swept. */
  function RememberedAt(cfg: Config, s: State, reqs: seq<Request>, j: nat): Ledger
    requires cfg.Valid() && WellFormed(cfg, reqs) && j < |reqs|
  {
    Remember(Remembered(cfg, s, reqs[..j]), Swept(StateAfter(cfg, s, reqs[..j]), reqs[j].now).store)
  }

  lemma {:induction false} RunIsRemembered(cfg: Config, start: int, reqs: seq<Request>)
    requires cfg.Valid() && WellFormed(cfg, reqs)
    ensures Always(cfg, StateAfter(cfg, State(map[], start), reqs).store, Remembered(cfg, State(map[], start), reqs))
  {
    var s := State(map[], start);
    if reqs == [] {
      forall lo: int ensures Refines(cfg, map[], map[], lo) {}
    } else {
      hide Always, Remember, Step, LedgerStep;
      var n := |reqs| - 1;
      RunIsRemembered(cfg, start, reqs[..n]);
      StepIsRemembered(cfg, StateAfter(cfg, s, reqs[..n]), Remembered(cfg, s, reqs[..n]), reqs[n]);
    }
  }

  /** Every request of every run is decided by the ledger that remembers. */
  lemma {:induction false} JudgedByMemory(cfg: Config, start: int, reqs: seq<Request>, j: nat)
    requires cfg.Valid() && WellFormed(cfg, reqs) && j < |reqs|
    ensures var s := State(map[], start);
            var served := Run(cfg, s, reqs)[j];
            served.ok == LedgerStep(cfg, RememberedAt(cfg, s, reqs, j), served.client, served.now, served.events).1
  {
    hide Always, Remember, Step, LedgerStep, Run, Remembered, StateAfter;
    var s := State(map[], start);
    RunIsRemembered(cfg, start, reqs[..j]);
    RunAt(cfg, s, reqs, j);
    assert Run(cfg, s, reqs)[j].now == reqs[j].now && Run(cfg, s, reqs)[j].client == reqs[j].client;
    StepIsRemembered(cfg, StateAfter(cfg, s, reqs[..j]), Remembered(cfg, s, reqs[..j]), reqs[j]);
  }

  // ----- What is remembered is the end of what happened.

  predicate EndOf(past: seq<int>, times: seq<int>) {
    |past| <= |times| && past == times[|times| - |past|..]
  }

  /** How one request moves the remembered history of a key along with the true one. */
  lemma {:induction false} MemoryMoves(q: Quota, past: seq<int>, after: seq<int>, times: seq<int>, now: int, hit: bool)
    requires EndOf(past, times) && Lawful(q, past)
    requires if hit then (after == past + [now] && Conforms(q, past, now)) || after == [now]
             else after == past || after == []
    ensures EndOf(after, times + if hit then [now] else []) && Lawful(q, after)
  {
    if hit && after == past + [now] && Conforms(q, past, now) {
      LawfulAppend(q, past, now);
    } else if hit {
      LawfulAppend(q, [], now);
    }
  }

  /**
   After any run, and whatever was swept or evicted, the remembered history of a key ends its true history, and is
   lawful.
   */
  lemma {:induction false} MemoryIsEnd(cfg: Config, start: int, reqs: seq<Request>, i: nat, c: string)
    requires cfg.Valid() && WellFormed(cfg, reqs) && i < |cfg.limits|
    ensures var s := State(map[], start);
            var past := Past(Remembered(cfg, s, reqs), Key(cfg, i, c));
            EndOf(past, Times(cfg, Run(cfg, s, reqs), i, c)) && Lawful(cfg.limits[i].AsQuota(), past)
    decreases |reqs|, 0
  {
    if reqs != [] {
      var s, n := State(map[], start), |reqs| - 1;
      var q, key := cfg.limits[i].AsQuota(), Key(cfg, i, c);
      var served, kept := Run(cfg, s, reqs), RememberedAt(cfg, s, reqs, n);
      assert Past(kept, key) == Past(Remembered(cfg, s, reqs[..n]), key) || Past(kept, key) == [];
      hide Remember, Step, LedgerStep, Run, StateAfter, Conforms, Lawful, Forgets;
      JudgedByMemory(cfg, start, reqs, n);
      RunAt(cfg, s, reqs, n);
      RunPrefix(cfg, s, reqs, n);
      KeyEffect(cfg, kept, served[n], i, c);
      MemoryIsEndAt(cfg, start, reqs, n, i, c);
      MemoryMoves(q, Past(kept, key), Past(Remembered(cfg, s, reqs), key), Times(cfg, served[..n], i, c),
        served[n].now, Hits(cfg, served[n], i, c));
    }
  }

  /** The same for what the j-th request finds when it has swept. */
  lemma {:induction false} MemoryIsEndAt(cfg: Config, start: int, reqs: seq<Request>, j: nat, i: nat, c: string)
    requires cfg.Valid() && WellFormed(cfg, reqs) && j < |reqs| && i < |cfg.limits|
    ensures var s := State(map[], start);
            var past := Past(RememberedAt(cfg, s, reqs, j), Key(cfg, i, c));
            EndOf(past, Times(cfg, Run(cfg, s, reqs)[..j], i, c)) && Lawful(cfg.limits[i].AsQuota(), past)
    decreases j, 1
  {
    var s := State(map[], start);
    RunPrefix(cfg, s, reqs, j);
    MemoryIsEnd(cfg, start, reqs[..j], i, c);
    assert Lawful(cfg.limits[i].AsQuota(), []);
  }

  lemma {:induction false} JudgeAdmits(cfg: Config, client: string, now: int, ledger: Ledger,
      events: seq<Option<string>>)
    requires cfg.Valid() && |events| <= |cfg.limits|
    requires forall i | 0 <= i < |events| :: Conforms(cfg.limits[i].AsQuota(), Past(ledger, Key(cfg, i, client)), now)
    ensures Judge(cfg, client, now, ledger, events).ok
  {
    if events != [] {
      var i := |events| - 1;
      JudgeAdmits(cfg, client, now, ledger, events[..i]);
      JudgeAt(cfg, client, now, ledger, events[..i], Key(cfg, i, client));
    }
  }

  /**
   The limiter never denies what the law admits: in every run, with clock readings in any order and however old, and
   whatever is swept or evicted, a request that conforms to the whole history of each of its keys is admitted.
   */
  lemma {:induction false} ConformingIsAdmitted(cfg: Config, start: int, reqs: seq<Request>, j: nat)
    requires cfg.Valid() && WellFormed(cfg, reqs) && j < |reqs|
    requires forall i | 0 <= i < |cfg.limits| ::
               Conforms(cfg.limits[i].AsQuota(), Times(cfg, Run(cfg, State(map[], start), reqs)[..j], i,
                 reqs[j].client), reqs[j].now)
    ensures Run(cfg, State(map[], start), reqs)[j].ok
  {
    var s := State(map[], start);
    forall i | 0 <= i < |cfg.limits|
      ensures Conforms(cfg.limits[i].AsQuota(), Past(RememberedAt(cfg, s, reqs, j), Key(cfg, i, reqs[j].client)),
              reqs[j].now)
    {
      hide RememberedAt, Run, Conforms, Key;
      MemoryIsEndAt(cfg, start, reqs, j, i, reqs[j].client);
      EndConforms(cfg.limits[i].AsQuota(), Past(RememberedAt(cfg, s, reqs, j), Key(cfg, i, reqs[j].client)),
                  Times(cfg, Run(cfg, s, reqs)[..j], i, reqs[j].client), reqs[j].now);
    }
    MemoryAdmits(cfg, start, reqs, j);
  }

  /** A request that conforms to what is remembered is admitted, whatever is evicted while it is examined. */
  lemma {:induction false} MemoryAdmits(cfg: Config, start: int, reqs: seq<Request>, j: nat)
    requires cfg.Valid() && WellFormed(cfg, reqs) && j < |reqs|
    requires forall i | 0 <= i < |cfg.limits| ::
               Conforms(cfg.limits[i].AsQuota(), Past(RememberedAt(cfg, State(map[], start), reqs, j),
                 Key(cfg, i, reqs[j].client)), reqs[j].now)
    ensures Run(cfg, State(map[], start), reqs)[j].ok
  {
    hide RememberedAt, Run, Conforms, Key;
    var s := State(map[], start);
    JudgedByMemory(cfg, start, reqs, j);
    JudgeAdmits(cfg, reqs[j].client, reqs[j].now, RememberedAt(cfg, s, reqs, j), Run(cfg, s, reqs)[j].events);
  }

  /** A history that conforms has only ends that conform. */
  lemma {:induction false} EndConforms(q: Quota, past: seq<int>, times: seq<int>, t: int)
    requires EndOf(past, times) && Conforms(q, times, t)
    ensures Conforms(q, past, t)
  {
    forall i | 0 <= i < |past| ensures (|past| - i + 1) as real <= q.burst + Gain(q, t - past[i]) {
      assert past[i] == times[|times| - |past| + i];
    }
  }
}
