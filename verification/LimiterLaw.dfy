/**
 The local limiter meets the admission law.

 The reference is a ledger: for each key the times of its past admissions, with no tokens, no sweeps and no
 capacity.  It forgets a key's history exactly when the limiter reports an eviction.  Main results: the
 limiter decides like the ledger on every run in which no clock reading is older than the last executed
 sweep; as long as a key is not evicted that is the pure law; with k evictions of a key, a window admits at
 most k + 1 bursts of it plus what is earned.
 */
module LimiterLaw {
  import opened Prelude
  import opened Admission
  import opened Limiter

  type Ledger = map<string, seq<int>>

  function Past(ledger: Ledger, key: string): seq<int> {
    if key in ledger then ledger[key] else []
  }

  function Forget(ledger: Ledger, event: Option<string>): Ledger {
    match event
    case None => ledger
    case Some(key) => ledger - {key}
  }

  datatype Verdict = Verdict(ledger: Ledger, pasts: seq<seq<int>>, ok: bool)

  function JudgeOne(cfg: Config, i: nat, client: string, now: int, v: Verdict, event: Option<string>): Verdict
    requires cfg.Valid() && i < |cfg.limits|
  {
    if !v.ok then v
    else
      var past := Past(v.ledger, Key(cfg, i, client));
      var ledger := Forget(v.ledger, event);
      if Conforms(cfg.limits[i].AsQuota(), past, now) then Verdict(ledger, v.pasts + [past + [now]], true)
      else Verdict(ledger, [], false)
  }

  /** The ledger's view of one request: every configured quota must conform. */
  function Judge(cfg: Config, client: string, now: int, ledger: Ledger, events: seq<Option<string>>): (v: Verdict)
    requires cfg.Valid() && |events| <= |cfg.limits|
    ensures v.ok ==> |v.pasts| == |events|
  {
    if events == [] then Verdict(ledger, [], true)
    else
      var i := |events| - 1;
      JudgeOne(cfg, i, client, now, Judge(cfg, client, now, ledger, events[..i]), events[i])
  }

  function Keys(cfg: Config, client: string): (keys: seq<string>)
    ensures |keys| == |cfg.limits|
  {
    seq(|cfg.limits|, i requires 0 <= i < |cfg.limits| => Key(cfg, i, client))
  }

  function LedgerStep(cfg: Config, ledger: Ledger, client: string, now: int, events: seq<Option<string>>)
    : (Ledger, bool)
    requires cfg.Valid() && |events| == |cfg.limits|
  {
    var v := Judge(cfg, client, now, ledger, events);
    (if v.ok then WriteBack(v.ledger, Keys(cfg, client), v.pasts) else v.ledger, v.ok)
  }

  // ----- Keys of different limits never collide, and none is the padding key.

  lemma {:induction false} KeysDisjoint(cfg: Config, i: nat, c: string, j: nat, d: string)
    requires cfg.Valid() && i < |cfg.limits| && j < |cfg.limits|
    ensures Key(cfg, i, c) != ""
    ensures Key(cfg, i, c) == Key(cfg, j, d) ==> i == j && (cfg.limits[i].family == PerClient ==> c == d)
  {
    var a, b := Key(cfg, i, c), Key(cfg, j, d);
    assert a[0] == match cfg.limits[i].family case PerClient => 'i' case PerRoute => 'r' case Global => 'g';
    assert b[0] == match cfg.limits[j].family case PerClient => 'i' case PerRoute => 'r' case Global => 'g';
    if a == b {
      assert cfg.limits[i].family == cfg.limits[j].family;
      if cfg.limits[i].family == PerClient {
        assert c == a[3..] && d == b[3..];
      }
    }
  }

  lemma {:induction false} WriteBackSkips<V>(m: map<string, V>, keys: seq<string>, values: seq<V>, key: string)
    requires |keys| == |values| && key !in keys
    ensures key in WriteBack(m, keys, values) <==> key in m
    ensures key in m ==> WriteBack(m, keys, values)[key] == m[key]
  {
    if keys != [] {
      var n := |keys| - 1;
      WriteBackSkips(m, keys[..n], values[..n], key);
    }
  }

  lemma {:induction false} WriteBackHits<V>(m: map<string, V>, keys: seq<string>, values: seq<V>, i: nat)
    requires i < |keys| == |values|
    requires forall j | i < j < |keys| :: keys[j] != keys[i]
    ensures keys[i] in WriteBack(m, keys, values) && WriteBack(m, keys, values)[keys[i]] == values[i]
  {
    var n := |keys| - 1;
    if i < n {
      WriteBackHits(m, keys[..n], values[..n], i);
    }
  }

  /** In a padded request, the keys other than the i-th differ from every key of the i-th limit. */
  lemma {:induction false} PaddedKeysDiffer(cfg: Config, client: string, i: nat, c: string, j: nat)
    requires cfg.Valid() && i < |cfg.limits| && j < 3 && j != i
    ensures PaddedKeys(cfg, client)[j] != Key(cfg, i, c)
  {
    KeysDisjoint(cfg, i, c, if j < |cfg.limits| then j else i, client);
  }

  // ----- The simulation.

  /** From time lo on, the stored bucket of a key tells the same room as the key's history. */
  ghost predicate Mirrors(q: Quota, bucket: Option<Bucket>, past: seq<int>, lo: int)
    requires q.Valid()
  {
    && (forall t | lo <= t :: Available(q, bucket, t) == Level(q, past, t))
    && (bucket.Some? ==> bucket.value.fullAt == bucket.value.updated + FullIn(q, bucket.value.tokens))
  }

  ghost predicate Refines(cfg: Config, store: Store, ledger: Ledger, lo: int)
    requires cfg.Valid()
  {
    forall i, c | 0 <= i < |cfg.limits| ::
      Mirrors(cfg.limits[i].AsQuota(), Lookup(store, Key(cfg, i, c)), Past(ledger, Key(cfg, i, c)), lo)
  }

  lemma {:induction false} ChargeMirrors(q: Quota, past: seq<int>, now: int)
    requires q.Valid()
    ensures Mirrors(q, Some(Charged(q, Level(q, past, now), now)), past + [now], now)
    ensures forall lo :: Mirrors(q, Some(Charged(q, Level(q, past, now), now)), past + [now], lo)
  {
    forall t {
      LevelAppend(q, past, now, t);
    }
  }

  /** A bucket whose truncated full time has strictly passed has really refilled. */
  lemma {:induction false} SweptIsFull(q: Quota, b: Bucket, now: int, t: int)
    requires q.Valid() && b.fullAt == b.updated + FullIn(q, b.tokens)
    requires b.fullAt < now <= t
    ensures Available(q, Some(b), t) == q.burst
  {
    var x := (q.burst - b.tokens) / q.perTick;
    var d := t - b.updated;
    assert (d as real) > x;
    assert q.perTick * x == q.burst - b.tokens;
    assert q.perTick * (d as real) >= q.perTick * x;
  }

  lemma {:induction false} SweepRefines(cfg: Config, s: State, ledger: Ledger, now: int)
    requires cfg.Valid() && Refines(cfg, s.store, ledger, s.lastSweep) && s.lastSweep <= now
    ensures Refines(cfg, Swept(s, now).store, ledger, Swept(s, now).lastSweep)
  {
    if SweepDue(s, now) {
      forall i, c | 0 <= i < |cfg.limits|
        ensures Mirrors(cfg.limits[i].AsQuota(), Lookup(Unswept(s.store, now), Key(cfg, i, c)),
                Past(ledger, Key(cfg, i, c)), now)
      {
        var key, q := Key(cfg, i, c), cfg.limits[i].AsQuota();
        assert Mirrors(q, Lookup(s.store, key), Past(ledger, key), s.lastSweep);
        if key in s.store && s.store[key].fullAt < now {
          forall t | now <= t
            ensures Available(q, None, t) == Level(q, Past(ledger, key), t)
          {
            SweptIsFull(q, s.store[key], now, t);
          }
        }
      }
    }
  }

  /** Evicting from the store and forgetting in the ledger keep the two in step. */
  lemma {:induction false} ForgetRefines(cfg: Config, store: Store, ledger: Ledger, lo: int, victim: string)
    requires cfg.Valid() && Refines(cfg, store, ledger, lo)
    ensures Refines(cfg, store - {victim}, ledger - {victim}, lo)
  {
    forall i, c | 0 <= i < |cfg.limits|
      ensures Mirrors(cfg.limits[i].AsQuota(), Lookup(store - {victim}, Key(cfg, i, c)),
              Past(ledger - {victim}, Key(cfg, i, c)), lo)
    {
      var key := Key(cfg, i, c);
      assert Mirrors(cfg.limits[i].AsQuota(), Lookup(store, key), Past(ledger, key), lo);
    }
  }

  ghost predicate InStep(cfg: Config, a: Attempt, v: Verdict, lo: int)
    requires cfg.Valid()
  {
    && a.ok == v.ok
    && Refines(cfg, a.store, v.ledger, lo)
    && |a.charged| == |v.pasts| <= |cfg.limits|
    && forall i | 0 <= i < |a.charged| :: Mirrors(cfg.limits[i].AsQuota(), Some(a.charged[i]), v.pasts[i], lo)
  }

  lemma {:induction false} ExamineOneRefines(cfg: Config, i: nat, client: string, now: int, a: Attempt, v: Verdict,
      victim: string, lo: int)
    requires cfg.Valid() && i < |cfg.limits| && InStep(cfg, a, v, lo) && lo <= now
    requires a.ok ==> |a.charged| == i
    ensures var a' := ExamineOne(cfg, i, client, now, a, victim);
            |a'.events| == |a.events| + 1 && a'.events[..|a.events|] == a.events
            && InStep(cfg, a', JudgeOne(cfg, i, client, now, v, a'.events[|a.events|]), lo)
  {
    if a.ok {
      var key, q := Key(cfg, i, client), cfg.limits[i].AsQuota();
      var past := Past(v.ledger, key);
      assert Mirrors(q, Lookup(a.store, key), past, lo);
      LevelDecides(q, past, now);
      ChargeMirrors(q, past, now);
      if Evicts(a.store, key) {
        ForgetRefines(cfg, a.store, v.ledger, lo, victim);
      }
    }
  }

  lemma {:induction false} ExamineRefines(cfg: Config, client: string, now: int, store: Store, ledger: Ledger,
                                          victims: seq<string>, lo: int)
    requires cfg.Valid() && |victims| <= |cfg.limits| && Refines(cfg, store, ledger, lo) && lo <= now
    ensures var a := Examine(cfg, client, now, store, victims);
            InStep(cfg, a, Judge(cfg, client, now, ledger, a.events), lo)
  {
    if victims != [] {
      var i := |victims| - 1;
      ExamineRefines(cfg, client, now, store, ledger, victims[..i], lo);
      var a := Examine(cfg, client, now, store, victims[..i]);
      ExamineOneRefines(cfg, i, client, now, a, Judge(cfg, client, now, ledger, a.events), victims[i], lo);
    }
  }

  /**
   What an admission stores under an arbitrary key of the i-th limit, padding included, and what the ledger records.
   */
  lemma {:induction false} WriteBackAt(cfg: Config, client: string, store: Store, ledger: Ledger,
      charged: seq<Bucket>, pasts: seq<seq<int>>,
                    i: nat, c: string)
    requires cfg.Valid() && |charged| == |pasts| == |cfg.limits| && i < |cfg.limits|
    ensures var key := Key(cfg, i, c);
            var hit := key == Key(cfg, i, client);
            && Lookup(WriteBack(store, PaddedKeys(cfg, client), PaddedBuckets(charged)), key)
               == (if hit then Some(charged[i]) else Lookup(store, key))
            && Past(WriteBack(ledger, Keys(cfg, client), pasts), key)
               == (if hit then pasts[i] else Past(ledger, key))
  {
    var key := Key(cfg, i, c);
    var padded, keys := PaddedKeys(cfg, client), Keys(cfg, client);
    forall j | 0 <= j < 3 && j != i
      ensures padded[j] != key && (j < |keys| ==> keys[j] != key)
    {
      PaddedKeysDiffer(cfg, client, i, c, j);
    }
    if key == Key(cfg, i, client) {
      WriteBackHits(store, padded, PaddedBuckets(charged), i);
      WriteBackHits(ledger, keys, pasts, i);
    } else {
      WriteBackSkips(store, padded, PaddedBuckets(charged), key);
      WriteBackSkips(ledger, keys, pasts, key);
    }
  }

  lemma {:induction false} WriteBackRefines(cfg: Config, client: string, a: Attempt, v: Verdict, lo: int)
    requires cfg.Valid() && InStep(cfg, a, v, lo) && |a.charged| == |cfg.limits|
    ensures Refines(cfg, WriteBack(a.store, PaddedKeys(cfg, client), PaddedBuckets(a.charged)),
                    WriteBack(v.ledger, Keys(cfg, client), v.pasts), lo)
  {
    var store := WriteBack(a.store, PaddedKeys(cfg, client), PaddedBuckets(a.charged));
    var ledger := WriteBack(v.ledger, Keys(cfg, client), v.pasts);
    forall i, c | 0 <= i < |cfg.limits|
      ensures Mirrors(cfg.limits[i].AsQuota(), Lookup(store, Key(cfg, i, c)), Past(ledger, Key(cfg, i, c)), lo)
    {
      assert Mirrors(cfg.limits[i].AsQuota(), Lookup(a.store, Key(cfg, i, c)), Past(v.ledger, Key(cfg, i, c)), lo);
      WriteBackAt(cfg, client, a.store, v.ledger, a.charged, v.pasts, i, c);
    }
  }

  lemma {:induction false} StepRefines(cfg: Config, s: State, ledger: Ledger, r: Request)
    requires cfg.Valid() && |r.victims| == |cfg.limits|
    requires Refines(cfg, s.store, ledger, s.lastSweep) && s.lastSweep <= r.now
    ensures var (s', served) := Step(cfg, s, r);
            var (ledger', ok) := LedgerStep(cfg, ledger, r.client, r.now, served.events);
            served.ok == ok && Refines(cfg, s'.store, ledger', s'.lastSweep)
  {
    var swept := Swept(s, r.now);
    SweepRefines(cfg, s, ledger, r.now);
    ExamineRefines(cfg, r.client, r.now, swept.store, ledger, r.victims, swept.lastSweep);
    var a := Examine(cfg, r.client, r.now, swept.store, r.victims);
    var v := Judge(cfg, r.client, r.now, ledger, a.events);
    if a.ok {
      WriteBackRefines(cfg, r.client, a, v, swept.lastSweep);
    }
  }
}
