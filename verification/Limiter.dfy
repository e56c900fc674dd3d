/**
 The local rate limiter: up to three token buckets that are charged together, all or nothing.

 Buckets live in one map and are refilled lazily.  Stale buckets are swept, and when the map is at
 capacity an arbitrary entry is evicted to make room.  Time is in nanoseconds and tokens are exact reals.
 Whatever the runtime decides (which entry a map iteration yields first) is an explicit input of the
 functions below, and a choice of the method that implements them.
 */
module Limiter {
  import opened Prelude
  import opened Admission

  const MAX_BUCKETS := 100_000
  const SECOND := 1_000_000_000
  const MINUTE := 60_000_000_000
  /** The zero value of a point in time: the start of year 1, relative to 1970. */
  const ZERO_TIME := -62_135_596_800_000_000_000

  datatype Bucket = Bucket(tokens: real, updated: int, fullAt: int)

  /** What is stored for the unused positions of the three-element key array. */
  const ZERO_BUCKET := Bucket(0.0, ZERO_TIME, ZERO_TIME)

  type Store = map<string, Bucket>

  datatype Family = PerClient | PerRoute | Global

  datatype Limit = Limit(family: Family, rate: int, burst: int) {
    predicate Valid() {
      rate > 0 && burst > 0
    }

    function AsQuota(): (q: Quota)
      requires Valid()
      ensures q.Valid()
    {
      Quota(burst as real, rate as real / MINUTE as real)
    }
  }

  datatype Config = Config(limits: seq<Limit>, route: string) {
    predicate Valid() {
      && 0 < |limits| <= 3
      && (forall i | 0 <= i < |limits| :: limits[i].Valid())
      && (forall i, j | 0 <= i < j < |limits| :: limits[i].family != limits[j].family)
    }
  }

  datatype State = State(store: Store, lastSweep: int)

  /** Candidates without a positive rate are dropped, and a missing burst defaults to the rate. */
  function Configured(candidates: seq<Limit>): seq<Limit> {
    if candidates == [] then []
    else
      var n := |candidates| - 1;
      var c := candidates[n];
      if c.rate <= 0 then Configured(candidates[..n])
      else Configured(candidates[..n]) + [if c.burst <= 0 then c.(burst := c.rate) else c]
  }

  function Key(cfg: Config, i: nat, client: string): string
    requires i < |cfg.limits|
  {
    match cfg.limits[i].family
    case PerClient => "ip:" + client
    case PerRoute => "route:" + cfg.route
    case Global => "global"
  }

  function Lookup(store: Store, key: string): Option<Bucket> {
    if key in store then Some(store[key]) else None
  }

  /** The tokens a request finds at time t; a missing bucket is a full one. */
  function Available(q: Quota, bucket: Option<Bucket>, t: int): real {
    match bucket
    case None => q.burst
    case Some(b) => Min(q.burst, b.tokens + Gain(q, t - b.updated))
  }

  /** The time, truncated to whole nanoseconds, that a bucket with that many tokens needs to fill up. */
  function FullIn(q: Quota, tokens: real): int
    requires q.Valid()
  {
    ((q.burst - tokens) / q.perTick).Floor
  }

  function Charged(q: Quota, available: real, now: int): Bucket
    requires q.Valid()
  {
    Bucket(available - 1.0, now, now + FullIn(q, available - 1.0))
  }

  predicate SweepDue(s: State, now: int) {
    now - s.lastSweep >= SECOND && (now - s.lastSweep >= MINUTE || |s.store| >= MAX_BUCKETS)
  }

  function Unswept(store: Store, now: int): Store {
    map key | key in store && now <= store[key].fullAt :: store[key]
  }

  function Swept(s: State, now: int): State {
    if SweepDue(s, now) then State(Unswept(s.store, now), now) else s
  }

  /** Result of examining some of the limits for one request: one event for each, the key it evicted if any. */
  datatype Attempt = Attempt(store: Store, charged: seq<Bucket>, events: seq<Option<string>>, ok: bool)

  predicate Evicts(store: Store, key: string) {
    key !in store && |store| >= MAX_BUCKETS
  }

  function ExamineOne(cfg: Config, i: nat, client: string, now: int, a: Attempt, victim: string): Attempt
    requires cfg.Valid() && i < |cfg.limits|
  {
    if !a.ok then a.(events := a.events + [None])
    else
      var key := Key(cfg, i, client);
      var q := cfg.limits[i].AsQuota();
      var evicts := Evicts(a.store, key);
      var store := if evicts then a.store - {victim} else a.store;
      var events := a.events + [if evicts then Some(victim) else None];
      var room := Available(q, Lookup(a.store, key), now);
      if room < 1.0 then Attempt(store, [], events, false)
      else Attempt(store, a.charged + [Charged(q, room, now)], events, true)
  }

  /** Examines the first |victims| limits in order; victims[i] is what the i-th map iteration yields first. */
  function Examine(cfg: Config, client: string, now: int, store: Store, victims: seq<string>): (a: Attempt)
    requires cfg.Valid() && |victims| <= |cfg.limits|
    ensures |a.events| == |victims| && (a.ok ==> |a.charged| == |victims|)
  {
    if victims == [] then Attempt(store, [], [], true)
    else
      var i := |victims| - 1;
      ExamineOne(cfg, i, client, now, Examine(cfg, client, now, store, victims[..i]), victims[i])
  }

  /** Whenever an entry has to make room, the victim is an entry that is there. */
  ghost predicate Genuine(cfg: Config, client: string, now: int, store: Store, victims: seq<string>)
    requires cfg.Valid() && |victims| <= |cfg.limits|
  {
    victims == [] ||
    var i := |victims| - 1;
    var a := Examine(cfg, client, now, store, victims[..i]);
    Genuine(cfg, client, now, store, victims[..i]) && (a.ok && Evicts(a.store, Key(cfg, i, client))
      ==> victims[i] in a.store)
  }

  /** The three keys of a request: one for each limit, padded with the empty string. */
  function PaddedKeys(cfg: Config, client: string): (keys: seq<string>)
    requires cfg.Valid()
    ensures |keys| == 3
  {
    seq(3, i requires 0 <= i < 3 => if i < |cfg.limits| then Key(cfg, i, client) else "")
  }

  function PaddedBuckets(charged: seq<Bucket>): (buckets: seq<Bucket>)
    requires |charged| <= 3
    ensures |buckets| == 3
  {
    seq(3, i requires 0 <= i < 3 => if i < |charged| then charged[i] else ZERO_BUCKET)
  }

  function WriteBack<V>(m: map<string, V>, keys: seq<string>, values: seq<V>): map<string, V>
    requires |keys| == |values|
  {
    if keys == [] then m
    else
      var n := |keys| - 1;
      WriteBack(m, keys[..n], values[..n])[keys[n] := values[n]]
  }

  /** One request: who asks, the clock reading it carries into the critical section, and the runtime's choices. */
  datatype Request = Request(client: string, now: int, victims: seq<string>)

  datatype Served = Served(client: string, now: int, ok: bool, events: seq<Option<string>>)

  function Step(cfg: Config, s: State, r: Request): (State, Served)
    requires cfg.Valid() && |r.victims| == |cfg.limits|
  {
    var swept := Swept(s, r.now);
    var a := Examine(cfg, r.client, r.now, swept.store, r.victims);
    var store := if a.ok then WriteBack(a.store, PaddedKeys(cfg, r.client), PaddedBuckets(a.charged)) else a.store;
    (State(store, swept.lastSweep), Served(r.client, r.now, a.ok, a.events))
  }

  lemma {:induction false} ExamineNext(cfg: Config, client: string, now: int, store: Store, victims: seq<string>,
      victim: string)
    requires cfg.Valid() && |victims| < |cfg.limits|
    ensures var i, a := |victims|, Examine(cfg, client, now, store, victims);
            && Examine(cfg, client, now, store, victims + [victim]) == ExamineOne(cfg, i, client, now, a, victim)
            && Genuine(cfg, client, now, store, victims + [victim])
               == (Genuine(cfg, client, now, store, victims) && (a.ok && Evicts(a.store, Key(cfg, i, client))
                 ==> victim in a.store))
  {
    hide ExamineOne, Evicts, Key;
    assert (victims + [victim])[..|victims|] == victims;
  }

  lemma {:induction false} DenialIsFinal(cfg: Config, client: string, now: int, store: Store,
                                         victims: seq<string>, more: seq<string>)
    requires cfg.Valid() && |victims| + |more| <= |cfg.limits|
    requires !Examine(cfg, client, now, store, victims).ok
    ensures var a := Examine(cfg, client, now, store, victims + more);
            !a.ok && a.store == Examine(cfg, client, now, store, victims).store
    ensures Genuine(cfg, client, now, store, victims + more) == Genuine(cfg, client, now, store, victims)
    decreases |more|
  {
    if more == [] {
      assert victims + more == victims;
    } else {
      var n := |more| - 1;
      DenialIsFinal(cfg, client, now, store, victims, more[..n]);
      assert (victims + more)[..|victims| + n] == victims + more[..n];
    }
  }

  /** The limiter object: the map and the time of the last sweep are updated in place under one mutex. */
  class RateLimiter {
    const cfg: Config
    var state: Store
    var lastSweep: int

    ghost function View(): State
      reads this
    {
      State(state, lastSweep)
    }

    constructor (cfg: Config, now: int)
      ensures this.cfg == cfg && View() == State(map[], now)
    {
      this.cfg := cfg;
      state := map[];
      lastSweep := now;
    }

    method Sweep(now: int)
      modifies this`state
      ensures state == Unswept(old(state), now)
    {
      var rest := state.Keys;
      while rest != {}
        invariant rest <= old(state).Keys
        invariant state.Keys == set key | key in old(state) && (key in rest || now <= old(state)[key].fullAt)
        invariant forall key | key in state :: state[key] == old(state)[key]
        decreases rest
      {
        var key :| key in rest;
        rest := rest - {key};
        if now > state[key].fullAt {
          state := state - {key};
        }
      }
      assert state.Keys == Unswept(old(state), now).Keys;
    }

    /** Deletes whatever entry the map iteration yields first. */
    method EvictOne() returns (ghost victim: string)
      requires state != map[]
      modifies this`state
      ensures victim in old(state) && state == old(state) - {victim}
    {
      assert state.Keys != {};
      var key :| key in state;
      state := state - {key};
      victim := key;
    }

    /** Examines the limits in order; on success `updated` holds the charged buckets, not yet stored. */
    method Charge(client: string, now: int) returns (ok: bool, updated: seq<Bucket>, ghost victims: seq<string>)
      requires cfg.Valid()
      modifies this`state
      ensures |victims| == |cfg.limits|
      ensures var a := Examine(cfg, client, now, old(state), victims);
              a.ok == ok && a.store == state && (ok ==> a.charged == updated)
      ensures Genuine(cfg, client, now, old(state), victims)
    {
      updated, victims := [], [];
      var i := 0;
      assert Examine(cfg, client, now, state, victims) == Attempt(state, [], [], true);
      while i < |cfg.limits|
        invariant 0 <= i <= |cfg.limits| && |victims| == i
        invariant var a := Examine(cfg, client, now, old(state), victims);
                  a.ok && a.store == state && a.charged == updated
        invariant Genuine(cfg, client, now, old(state), victims)
      {
        hide Examine, Genuine, Key, Charged, Available;
        ghost var victim := "";
        var key := Key(cfg, i, client);
        var q := cfg.limits[i].AsQuota();
        var tokens := Available(q, Lookup(state, key), now);
        if key !in state && |state| >= MAX_BUCKETS {
          victim := EvictOne();
        }
        ghost var next := victims + [victim];
        ExamineNext(cfg, client, now, old(state), victims, victim);
        if tokens < 1.0 {
          ok := false;
          ghost var pad := seq(|cfg.limits| - |next|, _ => "");
          DenialIsFinal(cfg, client, now, old(state), next, pad);
          victims := next + pad;
          return;
        }
        updated := updated + [Charged(q, tokens, now)];
        victims := next;
        i := i + 1;
      }
      ok := true;
    }

    method StoreAll(keys: seq<string>, buckets: seq<Bucket>)
      requires |keys| == |buckets|
      modifies this`state
      ensures state == WriteBack(old(state), keys, buckets)
    {
      var i := 0;
      while i < |keys|
        invariant 0 <= i <= |keys|
        invariant state == WriteBack(old(state), keys[..i], buckets[..i])
      {
        state := state[keys[i] := buckets[i]];
        assert keys[..i + 1][..i] == keys[..i] && buckets[..i + 1][..i] == buckets[..i];
        i := i + 1;
      }
      assert keys[..i] == keys && buckets[..i] == buckets;
    }

    method Allow(client: string, now: int) returns (ok: bool, ghost victims: seq<string>)
      requires cfg.Valid()
      modifies this
      ensures |victims| == |cfg.limits|
      ensures var (s, served) := Step(cfg, old(View()), Request(client, now, victims));
              View() == s && ok == served.ok
      ensures Genuine(cfg, client, now, Swept(old(View()), now).store, victims)
    {
      if now - lastSweep >= SECOND && (now - lastSweep >= MINUTE || |state| >= MAX_BUCKETS) {
        Sweep(now);
        lastSweep := now;
      }
      assert View() == Swept(old(View()), now);
      var updated;
      ok, updated, victims := Charge(client, now);
      if ok {
        StoreAll(PaddedKeys(cfg, client), PaddedBuckets(updated));
      }
    }
  }

  /**
   Builds the limiter from its three candidate limits; without a usable limit there is none and requests pass freely.
   */
  method NewRateLimit(candidates: seq<Limit>, route: string, now: int) returns (limiter: RateLimiter?)
    requires |candidates| == 3
    requires candidates[0].family == PerClient && candidates[1].family == PerRoute && candidates[2].family == Global
    ensures limiter == null <==> forall i | 0 <= i < 3 :: candidates[i].rate <= 0
    ensures limiter != null ==> fresh(limiter) && limiter.cfg == Config(Configured(candidates), route)
                                && limiter.cfg.Valid() && limiter.View() == State(map[], now)
  {
    var limits: seq<Limit> := [];
    var i := 0;
    while i < 3
      invariant 0 <= i <= 3
      invariant limits == Configured(candidates[..i])
      invariant limits == [] <==> forall j | 0 <= j < i :: candidates[j].rate <= 0
      invariant |limits| <= i
      invariant forall j | 0 <= j < |limits| ::
                  limits[j].Valid() && exists k | 0 <= k < i :: limits[j].family == candidates[k].family
      invariant forall j, k | 0 <= j < k < |limits| :: limits[j].family != limits[k].family
    {
      var candidate := candidates[i];
      assert candidates[..i + 1][..i] == candidates[..i];
      i := i + 1;
      if candidate.rate <= 0 {
        continue;
      }
      if candidate.burst <= 0 {
        candidate := candidate.(burst := candidate.rate);
      }
      limits := limits + [candidate];
    }
    assert candidates[..3] == candidates;
    if |limits| == 0 {
      return null;
    }
    limiter := new RateLimiter(Config(limits, route), now);
  }
}
