/**
 Progress of the local limiter: who leaves its buckets alone long enough is admitted.

 All theorems are about whole runs from the empty map, amid any requests of other clients, whatever is swept and
 whatever is evicted, and with no condition on the order of the clock readings.
 */
module LimiterProgress {
  import opened Admission
  import opened Limiter
  import opened LimiterLaw
  import opened LimiterRuns
  import opened LimiterAnyClock

  /** Enough time to earn one token: 60/rate seconds. */
  predicate Apart(l: Limit, from: int, to: int) {
    l.rate * (to - from) >= MINUTE
  }

  /** Since the last charge of the i-th bucket enough time has passed to earn one token: 60/rate seconds. */
  predicate Rested(l: Limit, past: seq<int>, now: int) {
    past == [] || Apart(l, past[|past| - 1], now)
  }

  lemma {:induction false} RestedGains(l: Limit, past: seq<int>, now: int)
    requires l.Valid() && Lawful(l.AsQuota(), past) && Rested(l, past, now)
    ensures Conforms(l.AsQuota(), past, now)
  {
    if past != [] {
      var dt := now - past[|past| - 1];
      assert (l.rate * dt) as real == l.rate as real * dt as real;
      assert Gain(l.AsQuota(), dt) == (l.rate * dt) as real / MINUTE as real;
    }
    RestedConforms(l.AsQuota(), past, now);
  }

  /** A request is admitted if each of its buckets was left uncharged for 60/rate seconds. */
  lemma {:induction false} RestedRequestIsAdmitted(cfg: Config, start: int, reqs: seq<Request>, j: nat)
    requires cfg.Valid() && WellFormed(cfg, reqs) && j < |reqs|
    requires forall i | 0 <= i < |cfg.limits| ::
               Rested(cfg.limits[i], Times(cfg, Run(cfg, State(map[], start), reqs)[..j], i, reqs[j].client),
                 reqs[j].now)
    ensures Run(cfg, State(map[], start), reqs)[j].ok
  {
    var s := State(map[], start);
    hide RememberedAt, Run, Key, Conforms, Rested, Times;
    forall i | 0 <= i < |cfg.limits|
      ensures Conforms(cfg.limits[i].AsQuota(), Past(RememberedAt(cfg, s, reqs, j), Key(cfg, i, reqs[j].client)),
              reqs[j].now)
    {
      RestedKeyConforms(cfg, start, reqs, j, i);
    }
    MemoryAdmits(cfg, start, reqs, j);
  }

  lemma {:induction false} RestedKeyConforms(cfg: Config, start: int, reqs: seq<Request>, j: nat, i: nat)
    requires cfg.Valid() && WellFormed(cfg, reqs) && j < |reqs| && i < |cfg.limits|
    requires Rested(cfg.limits[i], Times(cfg, Run(cfg, State(map[], start), reqs)[..j], i, reqs[j].client), reqs[j].now)
    ensures Conforms(cfg.limits[i].AsQuota(), Past(RememberedAt(cfg, State(map[], start), reqs, j),
            Key(cfg, i, reqs[j].client)), reqs[j].now)
  {
    hide RememberedAt, Run, Key, Conforms, Lawful, Times;
    MemoryIsEndAt(cfg, start, reqs, j, i, reqs[j].client);
    RestedGains(cfg.limits[i], Past(RememberedAt(cfg, State(map[], start), reqs, j), Key(cfg, i, reqs[j].client)),
      reqs[j].now);
  }

  /** The latest charge of a key is that of some admitted request on it. */
  lemma {:induction false} LastCharge(cfg: Config, served: seq<Served>, i: nat, c: string) returns (k: nat)
    requires i < |cfg.limits| && Times(cfg, served, i, c) != []
    ensures var times := Times(cfg, served, i, c);
            k < |served| && Hits(cfg, served[k], i, c) && times[|times| - 1] == served[k].now
  {
    var n := |served| - 1;
    if Hits(cfg, served[n], i, c) {
      k := n;
    } else {
      k := LastCharge(cfg, served[..n], i, c);
    }
  }

  lemma {:induction false} SpacedIsRested(cfg: Config, served: seq<Served>, i: nat, c: string, now: int)
    requires i < |cfg.limits|
    requires forall k | 0 <= k < |served| && Hits(cfg, served[k], i, c) :: Apart(cfg.limits[i], served[k].now, now)
    ensures Rested(cfg.limits[i], Times(cfg, served, i, c), now)
  {
    hide Times, Hits, Apart;
    if Times(cfg, served, i, c) != [] {
      var k := LastCharge(cfg, served, i, c);
    }
  }

  /** A request is admitted if it comes 60/rate seconds after every admitted request that charged one of its buckets. */
  lemma {:induction false} SpacedFromCharges(cfg: Config, start: int, reqs: seq<Request>, j: nat)
    requires cfg.Valid() && WellFormed(cfg, reqs) && j < |reqs|
    requires forall i, k | 0 <= i < |cfg.limits| && 0 <= k < j
             && Hits(cfg, Run(cfg, State(map[], start), reqs)[k], i, reqs[j].client) ::
               Apart(cfg.limits[i], reqs[k].now, reqs[j].now)
    ensures Run(cfg, State(map[], start), reqs)[j].ok
  {
    var served := Run(cfg, State(map[], start), reqs);
    hide Run, Rested, Times, Hits, Apart;
    forall i | 0 <= i < |cfg.limits|
      ensures Rested(cfg.limits[i], Times(cfg, served[..j], i, reqs[j].client), reqs[j].now)
    {
      forall k | 0 <= k < j && Hits(cfg, served[..j][k], i, reqs[j].client)
        ensures Apart(cfg.limits[i], served[..j][k].now, reqs[j].now)
      {
        assert served[..j][k] == served[k] && served[k].now == reqs[k].now;
      }
      SpacedIsRested(cfg, served[..j], i, reqs[j].client, reqs[j].now);
    }
    RestedRequestIsAdmitted(cfg, start, reqs, j);
  }

  /**
   The advertised Retry-After of 60 seconds is enough for every configured rate: a request is admitted if nobody
   charged one of its buckets within the last minute.
   */
  lemma {:induction false} RetryAfterIsEnough(cfg: Config, start: int, reqs: seq<Request>, j: nat)
    requires cfg.Valid() && WellFormed(cfg, reqs) && j < |reqs|
    requires forall i, k | 0 <= i < |cfg.limits| && 0 <= k < j
             && Hits(cfg, Run(cfg, State(map[], start), reqs)[k], i, reqs[j].client) ::
               reqs[k].now + MINUTE <= reqs[j].now
    ensures Run(cfg, State(map[], start), reqs)[j].ok
  {
    forall i, k | 0 <= i < |cfg.limits| && 0 <= k < j && Hits(cfg, Run(cfg, State(map[], start), reqs)[k], i,
      reqs[j].client)
      ensures Apart(cfg.limits[i], reqs[k].now, reqs[j].now)
    {
      LongEnough(cfg.limits[i].rate, reqs[j].now - reqs[k].now);
    }
    SpacedFromCharges(cfg, start, reqs, j);
  }

  lemma {:induction false} LongEnough(rate: int, dt: int)
    requires rate >= 1 && dt >= MINUTE
    ensures rate * dt >= MINUTE
  {
    assert (rate - 1) * dt >= 0;
    assert rate * dt == (rate - 1) * dt + dt;
  }

  /** The j-th request comes at least 60/rate seconds after every earlier request on the same key, limit by limit. */
  ghost predicate Spaced(cfg: Config, reqs: seq<Request>, j: nat)
    requires j < |reqs|
  {
    forall i, k | 0 <= i < |cfg.limits| && 0 <= k < j && Key(cfg, i, reqs[k].client) == Key(cfg, i, reqs[j].client) ::
      Apart(cfg.limits[i], reqs[k].now, reqs[j].now)
  }

  /** A request spaced from the earlier ones on its own keys is never denied, amid any requests on other keys. */
  lemma {:induction false} SpacedStreamIsNeverDenied(cfg: Config, start: int, reqs: seq<Request>, j: nat)
    requires cfg.Valid() && WellFormed(cfg, reqs) && j < |reqs| && Spaced(cfg, reqs, j)
    ensures Run(cfg, State(map[], start), reqs)[j].ok
  {
    hide Run, Key, Apart;
    SpacedFromCharges(cfg, start, reqs, j);
  }

  /** Under a limit for each client, a client who spaces its own requests is never denied, whatever the others send. */
  lemma {:induction false} SpacedClientIsNeverDenied(cfg: Config, start: int, reqs: seq<Request>, j: nat)
    requires cfg.Valid() && |cfg.limits| == 1 && cfg.limits[0].family == PerClient
    requires WellFormed(cfg, reqs) && j < |reqs|
    requires forall k | 0 <= k < j && reqs[k].client == reqs[j].client :: Apart(cfg.limits[0], reqs[k].now, reqs[j].now)
    ensures Run(cfg, State(map[], start), reqs)[j].ok
  {
    forall k | 0 <= k < j && Key(cfg, 0, reqs[k].client) == Key(cfg, 0, reqs[j].client)
      ensures reqs[k].client == reqs[j].client
    {
      KeysDisjoint(cfg, 0, reqs[k].client, 0, reqs[j].client);
    }
    SpacedStreamIsNeverDenied(cfg, start, reqs, j);
  }
}
