/**
 The global limiter in front of all routes: a Redis token bucket with an optional local fallback.

 The local fallback is the local limiter with one global limit.  It makes the same decisions as the Redis
 bucket on the same request times.
 */
module GlobalGate {
  import opened Prelude
  import opened Admission
  import opened Limiter
  import opened LimiterLaw
  import opened LimiterRuns
  import opened LimiterBuckets
  import opened RedisBucket

  function Burst(limit: int, burst: int): int {
    if burst <= 0 then limit else burst
  }

  function Candidates(limit: int, burst: int): seq<Limit> {
    [Limit(PerClient, 0, 0), Limit(PerRoute, 0, 0), Limit(Global, limit, burst)]
  }

  function FallbackConfig(limit: int, burst: int, route: string): (cfg: Config)
    requires limit > 0
    ensures cfg.Valid()
  {
    Config([Limit(Global, limit, Burst(limit, burst))], route)
  }

  /** The fallback is configured with the same rate and the same default burst as the Redis bucket. */
  lemma {:induction false} FallbackIsConfigured(limit: int, burst: int, route: string)
    requires limit > 0
    ensures Config(Configured(Candidates(limit, burst)), route) == FallbackConfig(limit, burst, route)
    ensures GainsAlike(FallbackConfig(limit, burst, route).limits[0].AsQuota(), ScriptQuota(limit, Burst(limit, burst)))
  {
    var c := Candidates(limit, burst);
    var one, two := [c[0]], [c[0], c[1]];
    assert c[..2] == two && two[..1] == one && one[..0] == [];
    assert Configured(one) == [];
    assert Configured(two) == [];
  }

  /** Same burst, and a microsecond earns as much as a thousand nanoseconds. */
  ghost predicate GainsAlike(local: Quota, redis: Quota) {
    local.burst == redis.burst && local.perTick * 1000 as real == redis.perTick
  }

  // ----- The local limiter with one global limit never evicts and follows the law of its one key, whatever its clock.

  ghost predicate GlobalOnly(cfg: Config) {
    cfg.Valid() && |cfg.limits| == 1 && cfg.limits[0].family == Global
  }

  /** The map holds one bucket besides the padding, and it tells the room that the admissions leave, at every time. */
  ghost predicate Fallback(cfg: Config, s: State, past: seq<int>)
    requires GlobalOnly(cfg)
  {
    var q, bucket := cfg.limits[0].AsQuota(), Lookup(s.store, "global");
    s.store.Keys <= {"global", ""} && FullTimeIsRight(q, bucket)
      && forall t :: Available(q, bucket, t) == Level(q, past, t)
  }

  /**
   One request, with any clock reading.  A request that drops the bucket finds a full one and charges it at once, so no
   reading is ever older than a sweep that still matters.
   */
  lemma {:induction false} FallbackStep(cfg: Config, s: State, past: seq<int>, r: Request)
    requires GlobalOnly(cfg) && |r.victims| == 1 && Fallback(cfg, s, past)
    ensures var (s', served) := Step(cfg, s, r);
            && served.ok == Conforms(cfg.limits[0].AsQuota(), past, r.now)
            && Fallback(cfg, s', if served.ok then past + [r.now] else past)
  {
    var q, swept := cfg.limits[0].AsQuota(), Swept(s, r.now).store;
    assert swept.Keys <= s.store.Keys && Key(cfg, 0, r.client) == "global";
    assert Available(q, None, r.now) == q.burst;
    hide Step, Swept, Level, Conforms, Available, Charged;
    SubsetIsSmaller(swept.Keys, {"global", ""});
    SingleLimitStep(cfg, s, r);
    OwnSweepIsInvisible(q, s, "global", r.now);
    LevelDecides(q, past, r.now);
    ChargeTells(q, past, r.now);
  }

  lemma {:induction false} ChargeTells(q: Quota, past: seq<int>, now: int)
    requires q.Valid()
    ensures var bucket := Some(Charged(q, Level(q, past, now), now));
            FullTimeIsRight(q, bucket) && forall t :: Available(q, bucket, t) == Level(q, past + [now], t)
  {
    hide Level;
    forall t ensures Available(q, Some(Charged(q, Level(q, past, now), now)), t) == Level(q, past + [now], t) {
      LevelAppend(q, past, now, t);
    }
  }

  function RequestTimes(reqs: seq<Request>): (times: seq<int>)
    ensures |times| == |reqs|
  {
    seq(|reqs|, j requires 0 <= j < |reqs| => reqs[j].now)
  }

  lemma {:induction false} FallbackTracksLaw(cfg: Config, start: int, reqs: seq<Request>)
    requires GlobalOnly(cfg) && WellFormed(cfg, reqs)
    ensures Fallback(cfg, StateAfter(cfg, State(map[], start), reqs),
            Admitted(cfg.limits[0].AsQuota(), RequestTimes(reqs)))
  {
    if reqs != [] {
      var n := |reqs| - 1;
      assert RequestTimes(reqs)[..n] == RequestTimes(reqs[..n]);
      FallbackTracksLaw(cfg, start, reqs[..n]);
      FallbackStep(cfg, StateAfter(cfg, State(map[], start), reqs[..n]),
                   Admitted(cfg.limits[0].AsQuota(), RequestTimes(reqs[..n])), reqs[n]);
    }
  }

  predicate LocalAdmits(cfg: Config, start: int, reqs: seq<Request>, j: nat)
    requires cfg.Valid() && WellFormed(cfg, reqs) && j < |reqs|
  {
    Step(cfg, StateAfter(cfg, State(map[], start), reqs[..j]), reqs[j]).1.ok
  }

  /**
   The local limiter with one global limit decides by the law, whatever is swept and in whatever order the readings
   come.
   */
  lemma {:induction false} FallbackFollowsLaw(cfg: Config, start: int, reqs: seq<Request>, j: nat)
    requires GlobalOnly(cfg) && WellFormed(cfg, reqs) && j < |reqs|
    ensures LocalAdmits(cfg, start, reqs, j) == LawAdmits(cfg.limits[0].AsQuota(), RequestTimes(reqs), j)
  {
    assert RequestTimes(reqs)[..j] == RequestTimes(reqs[..j]);
    FallbackTracksLaw(cfg, start, reqs[..j]);
    FallbackStep(cfg, StateAfter(cfg, State(map[], start), reqs[..j]),
                 Admitted(cfg.limits[0].AsQuota(), RequestTimes(reqs[..j])), reqs[j]);
  }

  // ----- Equivalence of the two implementations.

  function Nanos(times: seq<int>): (nanos: seq<int>)
    ensures |nanos| == |times|
  {
    seq(|times|, j requires 0 <= j < |times| => 1000 * times[j])
  }

  lemma {:induction false} ConformsScales(local: Quota, redis: Quota, past: seq<int>, t: int)
    requires local.Valid() && redis.Valid() && GainsAlike(local, redis)
    ensures Conforms(local, Nanos(past), 1000 * t) == Conforms(redis, past, t)
  {
    LevelScales(redis, local, 1000, past, Nanos(past), t);
    LevelDecides(redis, past, t);
    LevelDecides(local, Nanos(past), 1000 * t);
  }

  lemma {:induction false} AdmittedScales(local: Quota, redis: Quota, times: seq<int>)
    requires local.Valid() && redis.Valid() && GainsAlike(local, redis)
    ensures Admitted(local, Nanos(times)) == Nanos(Admitted(redis, times))
  {
    if times != [] {
      var n := |times| - 1;
      assert Nanos(times)[..n] == Nanos(times[..n]);
      AdmittedScales(local, redis, times[..n]);
      var past := Admitted(redis, times[..n]);
      ConformsScales(local, redis, past, times[n]);
      assert Nanos(past + [times[n]]) == Nanos(past) + [1000 * times[n]];
    }
  }

  /**
   Redis and the local fallback decide alike.  For every nondecreasing sequence of request times, given in
   microseconds to one and in nanoseconds to the other, the eager bucket with expiring keys and the lazy limiter
   with sweeps admit exactly the same requests.
   */
  lemma {:induction false} RedisAndLocalAgree(limit: int, burst: int, route: string, start: int, calls: seq<Call>,
      reqs: seq<Request>, j: nat)
    requires limit > 0 && Nondecreasing(CallTimes(calls)) && j < |calls| == |reqs|
    requires WellFormed(FallbackConfig(limit, burst, route), reqs)
    requires forall k | 0 <= k < |calls| :: reqs[k].now == 1000 * calls[k].now
    ensures LocalAdmits(FallbackConfig(limit, burst, route), start, reqs, j)
            == RedisAdmits(limit, Burst(limit, burst), calls, j)
  {
    var cfg := FallbackConfig(limit, burst, route);
    var local, redis, times := cfg.limits[0].AsQuota(), ScriptQuota(limit, Burst(limit, burst)), CallTimes(calls);
    assert RequestTimes(reqs) == Nanos(times);
    FallbackIsConfigured(limit, burst, route);
    RedisFollowsLaw(limit, Burst(limit, burst), calls, j);
    FallbackFollowsLaw(cfg, start, reqs, j);
    AdmittedScales(local, redis, times[..j]);
    assert Nanos(times)[..j] == Nanos(times[..j]);
    ConformsScales(local, redis, Admitted(redis, times[..j]), times[j]);
  }

  // ----- The gate with failures.

  /**
   What one request meets when nobody else is served meanwhile: Redis fails before the script ran, fails after it ran,
   or answers.
   */
  datatype Fate = Unreached | ReplyLost(call: Call) | Answered(call: Call)

  datatype Visit = Visit(localNow: int, fate: Fate, victims: seq<string>)

  datatype Reaction = PassedByRedis | PassedByFallback | TooManyRequests | StoreUnavailable

  datatype GateState = GateState(entry: Option<Entry>, local: State)

  function GateStep(limit: int, burst: int, failOpen: bool, cfg: Config, g: GateState, v: Visit): (GateState, Reaction)
    requires limit > 0 && GlobalOnly(cfg) && |v.victims| == 1
  {
    var (entry, allowed) :=
      if v.fate.Unreached? then (g.entry, false)
      else
        var (e, ok) := Script(limit, Burst(limit, burst), Found(g.entry, v.fate.call.now, v.fate.call.reaped),
          v.fate.call.now);
        (Some(e), ok);
    if v.fate.Answered? then
      (GateState(entry, g.local), if allowed then PassedByRedis else TooManyRequests)
    else if !failOpen then
      (GateState(entry, g.local), StoreUnavailable)
    else
      var (local, served) := Step(cfg, g.local, Request("", v.localNow, v.victims));
      (GateState(entry, local), if served.ok then PassedByFallback else TooManyRequests)
  }

  /** The handler: one Redis hash, one local limiter. */
  class Gate {
    const limit: int
    const burst: int
    const failOpen: bool
    const hash: RedisHash
    const fallback: RateLimiter

    ghost predicate Valid() {
      limit > 0 && fallback.cfg == FallbackConfig(limit, burst, fallback.cfg.route)
    }

    ghost function View(): GateState
      reads hash, fallback
    {
      GateState(hash.entry, fallback.View())
    }

    constructor (limit: int, burst: int, key: string, failOpen: bool, now: int)
      requires limit > 0
      ensures Valid() && this.limit == limit && this.burst == burst && this.failOpen == failOpen
      ensures fresh(hash) && fresh(fallback) && View() == GateState(None, State(map[], now))
    {
      FallbackIsConfigured(limit, burst, key);
      this.limit, this.burst, this.failOpen := limit, burst, failOpen;
      hash := new RedisHash();
      var candidates := Candidates(limit, burst);
      assert candidates[2].rate > 0;
      var limiter := NewRateLimit(candidates, key, now);
      fallback := limiter;
    }

    method Serve(localNow: int, fate: Fate) returns (reaction: Reaction, ghost victims: seq<string>)
      requires Valid()
      modifies hash, fallback
      ensures |victims| == 1
      ensures (View(), reaction) == GateStep(limit, burst, failOpen, fallback.cfg, old(View()),
              Visit(localNow, fate, victims))
    {
      var allowed := 0;
      victims := [""];
      if !fate.Unreached? {
        allowed := hash.Eval(limit, Burst(limit, burst), fate.call.now, fate.call.reaped);
      }
      if !fate.Answered? {
        if failOpen {
          var ok;
          ok, victims := fallback.Allow("", localNow);
          reaction := if ok then PassedByFallback else TooManyRequests;
        } else {
          reaction := StoreUnavailable;
        }
      } else {
        reaction := if allowed == 1 then PassedByRedis else TooManyRequests;
      }
    }
  }
}
