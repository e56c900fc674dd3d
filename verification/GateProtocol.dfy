/**
 The global limiter as a concurrent protocol.

 Any number of requests are handled at once.  A handler asks Redis, reads the answer or gives up, and then may ask the
 local fallback; the script in Redis and the fallback under its mutex each run atomically, but the steps of
 different requests interleave freely, and a script may still run after its handler has given up.  With arbitrary
 failures the two stores together let through at most twice what one of them would.
 */
module GateProtocol {
  import opened Prelude
  import opened Admission
  import opened Limiter
  import opened LimiterLaw
  import opened LimiterRuns
  import opened RedisBucket
  import opened GlobalGate

  type Id = nat

  datatype Setup = Setup(limit: int, burst: int, failOpen: bool, route: string) {
    predicate Valid() {
      limit > 0
    }

    function Cfg(): (cfg: Config)
      requires Valid()
      ensures GlobalOnly(cfg)
    {
      FallbackConfig(limit, burst, route)
    }

    function Capacity(): (burst': int)
      requires Valid()
      ensures burst' > 0
    {
      Burst(limit, burst)
    }
  }

  /** What a store decided about a request, and when on its own clock. */
  datatype Decision = Decision(at: int, admitted: bool)

  datatype Stage = Asking | Falling | Replied(reaction: Reaction)

  datatype Handling = Handling(redis: Option<Decision>, local: Option<Decision>, stage: Stage)

  datatype State = State(
    entry: Option<Entry>,
    local: Limiter.State,
    handlings: map<Id, Handling>,
    clock: Option<int>,         // history: the reading of the latest script
    redisPast: seq<int>,        // history: the admissions of each store
    localPast: seq<int>)

  function Start(start: int): State {
    State.State(None, Limiter.State.State(map[], start), map[], None, [], [])
  }

  datatype Action =
    | Arrive(id: Id)
    | RunScript(id: Id, call: Call)
    | ReadReply(id: Id)
    | GiveUp(id: Id)                                        // dialing, writing or reading failed, or timed out
    | Fall(id: Id, now: int, victims: seq<string>)

  predicate Can(s: State, a: Action) {
    match a
    case Arrive(id) => id !in s.handlings
    case RunScript(id, _) => id in s.handlings && s.handlings[id].redis.None?
    case ReadReply(id) => id in s.handlings && s.handlings[id].stage.Asking? && s.handlings[id].redis.Some?
    case GiveUp(id) => id in s.handlings && s.handlings[id].stage.Asking?
    case Fall(id, _, victims) => id in s.handlings && s.handlings[id].stage.Falling? && |victims| == 1
  }

  function Step(g: Setup, s: State, a: Action): State
    requires g.Valid() && Can(s, a)
  {
    match a
    case Arrive(id) => s.(handlings := s.handlings[id := Handling(None, None, Asking)])
    case RunScript(id, call) =>
      var (e, ok) := Script(g.limit, g.Capacity(), Found(s.entry, call.now, call.reaped), call.now);
      s.(entry := Some(e), clock := Some(call.now), redisPast := if ok then s.redisPast + [call.now] else s.redisPast,
         handlings := s.handlings[id := s.handlings[id].(redis := Some(Decision(call.now, ok)))])
    case ReadReply(id) =>
      var h := s.handlings[id];
      s.(handlings := s.handlings[id := h.(stage := Replied(if h.redis.value.admitted then PassedByRedis
        else TooManyRequests))])
    case GiveUp(id) =>
      s.(handlings := s.handlings[id := s.handlings[id].(stage := if g.failOpen then Falling
        else Replied(StoreUnavailable))])
    case Fall(id, now, victims) =>
      var (local, served) := Limiter.Step(g.Cfg(), s.local, Request("", now, victims));
      s.(local := local, localPast := if served.ok then s.localPast + [now] else s.localPast,
         handlings := s.handlings[id := s.handlings[id].(local := Some(Decision(now, served.ok)),
                                                         stage := Replied(if served.ok then PassedByFallback
                                                           else TooManyRequests))])
  }

  /** The clock of Redis advances; the readings of the fallback may come in any order. */
  predicate Timely(s: State, a: Action) {
    a.RunScript? ==> s.clock.None? || s.clock.value <= a.call.now
  }

  // ----- A request that is served alone.

  /** The handler of one request, undisturbed, takes exactly these steps. */
  lemma {:induction false} ServedAlone(g: Setup, s: State, id: Id, v: Visit)
    requires g.Valid() && id !in s.handlings && |v.victims| == 1
    ensures var arrived := Step(g, s, Arrive(id));
            var asked := if v.fate.Unreached? then arrived else Step(g, arrived, RunScript(id, v.fate.call));
            var answered := Step(g, asked, if v.fate.Answered? then ReadReply(id) else GiveUp(id));
            var done := if answered.handlings[id].stage.Falling?
              then Step(g, answered, Fall(id, v.localNow, v.victims)) else answered;
            var (alone, reaction) := GateStep(g.limit, g.burst, g.failOpen, g.Cfg(), GateState(s.entry, s.local), v);
            done.entry == alone.entry && done.local == alone.local && done.handlings[id].stage == Replied(reaction)
  {
  }

  // ----- The accounts of the two stores.

  /** The requests that Redis admitted at times in [lo, hi], whether or not their handlers learnt of it. */
  function ByRedis(handlings: map<Id, Handling>, lo: int, hi: int): set<Id> {
    set id | id in handlings && handlings[id].redis.Some? && handlings[id].redis.value.admitted
      && lo <= handlings[id].redis.value.at <= hi
  }

  function ByFallback(handlings: map<Id, Handling>, lo: int, hi: int): set<Id> {
    set id | id in handlings && handlings[id].local.Some? && handlings[id].local.value.admitted
      && lo <= handlings[id].local.value.at <= hi
  }

  /** What each store has admitted is lawful and known to it. */
  ghost predicate Accounts(g: Setup, s: State)
    requires g.Valid()
  {
    && (s.clock.None? ==> s.entry == None && s.redisPast == [])
    && (s.clock.Some? ==> Tracks(g.limit, g.Capacity(), s.entry, s.redisPast, s.clock.value))
    && Lawful(ScriptQuota(g.limit, g.Capacity()), s.redisPast)
    && Fallback(g.Cfg(), s.local, s.localPast) && Lawful(g.Cfg().limits[0].AsQuota(), s.localPast)
  }

  /** Each admission belongs to one request. */
  ghost predicate Booked(s: State) {
    && (forall lo: int, hi: int :: |ByRedis(s.handlings, lo, hi)| == Within(s.redisPast, lo, hi))
    && (forall lo: int, hi: int :: |ByFallback(s.handlings, lo, hi)| == Within(s.localPast, lo, hi))
  }

  /** A reply says what the store that was asked last decided. */
  predicate Proper(g: Setup, h: Handling) {
    && (h.stage == Replied(PassedByRedis) ==> h.local.None? && h.redis.Some? && h.redis.value.admitted)
    && (h.stage == Replied(PassedByFallback) ==> h.local.Some? && h.local.value.admitted)
    && (h.stage == Replied(TooManyRequests) ==>
          if h.local.Some? then !h.local.value.admitted else h.redis.Some? && !h.redis.value.admitted)
    && (h.stage == Replied(StoreUnavailable) ==> !g.failOpen && h.local.None?)
    && (h.local.Some? ==> h.stage.Replied? && g.failOpen)
    && (h.stage.Falling? ==> g.failOpen && h.local.None?)
  }

  ghost predicate AllProper(g: Setup, s: State) {
    && (forall id | id in s.handlings :: Proper(g, s.handlings[id]))
    && (!g.failOpen ==> s.localPast == [])
  }

  ghost predicate Inv(g: Setup, s: State)
    requires g.Valid()
  {
    Accounts(g, s) && Booked(s) && AllProper(g, s)
  }

  lemma {:induction false} StepKeepsAccounts(g: Setup, s: State, a: Action)
    requires g.Valid() && Accounts(g, s) && Can(s, a) && Timely(s, a)
    ensures Accounts(g, Step(g, s, a))
  {
    hide Script, Limiter.Step, Fallback, Lawful, Conforms, Found, ScriptQuota;
    match a
    case RunScript(_, call) =>
      var q, found := ScriptQuota(g.limit, g.Capacity()), Found(s.entry, call.now, call.reaped);
      FoundIsTracked(g, s, call);
      hide Tracks;
      ScriptFollowsLaw(g.limit, g.Capacity(), found, s.redisPast, call.now);
      if Script(g.limit, g.Capacity(), found, call.now).1 {
        LawfulAppend(q, s.redisPast, call.now);
      }
    case Fall(_, now, victims) =>
      hide Tracks;
      FallbackStep(g.Cfg(), s.local, s.localPast, Request("", now, victims));
      if Conforms(g.Cfg().limits[0].AsQuota(), s.localPast, now) {
        LawfulAppend(g.Cfg().limits[0].AsQuota(), s.localPast, now);
      }
    case _ =>
  }

  lemma {:induction false} FoundIsTracked(g: Setup, s: State, call: Call)
    requires g.Valid() && Accounts(g, s) && (s.clock.None? || s.clock.value <= call.now)
    ensures Tracks(g.limit, g.Capacity(), Found(s.entry, call.now, call.reaped), s.redisPast, call.now)
  {
    if s.clock.Some? {
      FoundTracks(g.limit, g.Capacity(), s.entry, s.redisPast, s.clock.value, call.now, call.reaped);
    }
  }

  lemma {:induction false} RedisDecides(handlings: map<Id, Handling>, id: Id, d: Decision, lo: int, hi: int)
    requires id in handlings && handlings[id].redis.None?
    ensures |ByRedis(handlings[id := handlings[id].(redis := Some(d))], lo, hi)|
            == |ByRedis(handlings, lo, hi)| + if d.admitted && lo <= d.at <= hi then 1 else 0
  {
    var before, after := ByRedis(handlings, lo, hi), ByRedis(handlings[id := handlings[id].(redis := Some(d))], lo, hi);
    assert after == if d.admitted && lo <= d.at <= hi then before + {id} else before;
  }

  lemma {:induction false} FallbackDecides(handlings: map<Id, Handling>, id: Id, h: Handling, d: Decision, lo: int,
      hi: int)
    requires id in handlings && handlings[id].local.None? && h.local == Some(d)
    ensures |ByFallback(handlings[id := h], lo, hi)|
            == |ByFallback(handlings, lo, hi)| + if d.admitted && lo <= d.at <= hi then 1 else 0
  {
    var before, after := ByFallback(handlings, lo, hi), ByFallback(handlings[id := h], lo, hi);
    assert after == if d.admitted && lo <= d.at <= hi then before + {id} else before;
  }

  lemma {:induction false} RedisBooked(g: Setup, s: State, a: Action, lo: int, hi: int)
    requires g.Valid() && Can(s, a) && |ByRedis(s.handlings, lo, hi)| == Within(s.redisPast, lo, hi)
    ensures var t := Step(g, s, a); |ByRedis(t.handlings, lo, hi)| == Within(t.redisPast, lo, hi)
  {
    hide Script, Limiter.Step, Within, Found, Setup.Capacity, Setup.Cfg;
    if a.RunScript? {
      hide ByRedis;
      WithinAppend(s.redisPast, a.call.now, lo, hi);
      var ok := Script(g.limit, g.Capacity(), Found(s.entry, a.call.now, a.call.reaped), a.call.now).1;
      RedisDecides(s.handlings, a.id, Decision(a.call.now, ok), lo, hi);
    } else {
      assert ByRedis(Step(g, s, a).handlings, lo, hi) == ByRedis(s.handlings, lo, hi);
    }
  }

  lemma {:induction false} FallbackBooked(g: Setup, s: State, a: Action, lo: int, hi: int)
    requires g.Valid() && Can(s, a) && |ByFallback(s.handlings, lo, hi)| == Within(s.localPast, lo, hi)
             && AllProper(g, s)
    ensures var t := Step(g, s, a); |ByFallback(t.handlings, lo, hi)| == Within(t.localPast, lo, hi)
  {
    hide Script, Limiter.Step, Within, Found, Setup.Capacity, Setup.Cfg;
    if a.Fall? {
      assert Proper(g, s.handlings[a.id]);
      hide ByFallback;
      WithinAppend(s.localPast, a.now, lo, hi);
      var h := Step(g, s, a).handlings[a.id];
      FallbackDecides(s.handlings, a.id, h, h.local.value, lo, hi);
    } else {
      assert ByFallback(Step(g, s, a).handlings, lo, hi) == ByFallback(s.handlings, lo, hi);
    }
  }

  lemma {:induction false} StepKeepsBooked(g: Setup, s: State, a: Action)
    requires g.Valid() && Booked(s) && AllProper(g, s) && Can(s, a)
    ensures Booked(Step(g, s, a))
  {
    hide Step, Can, ByRedis, ByFallback, Within, AllProper;
    var t := Step(g, s, a);
    forall lo: int, hi: int
      ensures |ByRedis(t.handlings, lo, hi)| == Within(t.redisPast, lo, hi)
      ensures |ByFallback(t.handlings, lo, hi)| == Within(t.localPast, lo, hi)
    {
      assert |ByRedis(s.handlings, lo, hi)| == Within(s.redisPast, lo, hi);
      assert |ByFallback(s.handlings, lo, hi)| == Within(s.localPast, lo, hi);
      RedisBooked(g, s, a, lo, hi);
      FallbackBooked(g, s, a, lo, hi);
    }
  }

  lemma {:induction false} StepKeepsProper(g: Setup, s: State, a: Action)
    requires g.Valid() && AllProper(g, s) && Can(s, a)
    ensures AllProper(g, Step(g, s, a))
  {
    hide Script, Limiter.Step, Found, Setup.Capacity, Setup.Cfg;
  }

  // ----- Runs: any interleaving of any handlers, with any failures.

  ghost predicate IsRun(g: Setup, start: int, actions: seq<Action>)
    requires g.Valid()
    decreases |actions|, 0
  {
    actions == [] ||
    var n := |actions| - 1;
    IsRun(g, start, actions[..n]) && Can(After(g, start, actions[..n]), actions[n])
      && Timely(After(g, start, actions[..n]), actions[n])
  }

  ghost function After(g: Setup, start: int, actions: seq<Action>): State
    requires g.Valid() && IsRun(g, start, actions)
    decreases |actions|, 1
  {
    if actions == [] then Start(start)
    else Step(g, After(g, start, actions[..|actions| - 1]), actions[|actions| - 1])
  }

  lemma {:induction false} StartInv(g: Setup, start: int)
    requires g.Valid()
    ensures Inv(g, Start(start))
  {
    var s := Start(start);
    forall lo: int, hi: int
      ensures |ByRedis(s.handlings, lo, hi)| == Within(s.redisPast, lo, hi)
              && |ByFallback(s.handlings, lo, hi)| == Within(s.localPast, lo, hi)
    {
      assert ByRedis(s.handlings, lo, hi) == {} && ByFallback(s.handlings, lo, hi) == {};
    }
  }

  lemma {:induction false} RunKeepsInv(g: Setup, start: int, actions: seq<Action>)
    requires g.Valid() && IsRun(g, start, actions)
    ensures Inv(g, After(g, start, actions))
  {
    if actions == [] {
      StartInv(g, start);
    } else {
      hide Step, Can, Timely, Accounts, Booked, AllProper;
      var n := |actions| - 1;
      var before := After(g, start, actions[..n]);
      RunKeepsInv(g, start, actions[..n]);
      StepKeepsAccounts(g, before, actions[n]);
      StepKeepsBooked(g, before, actions[n]);
      StepKeepsProper(g, before, actions[n]);
    }
  }

  // ----- The bound.

  /** A window of `length` microseconds on the clock of each of the two stores. */
  datatype Window = Window(localFrom: int, redisFrom: int, length: nat)

  /** The requests let through in the window, each timed by the store that admitted it. */
  function Passed(handlings: map<Id, Handling>, w: Window): set<Id> {
    set id | id in handlings && PassedWithin(handlings[id], w)
  }

  predicate PassedWithin(h: Handling, w: Window) {
    || (h.stage == Replied(PassedByRedis) && h.redis.Some? && w.redisFrom <= h.redis.value.at <= w.redisFrom + w.length)
    || (h.stage == Replied(PassedByFallback) && h.local.Some?
      && w.localFrom <= h.local.value.at <= w.localFrom + 1000 * w.length)
  }

  lemma {:induction false} PassedIsAdmitted(g: Setup, s: State, w: Window)
    requires Booked(s) && AllProper(g, s)
    ensures |Passed(s.handlings, w)| <= Within(s.redisPast, w.redisFrom, w.redisFrom + w.length)
                                        + Within(s.localPast, w.localFrom, w.localFrom + 1000 * w.length)
  {
    var redis := ByRedis(s.handlings, w.redisFrom, w.redisFrom + w.length);
    var local := ByFallback(s.handlings, w.localFrom, w.localFrom + 1000 * w.length);
    assert Passed(s.handlings, w) <= redis + local by {
      forall id | id in Passed(s.handlings, w) ensures id in redis + local {
        assert Proper(g, s.handlings[id]);
      }
    }
    SubsetIsSmaller(Passed(s.handlings, w), redis + local);
    assert |redis + local| <= |redis| + |local|;
  }

  /** Each store has admitted at most one quota within the window. */
  lemma {:induction false} AccountsAreBounded(g: Setup, s: State, w: Window)
    requires g.Valid() && Accounts(g, s)
    ensures var q := ScriptQuota(g.limit, g.Capacity());
            && Within(s.redisPast, w.redisFrom, w.redisFrom + w.length) as real <= q.burst + Gain(q, w.length)
            && Within(s.localPast, w.localFrom, w.localFrom + 1000 * w.length) as real <= q.burst + Gain(q, w.length)
    ensures s.localPast == [] ==> Within(s.localPast, w.localFrom, w.localFrom + 1000 * w.length) == 0
  {
    var q, fallback := ScriptQuota(g.limit, g.Capacity()), g.Cfg().limits[0].AsQuota();
    FallbackIsConfigured(g.limit, g.burst, g.route);
    assert GainsAlike(fallback, q);
    hide Tracks, Fallback, Lawful, Gain, Setup.Capacity, Setup.Cfg, ScriptQuota;
    WindowBound(q, s.redisPast, w.redisFrom, w.redisFrom + w.length);
    WindowBound(fallback, s.localPast, w.localFrom, w.localFrom + 1000 * w.length);
    GainScales(q, fallback, 1000, w.length);
  }

  /**
   The fail-open bound.  However Redis fails and however the handlers interleave, in a window of any length on the
   stores' clocks at most one quota passes when the gate fails closed, and at most two when it fails open.
   */
  lemma {:induction false} GateBound(g: Setup, start: int, actions: seq<Action>, w: Window)
    requires g.Valid() && IsRun(g, start, actions)
    ensures var q := ScriptQuota(g.limit, g.Capacity());
            var quota := q.burst + Gain(q, w.length);
            |Passed(After(g, start, actions).handlings, w)| as real <= if g.failOpen then 2.0 * quota else quota
  {
    RunKeepsInv(g, start, actions);
    hide After, IsRun, Passed, Accounts, Booked, Within, Gain, ScriptQuota, Setup.Capacity;
    var s := After(g, start, actions);
    PassedIsAdmitted(g, s, w);
    AccountsAreBounded(g, s, w);
  }

  // ----- What each request is told.

  /**
   In every run the script decides by the law on the clock of Redis, and the fallback by the law on its own clock,
   each on
   its own admissions so far; an answer is passed on as it is, and a failure leads to the fallback exactly when
   failing open.
   */
  lemma {:induction false} DecidedByLaw(g: Setup, start: int, actions: seq<Action>, a: Action)
    requires g.Valid() && IsRun(g, start, actions) && Can(After(g, start, actions), a)
             && Timely(After(g, start, actions), a)
    ensures var s, t := After(g, start, actions), Step(g, After(g, start, actions), a);
            match a
            case Arrive(id) => t.handlings[id].stage == Asking
            case RunScript(id, call) =>
              t.handlings[id].redis
              == Some(Decision(call.now, Conforms(ScriptQuota(g.limit, g.Capacity()), s.redisPast, call.now)))
            case ReadReply(id) =>
              t.handlings[id].stage
              == Replied(if s.handlings[id].redis.value.admitted then PassedByRedis else TooManyRequests)
            case GiveUp(id) => t.handlings[id].stage == if g.failOpen then Falling else Replied(StoreUnavailable)
            case Fall(id, now, _) =>
              var ok := Conforms(g.Cfg().limits[0].AsQuota(), s.localPast, now);
              && t.handlings[id].local == Some(Decision(now, ok))
              && t.handlings[id].stage == Replied(if ok then PassedByFallback else TooManyRequests)
  {
    RunKeepsInv(g, start, actions);
    var s := After(g, start, actions);
    hide After, IsRun, Script, Limiter.Step, Fallback, Lawful, Conforms, Found, ScriptQuota, Booked, AllProper, Tracks;
    match a
    case RunScript(_, call) =>
      FoundIsTracked(g, s, call);
      ScriptFollowsLaw(g.limit, g.Capacity(), Found(s.entry, call.now, call.reaped), s.redisPast, call.now);
    case Fall(_, now, victims) =>
      FallbackStep(g.Cfg(), s.local, s.localPast, Request("", now, victims));
    case _ =>
  }

  /**
   In every run a request is told what the store that was asked last decided, and a store failure only when failing
   closed.
   */
  lemma {:induction false} RepliesAreDecisions(g: Setup, start: int, actions: seq<Action>, id: Id)
    requires g.Valid() && IsRun(g, start, actions) && id in After(g, start, actions).handlings
    requires After(g, start, actions).handlings[id].stage.Replied?
    ensures var h := After(g, start, actions).handlings[id];
            match h.stage.reaction
            case PassedByRedis => h.local.None? && h.redis.Some? && h.redis.value.admitted
            case PassedByFallback => h.local.Some? && h.local.value.admitted
            case TooManyRequests =>
              if h.local.Some? then !h.local.value.admitted else h.redis.Some? && !h.redis.value.admitted
            case StoreUnavailable => !g.failOpen
  {
    RunKeepsInv(g, start, actions);
    hide After, IsRun, Accounts, Booked;
    assert Proper(g, After(g, start, actions).handlings[id]);
  }
}
