/**
 The token bucket that runs inside Redis, and its equivalence to the local one.

 The script refills eagerly: it stores the refilled count and the time also when it denies, and lets the key
 expire.  Its clock counts microseconds.  When and whether an expired key is reaped is up to Redis, hence an
 input.  Both this bucket and the local limiter configured with one global limit follow the same admission law
 on nondecreasing clocks, so neither eager refills nor expiry can be observed.
 */
module RedisBucket {
  import opened Prelude
  import opened Admission
  import opened Limiter
  import opened LimiterLaw
  import opened LimiterRuns

  const MICROS := 1_000_000
  const MICROS_PER_MINUTE := 60_000_000

  /** The hash stored under the bucket's key, with the time from which on it may be gone. */
  datatype Entry = Entry(tokens: real, updated: int, expires: int)

  function ScriptQuota(rate: int, burst: int): (q: Quota)
    requires rate > 0 && burst > 0
    ensures q.Valid()
  {
    Quota(burst as real, rate as real / MICROS_PER_MINUTE as real)
  }

  /** Seconds to live: twice the time to fill up, rounded up, and at least one. */
  function TimeToLive(rate: int, burst: int): int
    requires rate > 0
  {
    var seconds := (burst * 120 + rate - 1) / rate;
    if seconds < 1 then 1 else seconds
  }

  function Found(entry: Option<Entry>, now: int, reaped: bool): Option<Entry> {
    if entry.Some? && reaped && entry.value.expires <= now then None else entry
  }

  function Script(rate: int, burst: int, found: Option<Entry>, now: int): (Entry, bool)
    requires rate > 0 && burst > 0
  {
    var q := ScriptQuota(rate, burst);
    var tokens := if found.Some? then found.value.tokens else burst as real;
    var updated := if found.Some? then found.value.updated else now;
    var refilled := Min(burst as real, tokens + Gain(q, if now - updated > 0 then now - updated else 0));
    var allowed := refilled >= 1.0;
    (Entry(if allowed then refilled - 1.0 else refilled, now, now + TimeToLive(rate, burst) * MICROS), allowed)
  }

  /** The key's value in Redis; the script replaces it in place. */
  class RedisHash {
    var entry: Option<Entry>

    constructor ()
      ensures entry == None
    {
      entry := None;
    }

    method Eval(rate: int, burst: int, now: int, reaped: bool) returns (allowed: int)
      requires rate > 0 && burst > 0
      modifies this
      ensures var (e, ok) := Script(rate, burst, Found(old(entry), now, reaped), now);
              entry == Some(e) && allowed == if ok then 1 else 0
    {
      if entry.Some? && reaped && entry.value.expires <= now {
        entry := None;
      }
      var tokens, updated := burst as real, now;
      if entry.Some? {
        tokens, updated := entry.value.tokens, entry.value.updated;
      }
      var elapsed := if now - updated > 0 then now - updated else 0;
      tokens := Min(burst as real, tokens + Gain(ScriptQuota(rate, burst), elapsed));
      allowed := 0;
      if tokens >= 1.0 {
        tokens := tokens - 1.0;
        allowed := 1;
      }
      entry := Some(Entry(tokens, now, now + TimeToLive(rate, burst) * MICROS));
    }
  }

  function Room(q: Quota, entry: Option<Entry>, t: int): real {
    match entry
    case None => q.burst
    case Some(e) => Min(q.burst, e.tokens + Gain(q, t - e.updated))
  }

  /** From the last script call on, the stored hash tells the same room as the history of admissions. */
  ghost predicate Tracks(rate: int, burst: int, entry: Option<Entry>, past: seq<int>, clock: int)
    requires rate > 0 && burst > 0
  {
    var q := ScriptQuota(rate, burst);
    && (forall t | clock <= t :: Room(q, entry, t) == Level(q, past, t))
    && (entry.Some? ==>
          var e := entry.value;
          e.updated <= clock && e.tokens >= 0.0 && e.expires == e.updated + TimeToLive(rate, burst) * MICROS)
  }

  /** The time to live is the least number of seconds, and at least one, that covers twice the time to fill up. */
  lemma {:induction false} TimeToLiveIsTight(rate: int, burst: int)
    requires rate > 0
    ensures var ttl := TimeToLive(rate, burst);
            ttl >= 1 && ttl * rate >= burst * 120 && (ttl > 1 ==> (ttl - 1) * rate < burst * 120)
  {
    var a := burst * 120 + rate - 1;
    assert a == a / rate * rate + a % rate;
    assert TimeToLive(rate, burst) == 1 && a / rate < 1 ==> a < rate;
  }

  /** A key that may have expired belongs to a bucket that is full again. */
  lemma {:induction false} ExpiredIsFull(rate: int, burst: int, e: Entry, t: int)
    requires rate > 0 && burst > 0 && e.tokens >= 0.0
    requires e.expires == e.updated + TimeToLive(rate, burst) * MICROS && e.expires <= t
    ensures Room(ScriptQuota(rate, burst), Some(e), t) == burst as real
  {
    var q, ttl, dt := ScriptQuota(rate, burst), TimeToLive(rate, burst), t - e.updated;
    assert ttl * rate >= burst * 120;
    assert rate * dt >= rate * (ttl * MICROS) == (ttl * rate) * MICROS;
    assert (rate * dt) as real == rate as real * dt as real;
    assert Gain(q, dt) == (rate * dt) as real / MICROS_PER_MINUTE as real;
  }

  lemma {:induction false} FoundTracks(rate: int, burst: int, entry: Option<Entry>, past: seq<int>, clock: int,
      now: int, reaped: bool)
    requires rate > 0 && burst > 0 && Tracks(rate, burst, entry, past, clock) && clock <= now
    ensures Tracks(rate, burst, Found(entry, now, reaped), past, now)
  {
    if entry.Some? && reaped && entry.value.expires <= now {
      forall t | now <= t ensures burst as real == Level(ScriptQuota(rate, burst), past, t) {
        ExpiredIsFull(rate, burst, entry.value, t);
      }
    }
  }

  /** One script call decides by the law, and keeps tracking the history, whether it admits or denies. */
  lemma {:induction false} ScriptFollowsLaw(rate: int, burst: int, found: Option<Entry>, past: seq<int>, now: int)
    requires rate > 0 && burst > 0 && Tracks(rate, burst, found, past, now)
    ensures var (e, ok) := Script(rate, burst, found, now);
            && ok == Conforms(ScriptQuota(rate, burst), past, now)
            && Tracks(rate, burst, Some(e), if ok then past + [now] else past, now)
  {
    var q := ScriptQuota(rate, burst);
    var (e, ok) := Script(rate, burst, found, now);
    var level := Level(q, past, now);
    assert Gain(q, 0) == 0.0;
    assert Room(q, found, now) == level;
    LevelDecides(q, past, now);
    if found.Some? {
      GainMonotone(q, 0, now - found.value.updated);
    }
    forall t | now <= t
      ensures Room(q, Some(e), t) == Level(q, if ok then past + [now] else past, t)
    {
      LevelAppend(q, past, now, t);
      LevelRefills(q, past, now, t);
    }
  }

  // ----- Whole runs on one bucket, described by the times of the requests alone.

  /** The times admitted by the law out of a sequence of request times. */
  function Admitted(q: Quota, times: seq<int>): seq<int> {
    if times == [] then []
    else
      var n := |times| - 1;
      var past := Admitted(q, times[..n]);
      if Conforms(q, past, times[n]) then past + [times[n]] else past
  }

  /** The law's decision on the j-th request. */
  predicate LawAdmits(q: Quota, times: seq<int>, j: nat)
    requires j < |times|
  {
    Conforms(q, Admitted(q, times[..j]), times[j])
  }

  ghost predicate Nondecreasing(times: seq<int>) {
    forall j | 0 < j < |times| :: times[j - 1] <= times[j]
  }

  datatype Call = Call(now: int, reaped: bool)

  function CallTimes(calls: seq<Call>): (times: seq<int>)
    ensures |times| == |calls|
  {
    seq(|calls|, j requires 0 <= j < |calls| => calls[j].now)
  }

  function EntryAfter(rate: int, burst: int, calls: seq<Call>): Option<Entry>
    requires rate > 0 && burst > 0
  {
    if calls == [] then None
    else
      var n := |calls| - 1;
      Some(Script(rate, burst, Found(EntryAfter(rate, burst, calls[..n]), calls[n].now, calls[n].reaped),
        calls[n].now).0)
  }

  predicate RedisAdmits(rate: int, burst: int, calls: seq<Call>, j: nat)
    requires rate > 0 && burst > 0 && j < |calls|
  {
    Script(rate, burst, Found(EntryAfter(rate, burst, calls[..j]), calls[j].now, calls[j].reaped), calls[j].now).1
  }

  lemma {:induction false} EntryTracksLaw(rate: int, burst: int, calls: seq<Call>)
    requires rate > 0 && burst > 0 && Nondecreasing(CallTimes(calls))
    ensures var q, times := ScriptQuota(rate, burst), CallTimes(calls);
            Tracks(rate, burst, EntryAfter(rate, burst, calls), Admitted(q, times),
              if calls == [] then 0 else times[|times| - 1])
    ensures calls == [] ==> EntryAfter(rate, burst, calls) == None
  {
    if calls != [] {
      var n := |calls| - 1;
      var q, times := ScriptQuota(rate, burst), CallTimes(calls);
      assert CallTimes(calls[..n]) == times[..n];
      EntryTracksLaw(rate, burst, calls[..n]);
      var entry, past, now := EntryAfter(rate, burst, calls[..n]), Admitted(q, times[..n]), calls[n].now;
      hide Tracks, Script, Conforms, ScriptQuota, Found;
      if n > 0 {
        assert times[n - 1] <= times[n] && times[..n][n - 1] == times[n - 1];
        FoundTracks(rate, burst, entry, past, times[n - 1], now, calls[n].reaped);
      }
      ScriptFollowsLaw(rate, burst, Found(entry, now, calls[n].reaped), past, now);
    }
  }

  /** The Redis bucket decides by the law, whatever keys expire, on every nondecreasing sequence of clock readings. */
  lemma {:induction false} RedisFollowsLaw(rate: int, burst: int, calls: seq<Call>, j: nat)
    requires rate > 0 && burst > 0 && Nondecreasing(CallTimes(calls)) && j < |calls|
    ensures RedisAdmits(rate, burst, calls, j) == LawAdmits(ScriptQuota(rate, burst), CallTimes(calls), j)
  {
    var q, times := ScriptQuota(rate, burst), CallTimes(calls);
    assert CallTimes(calls[..j]) == times[..j];
    EntryTracksLaw(rate, burst, calls[..j]);
    var entry, past := EntryAfter(rate, burst, calls[..j]), Admitted(q, times[..j]);
    if j > 0 {
      FoundTracks(rate, burst, entry, past, times[j - 1], times[j], calls[j].reaped);
    }
    ScriptFollowsLaw(rate, burst, Found(entry, times[j], calls[j].reaped), past, times[j]);
  }

  /** A clock that runs backwards breaks the law: the bucket earns the same five seconds twice. */
  lemma {:induction false} BackwardClockBreaksLaw()
    ensures var calls := [Call(10 * MICROS, false), Call(5 * MICROS, false), Call(10 * MICROS, false)];
            RedisAdmits(60, 1, calls, 2) && !LawAdmits(ScriptQuota(60, 1), CallTimes(calls), 2)
  {
    var q := ScriptQuota(60, 1);
    var a, b, c := Call(10 * MICROS, false), Call(5 * MICROS, false), Call(10 * MICROS, false);
    assert q.perTick * 1_000_000.0 == 1.0;
    assert Gain(q, 5 * MICROS) == 5.0 && Gain(q, 0) == 0.0 && Gain(q, -5 * MICROS) == -5.0;
    var e1 := Script(60, 1, None, a.now).0;
    assert [a][..0] == [] && [a, b][..1] == [a] && [a, b, c][..2] == [a, b];
    assert EntryAfter(60, 1, [a]) == Some(e1) && e1.tokens == 0.0;
    var e2 := Script(60, 1, Some(e1), b.now).0;
    assert EntryAfter(60, 1, [a, b]) == Some(e2) && e2.tokens == 0.0 && e2.updated == b.now;
    var x, y := a.now, b.now;
    assert CallTimes([a, b, c])[..2] == [x, y] && [x, y][..1] == [x] && [x][..0] == [];
    assert Admitted(q, [x]) == [x];
    assert !Conforms(q, [x], y) by {
      assert [x][0] == x;
    }
    assert Admitted(q, [x, y]) == [x];
    assert [x][0] == x;
  }

  // ----- Exactly the nondecreasing clocks.

  /** Every bucket decides every request by the law, on calls with these clock readings, whatever expires. */
  ghost predicate AlwaysLawful(times: seq<int>) {
    forall rate, burst, calls, j: nat | rate > 0 && burst > 0 && CallTimes(calls) == times && j < |calls| ::
      RedisAdmits(rate, burst, calls, j) == LawAdmits(ScriptQuota(rate, burst), times, j)
  }

  /** The Redis bucket follows the law for every rate and burst if and only if its clock never runs backwards. */
  lemma {:induction false} LawfulExactlyIfOrdered(times: seq<int>)
    ensures AlwaysLawful(times) <==> Nondecreasing(times)
  {
    if Nondecreasing(times) {
      forall rate, burst, calls, j: nat | rate > 0 && burst > 0 && CallTimes(calls) == times && j < |calls|
        ensures RedisAdmits(rate, burst, calls, j) == LawAdmits(ScriptQuota(rate, burst), times, j)
      {
        RedisFollowsLaw(rate, burst, calls, j);
      }
    } else {
      var k := FirstDescent(times);
      var rate, burst := MICROS_PER_MINUTE * (k + 1), k + 2;
      var calls := Kept(times);
      hide RedisAdmits, LawAdmits, Nondecreasing;
      DescentAdmits(times, k);
      DescentRefused(times, k);
      assert CallTimes(calls) == times && k + 1 < |calls|;
      assert RedisAdmits(rate, burst, calls, k + 1) != LawAdmits(ScriptQuota(rate, burst), times, k + 1);
    }
  }

  lemma {:induction false} FirstDescent(times: seq<int>) returns (k: nat)
    requires !Nondecreasing(times)
    ensures k + 1 < |times| && times[k] > times[k + 1] && Nondecreasing(times[..k + 1])
  {
    var n := |times| - 1;
    if Nondecreasing(times[..n]) {
      k := n - 1;
      assert times[..n][..k + 1] == times[..n];
      forall i | 0 < i < n ensures times[i - 1] <= times[i] {
        assert times[..n][i - 1] <= times[..n][i];
      }
    } else {
      k := FirstDescent(times[..n]);
      assert times[..n][..k + 1] == times[..k + 1];
    }
  }

  /** Calls at these times, with a key that is never reaped. */
  function Kept(times: seq<int>): (calls: seq<Call>)
    ensures |calls| == |times| && CallTimes(calls) == times
  {
    var calls := seq(|times|, j requires 0 <= j < |times| => Call(times[j], false));
    assert CallTimes(calls) == times;
    calls
  }

  /** Whatever the clock does, one call takes at most one token. */
  lemma {:induction false} TokensLast(rate: int, burst: int, calls: seq<Call>)
    requires rate > 0 && burst > 0 && forall j | 0 <= j < |calls| :: !calls[j].reaped
    ensures calls != [] ==> var e := EntryAfter(rate, burst, calls);
                            e.Some? && e.value.updated == calls[|calls| - 1].now
                              && e.value.tokens >= (burst - |calls|) as real
  {
    if calls != [] {
      var n := |calls| - 1;
      TokensLast(rate, burst, calls[..n]);
      var found := Found(EntryAfter(rate, burst, calls[..n]), calls[n].now, calls[n].reaped);
      CallTakesOne(rate, burst, found, calls[n].now);
    }
  }

  lemma {:induction false} CallTakesOne(rate: int, burst: int, found: Option<Entry>, now: int)
    requires rate > 0 && burst > 0
    ensures var (e, ok) := Script(rate, burst, found, now);
            var before := if found.Some? then found.value.tokens else burst as real;
            && e.tokens >= Min(burst as real, before) - 1.0
            && (Min(burst as real, before) >= 1.0 ==> ok)
  {
    var q := ScriptQuota(rate, burst);
    var elapsed := if found.Some? && now - found.value.updated > 0 then now - found.value.updated else 0;
    GainMonotone(q, 0, elapsed);
    assert Gain(q, 0) == 0.0;
  }

  /** With a token to spare the script admits, also when its clock runs backwards. */
  lemma {:induction false} DescentAdmits(times: seq<int>, k: nat)
    requires k + 1 < |times|
    ensures RedisAdmits(MICROS_PER_MINUTE * (k + 1), k + 2, Kept(times), k + 1)
  {
    var calls := Kept(times);
    TokensLast(MICROS_PER_MINUTE * (k + 1), k + 2, calls[..k + 1]);
    CallTakesOne(MICROS_PER_MINUTE * (k + 1), k + 2, EntryAfter(MICROS_PER_MINUTE * (k + 1), k + 2, calls[..k + 1]),
      times[k + 1]);
  }

  /** A bucket with room for all of them admits every request of an ordered sequence. */
  lemma {:induction false} SmallSequencesAreAdmitted(q: Quota, times: seq<int>)
    requires q.Valid() && Nondecreasing(times) && |times| as real <= q.burst
    ensures Admitted(q, times) == times
  {
    if times != [] {
      var n := |times| - 1;
      hide Conforms;
      SmallSequencesAreAdmitted(q, times[..n]);
      RoomForAll(q, times, n);
    }
  }

  lemma {:induction false} RoomForAll(q: Quota, times: seq<int>, n: nat)
    requires q.Valid() && Nondecreasing(times) && n < |times| && |times| as real <= q.burst
    ensures Conforms(q, times[..n], times[n])
  {
    assert Gain(q, 0) == 0.0;
    hide Gain;
    forall i | 0 <= i < n ensures (n - i + 1) as real <= q.burst + Gain(q, times[n] - times[..n][i]) {
      Sorted(times, i, n);
      GainMonotone(q, 0, times[n] - times[i]);
    }
  }

  lemma {:induction false} Sorted(times: seq<int>, i: nat, j: nat)
    requires Nondecreasing(times) && i <= j < |times|
    ensures times[i] <= times[j]
  {
    if i < j {
      Sorted(times, i, j - 1);
    }
  }

  /** The law refuses the request after the descent: at its earlier time the latest admission leaves no room. */
  lemma {:induction false} DescentRefused(times: seq<int>, k: nat)
    requires k + 1 < |times| && times[k] > times[k + 1] && Nondecreasing(times[..k + 1])
    ensures !LawAdmits(ScriptQuota(MICROS_PER_MINUTE * (k + 1), k + 2), times, k + 1)
  {
    var q := ScriptQuota(MICROS_PER_MINUTE * (k + 1), k + 2);
    var past, t := times[..k + 1], times[k + 1];
    SmallSequencesAreAdmitted(q, past);
    assert q.perTick == (k + 1) as real;
    assert Gain(q, -1) == -((k + 1) as real);
    GainMonotone(q, t - past[k], -1);
    assert (|past| - k + 1) as real > q.burst + Gain(q, t - past[k]);
  }
}
