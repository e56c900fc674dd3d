/**
 Round-robin load balancing over a table of targets in cooldown, and the transport that fails over.
 Clock readings, replies, context cancellation and body replay are choices of the environment.
 */
module LoadBalancer {
  import opened Prelude

  const COOLDOWN := 10_000_000_000
  const TWO_63 := 0x8000_0000_0000_0000
  const TWO_64 := 0x1_0000_0000_0000_0000

  datatype Target = Target(scheme: string, host: string) {
    function Key(): string {
      scheme + "://" + host
    }
  }

  type Cooldowns = map<string, int>

  predicate Down(m: Cooldowns, key: string, now: int) {
    key in m && now <= m[key]
  }

  /** Looking at a target deletes its entry once the cooldown is over. */
  function Looked(m: Cooldowns, key: string, now: int): Cooldowns {
    if key in m && now > m[key] then m - {key} else m
  }

  /** The lazy deletion cannot be observed by anyone whose clock is not behind. */
  lemma {:induction false} LookingIsUnobservable(m: Cooldowns, key: string, now: int, other: string, later: int)
    requires now <= later
    ensures Down(Looked(m, key, now), other, later) == Down(m, other, later)
  {
  }

  lemma {:induction false} DownIsKept(m: Cooldowns, key: string, now: int)
    ensures Down(m, key, now) ==> Looked(m, key, now) == m
  {
  }

  class TargetHealth {
    var downUntil: Cooldowns

    constructor ()
      ensures downUntil == map[]
    {
      downUntil := map[];
    }

    method IsDown(key: string, now: int) returns (down: bool)
      modifies this
      ensures down == Down(old(downUntil), key, now) && downUntil == Looked(old(downUntil), key, now)
    {
      if key !in downUntil {
        return false;
      }
      if now > downUntil[key] {
        downUntil := downUntil - {key};
        return false;
      }
      return true;
    }

    method MarkDown(key: string, now: int)
      modifies this
      ensures downUntil == old(downUntil)[key := now + COOLDOWN]
    {
      downUntil := downUntil[key := now + COOLDOWN];
    }
  }

  // ----- Round robin.

  /** The ticket as the signed 64-bit integer the source converts it to. */
  function AsInt64(ticket: int): int {
    if ticket < TWO_63 then ticket else ticket - TWO_64
  }

  /** Remainder with the sign of the dividend. */
  function Remainder(x: int, n: int): int
    requires n > 0
  {
    if x >= 0 then x % n else -((-x) % n)
  }

  /** What the 64-bit counter shows of a number. */
  function Shown(serial: nat): nat {
    serial % TWO_64
  }

  /** The position that the serial-th ticket selects among n targets; out of range, the source panics. */
  function Position(serial: nat, n: int): int
    requires n > 0
  {
    Remainder(AsInt64(Shown(serial)), n)
  }

  predicate Panics(serial: nat, n: int)
    requires n > 0
  {
    !(0 <= Position(serial, n) < n)
  }

  /** A ticket panics exactly if it is 2^63 or more and its distance to 2^64 is no multiple of the number of targets. */
  lemma {:induction false} PanicsExactly(serial: nat, n: int)
    requires n > 0
    ensures Panics(serial, n) <==> Shown(serial) >= TWO_63 && (TWO_64 - Shown(serial)) % n != 0
    ensures Shown(serial) >= TWO_63 && !Panics(serial, n) ==> Position(serial, n) == 0
  {
  }

  /** The first ticket of the upper half, with three targets. */
  lemma {:induction false} UpperHalfPanics()
    ensures Panics(TWO_63, 3) && Position(TWO_63, 3) == -2
  {
    assert TWO_63 == 3 * 0x2AAA_AAAA_AAAA_AAAA + 2;
  }

  /** The first 2^63 tickets select the targets in turn. */
  lemma {:induction false} LowerHalfInTurn(serial: nat, n: int)
    requires n > 0 && serial < TWO_63
    ensures Position(serial, n) == serial % n && !Panics(serial, n)
  {
    SmallRemainder(serial, TWO_64);
  }

  class Balancer {
    const targets: seq<Target>
    const health: TargetHealth
    var counter: nat

    constructor (targets: seq<Target>, health: TargetHealth)
      ensures this.targets == targets && this.health == health && counter == 0
    {
      this.targets, this.health, counter := targets, health, 0;
    }

    /** The atomic increment of the 64-bit counter; it returns the value before. */
    method Take() returns (ticket: nat)
      requires counter < TWO_64
      modifies this
      ensures ticket == old(counter) && counter == Shown(old(counter) + 1)
    {
      ticket := counter;
      counter := Shown(counter + 1);
    }

    /**
     The first target not down in the order of the tickets from the counter, after `skipped` down ones; with all of them
     down, whatever the next ticket selects.  clock(k) is the reading of the k-th look; None stands for the panic
     at a ticket that selects no position.
     */
    method Pick(clock: nat -> int) returns (target: Option<Target>, ghost skipped: nat)
      requires targets != [] && counter < TWO_64
      modifies this, health
      ensures skipped <= |targets| && counter == Shown(old(counter) + skipped + 1)
      ensures forall k: nat | k < skipped :: DownAt(targets, old(counter) + k, old(health.downUntil), clock(k))
      ensures var n, serial, m := |targets|, old(counter) + skipped, old(health.downUntil);
              if Panics(serial, n) then target == None && health.downUntil == m
              else && target == Some(targets[Position(serial, n)])
                   && if skipped == n then health.downUntil == m
                      else && !DownAt(targets, serial, m, clock(skipped))
                           && health.downUntil == Looked(m, target.value.Key(), clock(skipped))
    {
      hide Remainder, AsInt64, Shown, Down, Looked;
      var n := |targets|;
      NextTicket(counter);
      for i := 0 to n
        invariant counter == Shown(old(counter) + i) && health.downUntil == old(health.downUntil)
        invariant forall k: nat | k < i :: DownAt(targets, old(counter) + k, old(health.downUntil), clock(k))
      {
        NextTicket(old(counter) + i);
        var ticket := Take();
        var position := Remainder(AsInt64(ticket), n);
        skipped := i;
        if !(0 <= position < n) {
          return None, skipped;
        }
        DownIsKept(health.downUntil, targets[position].Key(), clock(i));
        var down := health.IsDown(targets[position].Key(), clock(i));
        if !down {
          return Some(targets[position]), skipped;
        }
      }
      NextTicket(old(counter) + n);
      var ticket := Take();
      var position := Remainder(AsInt64(ticket), n);
      skipped := n;
      target := if 0 <= position < n then Some(targets[position]) else None;
    }
  }

  /** The ticket selects a position whose target is down. */
  predicate DownAt(targets: seq<Target>, serial: nat, m: Cooldowns, now: int)
    requires targets != []
  {
    !Panics(serial, |targets|) && Down(m, targets[Position(serial, |targets|)].Key(), now)
  }

  lemma {:induction false} NextTicket(serial: nat)
    ensures Shown(serial) < TWO_64 && Shown(Shown(serial) + 1) == Shown(serial + 1)
    ensures serial < TWO_64 ==> Shown(serial) == serial
  {
  }

  /**
   With all targets down the choice is that of plain round robin: the target after the counter, one full turn later.
   */
  lemma {:induction false} FullTurn(serial: nat, n: nat)
    requires n > 0 && serial + n < TWO_63
    ensures Position(serial + n, n) == Position(serial, n) == serial % n
  {
    hide Position, Panics;
    LowerHalfInTurn(serial, n);
    LowerHalfInTurn(serial + n, n);
    AddMultiple(serial, n);
  }

  lemma {:induction false} MultipleInside(n: int, d: int)
    requires -n < n * d < n
    ensures d == 0
  {
    assert d >= 1 ==> n * d >= n;
    assert d <= -1 ==> n * d <= -n;
  }

  lemma {:induction false} AddMultiple(c: int, n: int)
    requires n > 0
    ensures (c + n) % n == c % n
  {
    var d := (c + n) / n - c / n - 1;
    assert n * d == c % n - (c + n) % n;
    MultipleInside(n, d);
  }

  lemma {:induction false} SmallRemainder(x: int, n: int)
    requires 0 <= x < n
    ensures x % n == x
  {
    assert n * (x / n) == x - x % n;
    MultipleInside(n, x / n);
  }

  // ----- Failover.

  /** The choices of the environment: attempt 0 is the initial one, attempt i the i-th retry. */
  datatype World = World(
    replies: nat -> bool,     // does attempt i get a response
    ended: nat -> bool,       // has the request's context ended after attempt i
    replays: nat -> bool,     // does GetBody succeed for target position p
    // what concurrent requests make of the table before target position p is looked at
    others: (nat, Cooldowns) -> Cooldowns,
    lookAt: nat -> int,       // clock reading when target position p is looked at
    markAt: nat -> int)       // clock reading when attempt i is marked down

  datatype Call = Call(initial: Target, retryable: bool, hasGetBody: bool)

  datatype Status = Trying | Succeeded | Cancelled

  /** The positions retried so far, the cooldown table, and whether the call is over. */
  datatype Progress = Progress(retried: seq<nat>, health: Cooldowns, status: Status)

  function Consider(targets: seq<Target>, call: Call, w: World, p: Progress, i: nat): Progress
    requires i < |targets|
  {
    var target := targets[i];
    if target == call.initial then p
    else
      var found := w.others(i, p.health);
      var health := Looked(found, target.Key(), w.lookAt(i));
      if Down(found, target.Key(), w.lookAt(i)) then p.(health := found)
      else
      if call.hasGetBody && !w.replays(i) then p.(health := health)
      else
        var n := |p.retried| + 1;
        var retried := p.retried + [i];
        if w.replies(n) then Progress(retried, health, Succeeded)
        else if w.ended(n) then Progress(retried, health, Cancelled)
        else Progress(retried, health[target.Key() := w.markAt(n) + COOLDOWN], Trying)
  }

  /** The retry loop over the first i targets. */
  function Retries(targets: seq<Target>, call: Call, w: World, health: Cooldowns, i: nat): Progress
    requires i <= |targets|
  {
    if i == 0 then Progress([], health, Trying)
    else
      var p := Retries(targets, call, w, health, i - 1);
      if p.status.Trying? then Consider(targets, call, w, p, i - 1) else p
  }

  /** The table after the initial attempt. */
  function AfterFirst(call: Call, w: World, health: Cooldowns): Cooldowns {
    if !w.replies(0) && !w.ended(0) && call.retryable then health[call.initial.Key() := w.markAt(0) + COOLDOWN]
      else health
  }

  predicate FailsOver(targets: seq<Target>, call: Call, w: World) {
    !w.replies(0) && |targets| >= 2 && call.retryable
  }

  /** The whole call: retried positions, final table, and success. */
  function Exchange(targets: seq<Target>, call: Call, w: World, health: Cooldowns): (seq<nat>, Cooldowns, bool) {
    var first := AfterFirst(call, w, health);
    if !FailsOver(targets, call, w) then ([], first, w.replies(0))
    else
      var p := Retries(targets, call, w, first, |targets|);
      (p.retried, p.health, p.status.Succeeded?)
  }

  class Transport {
    const targets: seq<Target>
    const health: TargetHealth

    constructor (targets: seq<Target>, health: TargetHealth)
      ensures this.targets == targets && this.health == health
    {
      this.targets, this.health := targets, health;
    }

    /** One turn of the retry loop, for position i, with attempt number `attempt`. */
    method Retry(call: Call, w: World, i: nat, attempt: nat, ghost retried: seq<nat>) returns (status: Status,
        tried: bool)
      requires i < |targets| && attempt == |retried| + 1
      modifies health
      ensures Consider(targets, call, w, Progress(retried, old(health.downUntil), Trying), i)
              == Progress(if tried then retried + [i] else retried, health.downUntil, status)
    {
      var target := targets[i];
      if target.host == call.initial.host && target.scheme == call.initial.scheme {
        return Trying, false;
      }
      health.downUntil := w.others(i, health.downUntil);
      var down := health.IsDown(target.Key(), w.lookAt(i));
      if down {
        return Trying, false;
      }
      if call.hasGetBody && !w.replays(i) {
        return Trying, false;
      }
      if w.replies(attempt) {
        return Succeeded, true;
      }
      if w.ended(attempt) {
        return Cancelled, true;
      }
      health.MarkDown(target.Key(), w.markAt(attempt));
      return Trying, true;
    }

    method RoundTrip(call: Call, w: World) returns (ok: bool, ghost retried: seq<nat>)
      modifies health
      ensures (retried, health.downUntil, ok) == Exchange(targets, call, w, old(health.downUntil))
    {
      retried := [];
      ok := w.replies(0);
      if !ok && !w.ended(0) && call.retryable {
        health.MarkDown(call.initial.Key(), w.markAt(0));
      }
      if ok || |targets| < 2 || !call.retryable {
        return;
      }
      hide Consider;
      ghost var first := health.downUntil;
      var attempt := 1;
      for i := 0 to |targets|
        invariant Retries(targets, call, w, first, i) == Progress(retried, health.downUntil, Trying)
        invariant attempt == |retried| + 1 && !ok
      {
        var status, tried := Retry(call, w, i, attempt, retried);
        if tried {
          retried, attempt := retried + [i], attempt + 1;
        }
        if !status.Trying? {
          OverIsOver(targets, call, w, first, i + 1, |targets|);
          ok := status.Succeeded?;
          return;
        }
      }
    }
  }

  lemma {:induction false} OverIsOver(targets: seq<Target>, call: Call, w: World, health: Cooldowns, i: nat, j: nat)
    requires i <= j <= |targets| && !Retries(targets, call, w, health, i).status.Trying?
    ensures Retries(targets, call, w, health, j) == Retries(targets, call, w, health, i)
    decreases j
  {
    if i < j {
      OverIsOver(targets, call, w, health, i, j - 1);
    }
  }

  /** The retried positions are in order, below i, and none is the initial target. */
  ghost predicate InOrder(targets: seq<Target>, call: Call, r: seq<nat>, i: nat) {
    && (forall k | 0 <= k < |r| :: r[k] < i && r[k] < |targets| && targets[r[k]] != call.initial)
    && (forall k, l | 0 <= k < l < |r| :: r[k] < r[l])
  }

  /** Every attempt but the last failed with a live context, and the last one decides the status. */
  ghost predicate Decided(w: World, p: Progress) {
    var last := |p.retried|;
    && (forall n: nat | 0 < n < last :: !w.replies(n) && !w.ended(n))
    && match p.status
       case Trying => last > 0 ==> !w.replies(last) && !w.ended(last)
       case Succeeded => last > 0 && w.replies(last)
       case Cancelled => last > 0 && !w.replies(last) && w.ended(last)
  }

  /** The table that the look at position j finds. */
  function FoundAt(targets: seq<Target>, call: Call, w: World, health: Cooldowns, j: nat): Cooldowns
    requires j <= |targets|
  {
    w.others(j, Retries(targets, call, w, health, j).health)
  }

  /** Nobody else changes the table during the call. */
  ghost predicate Undisturbed(w: World) {
    forall i, m :: w.others(i, m) == m
  }

  /** Position j was not passed over without a reason. */
  ghost predicate Excused(targets: seq<Target>, call: Call, w: World, health: Cooldowns, r: seq<nat>, j: nat)
    requires j < |targets|
  {
    || targets[j] == call.initial
    || j in r
    || Down(FoundAt(targets, call, w, health, j), targets[j].Key(), w.lookAt(j))
    || (call.hasGetBody && !w.replays(j))
  }

  lemma {:induction false} RetriesInOrder(targets: seq<Target>, call: Call, w: World, health: Cooldowns, i: nat)
    requires i <= |targets|
    ensures InOrder(targets, call, Retries(targets, call, w, health, i).retried, i)
    ensures Decided(w, Retries(targets, call, w, health, i))
  {
    if i > 0 {
      hide Consider, InOrder, Decided;
      RetriesInOrder(targets, call, w, health, i - 1);
      TurnInOrder(targets, call, w, Retries(targets, call, w, health, i - 1), i - 1);
    } else {
      hide Consider;
    }
  }

  lemma {:induction false} TurnInOrder(targets: seq<Target>, call: Call, w: World, p: Progress, i: nat)
    requires i < |targets| && InOrder(targets, call, p.retried, i) && Decided(w, p)
    ensures InOrder(targets, call, p.retried, i + 1)
    ensures var p' := Consider(targets, call, w, p, i);
            p.status.Trying? ==> InOrder(targets, call, p'.retried, i + 1) && Decided(w, p')
  {
    hide Down, Target.Key, Looked;
  }

  lemma {:induction false} RetriesExcused(targets: seq<Target>, call: Call, w: World, health: Cooldowns, i: nat, j: nat)
    requires j < i <= |targets| && Retries(targets, call, w, health, i).status.Trying?
    ensures Excused(targets, call, w, health, Retries(targets, call, w, health, i).retried, j)
  {
    if j < i - 1 {
      RetriesExcused(targets, call, w, health, i - 1, j);
    }
  }

  /**
   The retries go through the targets in configured order, each at most once and never the initial one; all but the
   last failed.
   */
  lemma {:induction false} AttemptsInOrder(targets: seq<Target>, call: Call, w: World, health: Cooldowns)
    ensures var (r, _, ok) := Exchange(targets, call, w, health);
            && (forall k | 0 <= k < |r| :: r[k] < |targets| && targets[r[k]] != call.initial)
            && (forall k, l | 0 <= k < l < |r| :: r[k] < r[l])
            && (forall n: nat | n < |r| :: !w.replies(n))
            && (ok <==> w.replies(|r|))
  {
    if FailsOver(targets, call, w) {
      RetriesInOrder(targets, call, w, AfterFirst(call, w, health), |targets|);
    }
  }

  /**
   A retryable request that fails with a live context has left no target untried without reason: each other target
   was retried, was down when looked at, or its body could not be replayed.  Concurrent requests may change the table
   between the looks in any way.
   */
  lemma {:induction false} FailureIsExhaustive(targets: seq<Target>, call: Call, w: World, health: Cooldowns, j: nat)
    requires call.retryable && |targets| >= 2 && j < |targets| && targets[j] != call.initial
    requires var (r, _, ok) := Exchange(targets, call, w, health); !ok && !w.ended(|r|)
    ensures var (r, _, _) := Exchange(targets, call, w, health);
            || j in r
            || Down(FoundAt(targets, call, w, AfterFirst(call, w, health), j), targets[j].Key(), w.lookAt(j))
            || (call.hasGetBody && !w.replays(j))
  {
    RetriesInOrder(targets, call, w, AfterFirst(call, w, health), |targets|);
    RetriesExcused(targets, call, w, AfterFirst(call, w, health), |targets|, j);
  }

  ghost predicate DistinctKeys(targets: seq<Target>, initial: Target) {
    && (forall i, j | 0 <= i < j < |targets| :: targets[i].Key() != targets[j].Key())
    && (forall i | 0 <= i < |targets| && targets[i] != initial :: targets[i].Key() != initial.Key())
  }

  /** A key that belongs to none of the first i targets keeps its entry through their turns. */
  lemma {:induction false} RetriesTouchOwnKeys(targets: seq<Target>, call: Call, w: World, health: Cooldowns, i: nat,
      key: string)
    requires i <= |targets| && Undisturbed(w)
    requires forall k | 0 <= k < i :: targets[k] == call.initial || targets[k].Key() != key
    ensures var h := Retries(targets, call, w, health, i).health;
            (key in h <==> key in health) && (key in h ==> h[key] == health[key])
  {
    if i > 0 {
      RetriesTouchOwnKeys(targets, call, w, health, i - 1, key);
    }
  }

  /** The k-th retry left its target in cooldown from the time it failed. */
  ghost predicate Marked(targets: seq<Target>, w: World, p: Progress, k: nat)
    requires k < |p.retried|
  {
    && p.retried[k] < |targets|
    && var key := targets[p.retried[k]].Key(); key in p.health && p.health[key] == w.markAt(k + 1) + COOLDOWN
  }

  lemma {:induction false} ConsiderMarks(targets: seq<Target>, call: Call, w: World, p: Progress, i: nat, k: nat)
    requires i < |targets| && Undisturbed(w) && DistinctKeys(targets, call.initial)
             && InOrder(targets, call, p.retried, i)
    requires k < |p.retried| ==> Marked(targets, w, p, k)
    requires var p' := Consider(targets, call, w, p, i); k < |p'.retried| && (p'.status.Trying? || k < |p.retried|)
    ensures Marked(targets, w, Consider(targets, call, w, p, i), k)
  {
    hide Target.Key, Down;
  }

  lemma {:induction false} RetriesMark(targets: seq<Target>, call: Call, w: World, health: Cooldowns, i: nat, k: nat)
    requires i <= |targets| && Undisturbed(w) && DistinctKeys(targets, call.initial)
    requires var p := Retries(targets, call, w, health, i); k < |p.retried| && (p.status.Trying? || k + 1 < |p.retried|)
    ensures Marked(targets, w, Retries(targets, call, w, health, i), k)
  {
    var before := Retries(targets, call, w, health, i - 1);
    RetriesInOrder(targets, call, w, health, i - 1);
    ConsiderGrows(targets, call, w, before, i - 1);
    hide Consider, Marked, DistinctKeys, Decided, InOrder, Undisturbed;
    if k < |before.retried| {
      RetriesMark(targets, call, w, health, i - 1, k);
    }
    if before.status.Trying? {
      ConsiderMarks(targets, call, w, before, i - 1, k);
    }
  }

  lemma {:induction false} ConsiderGrows(targets: seq<Target>, call: Call, w: World, p: Progress, i: nat)
    requires i < |targets|
    ensures var p' := Consider(targets, call, w, p, i);
            p'.retried == p.retried || p'.retried == p.retried + [i]
  {
  }

  /**
   With distinct keys and nobody else changing the table, a retryable request that fails with a live context leaves
   every target it attempted in cooldown from that attempt on, and every other target was already down before the call
   or failed to replay.
   */
  lemma {:induction false} FailureMarksAll(targets: seq<Target>, call: Call, w: World, health: Cooldowns, j: nat)
    requires call.retryable && |targets| >= 2 && Undisturbed(w) && DistinctKeys(targets, call.initial) && j < |targets|
    requires var (r, _, ok) := Exchange(targets, call, w, health); !ok && (forall n: nat | n <= |r| :: !w.ended(n))
    ensures var (r, after, _) := Exchange(targets, call, w, health);
            var key := targets[j].Key();
            if targets[j] == call.initial then key in after && after[key] == w.markAt(0) + COOLDOWN
            else || (exists k: nat | k < |r| :: r[k] == j && key in after && after[key] == w.markAt(k + 1) + COOLDOWN)
                 || Down(health, key, w.lookAt(j))
                 || (call.hasGetBody && !w.replays(j))
  {
    var first := AfterFirst(call, w, health);
    var p := Retries(targets, call, w, first, |targets|);
    RetriesInOrder(targets, call, w, first, |targets|);
    if targets[j] == call.initial {
      RetriesTouchOwnKeys(targets, call, w, first, |targets|, call.initial.Key());
    } else {
      RetriesExcused(targets, call, w, first, |targets|, j);
      RetriesTouchOwnKeys(targets, call, w, first, j, targets[j].Key());
      if j in p.retried {
        var k: nat :| k < |p.retried| && p.retried[k] == j;
        RetriesMark(targets, call, w, first, |targets|, k);
      }
    }
  }

  // ----- Who is put into cooldown, and who is not.

  function EntryOf(m: Cooldowns, key: string): Option<int> {
    if key in m then Some(m[key]) else None
  }

  /** Attempt n was made at that key, got no response, and left the context live. */
  ghost predicate FailedAt(targets: seq<Target>, call: Call, w: World, r: seq<nat>, key: string, n: nat) {
    && !w.replies(n) && !w.ended(n)
    && if n == 0 then key == call.initial.Key()
       else n <= |r| && r[n - 1] < |targets| && targets[r[n - 1]].Key() == key
  }

  /** A look at a target with that key found the cooldown over. */
  ghost predicate SeenExpired(targets: seq<Target>, w: World, entry: Option<int>, key: string) {
    entry.Some? && exists j | 0 <= j < |targets| :: targets[j].Key() == key && entry.value < w.lookAt(j)
  }

  /** Why the entry of a key may have changed during the call. */
  ghost predicate Explained(targets: seq<Target>, call: Call, w: World, r: seq<nat>, before: Option<int>,
      after: Option<int>, key: string) {
    || after == before
    || (after == None && SeenExpired(targets, w, before, key))
    || exists n: nat :: FailedAt(targets, call, w, r, key, n) && after == Some(w.markAt(n) + 10_000_000_000)
  }

  /** What one turn may do to the entry of a key: the last position examined with that key is i. */
  lemma {:induction false} TurnExplained(targets: seq<Target>, call: Call, w: World, p: Progress, i: nat, key: string)
    requires i < |targets| && Undisturbed(w) && p.status.Trying?
    ensures var p' := Consider(targets, call, w, p, i);
            var before, after := EntryOf(p.health, key), EntryOf(p'.health, key);
            && (targets[i] == call.initial || targets[i].Key() != key ==> after == before)
            && (after == before || (after == None && SeenExpired(targets, w, before, key))
                || (FailedAt(targets, call, w, p'.retried, key, |p'.retried|)
                    && after == Some(w.markAt(|p'.retried|) + 10_000_000_000)))
  {
    hide Target.Key;
  }

  lemma {:induction false} RetriesExplained(targets: seq<Target>, call: Call, w: World, health: Cooldowns, i: nat,
      key: string)
    requires i <= |targets| && Undisturbed(w) && DistinctKeys(targets, call.initial)
    requires exists j | 0 <= j < |targets| :: targets[j] != call.initial && targets[j].Key() == key
    ensures var p := Retries(targets, call, w, health, i);
            Explained(targets, call, w, p.retried, EntryOf(health, key), EntryOf(p.health, key), key)
  {
    if i > 0 {
      var before := Retries(targets, call, w, health, i - 1);
      RetriesExplained(targets, call, w, health, i - 1, key);
      if before.status.Trying? {
        if targets[i - 1] != call.initial && targets[i - 1].Key() == key {
          RetriesTouchOwnKeys(targets, call, w, health, i - 1, key);
        } else {
          GrowsExplained(targets, call, w, before, i - 1, EntryOf(health, key), key);
        }
        TurnExplained(targets, call, w, before, i - 1, key);
      }
    }
  }

  /** What explained an entry still does after one more turn. */
  lemma {:induction false} GrowsExplained(targets: seq<Target>, call: Call, w: World, p: Progress, i: nat,
      before: Option<int>, key: string)
    requires i < |targets| && Explained(targets, call, w, p.retried, before, EntryOf(p.health, key), key)
    ensures Explained(targets, call, w, Consider(targets, call, w, p, i).retried, before, EntryOf(p.health, key), key)
  {
    var after := EntryOf(p.health, key);
    ConsiderGrows(targets, call, w, p, i);
    var r' := Consider(targets, call, w, p, i).retried;
    hide Consider, SeenExpired, EntryOf, Target.Key;
    if n: nat :| FailedAt(targets, call, w, p.retried, key, n) && after == Some(w.markAt(n) + 10_000_000_000) {
      assert FailedAt(targets, call, w, r', key, n);
    }
  }

  /**
   Nobody else is put into cooldown.  However a call ends, an entry that is not what it was before has one of two
   reasons:
   an attempt at that very target failed while the context was live, and the entry is ten seconds from then; or it
   was an
   expired entry, and a look deleted it.  In particular a cancelled or successful attempt marks nobody.
   */
  lemma {:induction false} OnlyFailuresMark(targets: seq<Target>, call: Call, w: World, health: Cooldowns, key: string)
    requires Undisturbed(w) && DistinctKeys(targets, call.initial)
    ensures var (r, after, _) := Exchange(targets, call, w, health);
            Explained(targets, call, w, r, EntryOf(health, key), EntryOf(after, key), key)
    ensures !call.retryable ==> EntryOf(Exchange(targets, call, w, health).1, key) == EntryOf(health, key)
  {
    var first := AfterFirst(call, w, health);
    var p := Retries(targets, call, w, first, |targets|);
    var other := exists j | 0 <= j < |targets| :: targets[j] != call.initial && targets[j].Key() == key;
    if other {
      assert EntryOf(first, key) == EntryOf(health, key);
      RetriesExplained(targets, call, w, first, |targets|, key);
    } else {
      RetriesTouchOwnKeys(targets, call, w, first, |targets|, key);
      assert EntryOf(p.health, key) == EntryOf(first, key);
      assert EntryOf(first, key) == EntryOf(health, key)
          || (FailedAt(targets, call, w, [], key, 0) && EntryOf(first, key) == Some(w.markAt(0) + 10_000_000_000));
      assert FailedAt(targets, call, w, p.retried, key, 0) == FailedAt(targets, call, w, [], key, 0);
    }
  }

  /** A retried target was up when it was looked at, and its body could be replayed. */
  lemma {:induction false} RetriedWereUp(targets: seq<Target>, call: Call, w: World, health: Cooldowns, i: nat, k: nat)
    requires i <= |targets| && k < |Retries(targets, call, w, health, i).retried|
    ensures var j := Retries(targets, call, w, health, i).retried[k];
            && j < i
            && !Down(FoundAt(targets, call, w, health, j), targets[j].Key(), w.lookAt(j))
            && (call.hasGetBody ==> w.replays(j))
  {
    var before := Retries(targets, call, w, health, i - 1);
    if k < |before.retried| {
      RetriedWereUp(targets, call, w, health, i - 1, k);
    }
  }

  /** A marked target is down for ten seconds, the last instant included, and up again after. */
  lemma {:induction false} DownForTenSeconds(m: Cooldowns, key: string, at: int, now: int)
    ensures Down(m[key := at + COOLDOWN], key, now) <==> now <= at + 10_000_000_000
  {
  }

  /** Nobody is retried after a response, with a single target, or for a request that must not be retried. */
  lemma {:induction false} OneAttempt(targets: seq<Target>, call: Call, w: World, health: Cooldowns)
    requires w.replies(0) || |targets| < 2 || !call.retryable
    ensures var (r, _, ok) := Exchange(targets, call, w, health); r == [] && ok == w.replies(0)
  {
  }

  /** A request that must not be retried makes one attempt and leaves the cooldown table alone. */
  lemma {:induction false} NotRetried(targets: seq<Target>, call: Call, w: World, health: Cooldowns)
    requires !call.retryable
    ensures Exchange(targets, call, w, health) == ([], health, w.replies(0))
  {
  }
}
