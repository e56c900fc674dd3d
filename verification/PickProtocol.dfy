/**
 Target picking as a concurrent protocol.

 Any number of requests pick a target at the same time.  They share the ticket counter, incremented atomically, and the
 table of cooldowns, guarded by its mutex; other requests may put targets into cooldown at any moment.  A step is
 one increment, one look at the table, or one such change of it.
 */
module PickProtocol {
  import opened Prelude
  import opened LoadBalancer

  type Id = nat

  /** Tickets are identified by their serial number; the 64-bit counter shows the serial modulo 2^64. */
  datatype Phase =
    | Ready(looks: nat)                       // that many tickets found their target down
    | Holding(serial: nat, looks: nat)        // about to look at the ticket's target
    | Returned(serial: nat, target: Target)
    | Panicked(serial: nat)

  datatype State = State(counter: nat, health: Cooldowns, picks: map<Id, Phase>, taken: nat)

  const START := State(0, map[], map[], 0)

  datatype Action = Begin(id: Id) | TakeTicket(id: Id) | Look(id: Id, now: int) | MarkDown(key: string, now: int)

  predicate Can(targets: seq<Target>, s: State, a: Action) {
    match a
    case Begin(id) => id !in s.picks
    case TakeTicket(id) => id in s.picks && s.picks[id].Ready?
    case Look(id, _) => id in s.picks && s.picks[id].Holding? && targets != [] && !Panics(s.picks[id].serial, |targets|)
    case MarkDown(_, _) => true
  }

  /** What a pick does with the ticket it was given; after a full round of down targets it does not look any more. */
  function Given(targets: seq<Target>, serial: nat, ticket: nat, looks: nat): Phase
    requires targets != []
  {
    var position := Remainder(AsInt64(ticket), |targets|);
    if !(0 <= position < |targets|) then Panicked(serial)
    else if looks < |targets| then Holding(serial, looks)
    else Returned(serial, targets[position])
  }

  function Step(targets: seq<Target>, s: State, a: Action): State
    requires targets != [] && Can(targets, s, a)
  {
    match a
    case Begin(id) => s.(picks := s.picks[id := Ready(0)])
    case TakeTicket(id) =>
      s.(picks := s.picks[id := Given(targets, s.taken, s.counter, s.picks[id].looks)],
         counter := Shown(s.counter + 1), taken := s.taken + 1)
    case Look(id, now) =>
      var target := targets[Position(s.picks[id].serial, |targets|)];
      if Down(s.health, target.Key(), now) then s.(picks := s.picks[id := Ready(s.picks[id].looks + 1)])
      else s.(picks := s.picks[id := Returned(s.picks[id].serial, target)],
        health := Looked(s.health, target.Key(), now))
    case MarkDown(key, now) => s.(health := s.health[key := now + COOLDOWN])
  }

  /** A look that finds its target up. */
  predicate FindsUp(targets: seq<Target>, s: State, a: Action)
    requires targets != [] && Can(targets, s, a)
  {
    a.Look? ==> !DownAt(targets, s.picks[a.id].serial, s.health, a.now)
  }

  function SerialOf(phase: Phase): Option<nat> {
    if phase.Ready? then None else Some(phase.serial)
  }

  predicate Owns(picks: map<Id, Phase>, id: Id, serial: nat) {
    id in picks && SerialOf(picks[id]) == Some(serial)
  }

  ghost predicate Owned(picks: map<Id, Phase>, serial: nat) {
    exists id :: Owns(picks, id, serial)
  }

  // ----- The invariant.

  /** No ticket is in two hands, and each pick stands where its ticket says. */
  ghost predicate Inv(targets: seq<Target>, s: State)
    requires targets != []
  {
    && s.counter == Shown(s.taken)
    && (forall id | id in s.picks && !s.picks[id].Ready? :: s.picks[id].serial < s.taken)
    && (forall id, other | id in s.picks && other in s.picks && id != other && !s.picks[id].Ready?
      && !s.picks[other].Ready? ::
          s.picks[id].serial != s.picks[other].serial)
    && (forall id | id in s.picks :: Stands(targets, s.picks[id]))
  }

  predicate Stands(targets: seq<Target>, phase: Phase)
    requires targets != []
  {
    match phase
    case Ready(_) => true
    case Holding(serial, _) => !Panics(serial, |targets|)
    case Returned(serial, target) => !Panics(serial, |targets|) && target == targets[Position(serial, |targets|)]
    case Panicked(serial) => Panics(serial, |targets|)
  }

  /** As long as every look finds its target up, no ticket is ever thrown away. */
  ghost predicate NoneLost(s: State) {
    && (forall id | id in s.picks && s.picks[id].Ready? :: s.picks[id].looks == 0)
    && (forall serial: nat | serial < s.taken :: Owned(s.picks, serial))
  }

  lemma {:induction false} StepKeepsInv(targets: seq<Target>, s: State, a: Action)
    requires targets != [] && Inv(targets, s) && Can(targets, s, a)
    ensures Inv(targets, Step(targets, s, a))
  {
    hide Remainder, AsInt64, Down, Looked, Target.Key;
    if a.TakeTicket? {
      NextTicket(s.taken);
      GivenStands(targets, s.taken, s.picks[a.id].looks);
      hide Position, Panics, Given, Stands;
    } else {
      hide Position, Panics;
    }
  }

  lemma {:induction false} GivenStands(targets: seq<Target>, serial: nat, looks: nat)
    requires targets != []
    ensures var phase := Given(targets, serial, Shown(serial), looks);
            Stands(targets, phase) && SerialOf(phase) == Some(serial)
  {
    hide Remainder, AsInt64;
  }

  lemma {:induction false} StepLosesNone(targets: seq<Target>, s: State, a: Action)
    requires targets != [] && Inv(targets, s) && NoneLost(s) && Can(targets, s, a) && FindsUp(targets, s, a)
    ensures NoneLost(Step(targets, s, a))
  {
    hide Remainder, AsInt64, Looked, Position, Panics, Target.Key;
    var t := Step(targets, s, a);
    forall serial: nat | serial < t.taken
      ensures Owned(t.picks, serial)
    {
      if serial < s.taken {
        assert Owned(s.picks, serial);
        var id :| Owns(s.picks, id, serial);
        assert Owns(t.picks, id, serial);
      } else {
        assert Owns(t.picks, a.id, serial);
      }
    }
  }

  // ----- Runs: any interleaving of any picks.

  ghost predicate IsRun(targets: seq<Target>, actions: seq<Action>)
    requires targets != []
    decreases |actions|, 0
  {
    actions == [] || (IsRun(targets, actions[..|actions| - 1])
                      && Can(targets, After(targets, actions[..|actions| - 1]), actions[|actions| - 1]))
  }

  ghost function After(targets: seq<Target>, actions: seq<Action>): State
    requires targets != [] && IsRun(targets, actions)
    decreases |actions|, 1
  {
    if actions == [] then START
    else Step(targets, After(targets, actions[..|actions| - 1]), actions[|actions| - 1])
  }

  /** A run in which every look finds its target up. */
  ghost predicate AllUp(targets: seq<Target>, actions: seq<Action>)
    requires targets != [] && IsRun(targets, actions)
  {
    actions == [] || (AllUp(targets, actions[..|actions| - 1])
                      && FindsUp(targets, After(targets, actions[..|actions| - 1]), actions[|actions| - 1]))
  }

  lemma {:induction false} RunKeepsInv(targets: seq<Target>, actions: seq<Action>)
    requires targets != [] && IsRun(targets, actions)
    ensures Inv(targets, After(targets, actions))
    ensures AllUp(targets, actions) ==> NoneLost(After(targets, actions))
  {
    if actions != [] {
      hide Step, Can, Inv, NoneLost, FindsUp;
      var n := |actions| - 1;
      RunKeepsInv(targets, actions[..n]);
      StepKeepsInv(targets, After(targets, actions[..n]), actions[n]);
      if AllUp(targets, actions) {
        StepLosesNone(targets, After(targets, actions[..n]), actions[n]);
      }
    }
  }

  /**
   In every interleaving a ticket is in the hands of at most one pick, a pick that returns has the target its ticket
   selects, and a pick fails exactly on a ticket that selects none.
   */
  lemma {:induction false} TicketsAreExclusive(targets: seq<Target>, actions: seq<Action>, id: Id, other: Id,
      serial: nat)
    requires targets != [] && IsRun(targets, actions) && Owns(After(targets, actions).picks, id, serial)
    ensures Owns(After(targets, actions).picks, other, serial) ==> other == id
    ensures match After(targets, actions).picks[id]
            case Returned(_, target) => !Panics(serial, |targets|) && target == targets[Position(serial, |targets|)]
            case Panicked(_) => Panics(serial, |targets|)
            case _ => true
  {
    RunKeepsInv(targets, actions);
  }

  /**
   A ticket is taken without a look exactly after as many down targets as there are; otherwise its target is looked
   at.
   */
  lemma {:induction false} LooksUnlessAllDown(targets: seq<Target>, s: State, id: Id)
    requires targets != [] && Inv(targets, s) && Can(targets, s, TakeTicket(id)) && !Panics(s.taken, |targets|)
    ensures var looks := s.picks[id].looks;
            Step(targets, s, TakeTicket(id)).picks[id]
            == if looks < |targets| then Holding(s.taken, looks)
               else Returned(s.taken, targets[Position(s.taken, |targets|)])
  {
    hide Remainder, AsInt64;
    GivenStands(targets, s.taken, s.picks[id].looks);
  }

  /** A look counts one more down target, or ends the pick. */
  lemma {:induction false} LookDecides(targets: seq<Target>, s: State, id: Id, now: int)
    requires targets != [] && Can(targets, s, Look(id, now))
    ensures var (phase, t) := (s.picks[id], Step(targets, s, Look(id, now)));
            var target := targets[Position(phase.serial, |targets|)];
            t.picks[id]
            == if Down(s.health, target.Key(), now) then Ready(phase.looks + 1) else Returned(phase.serial, target)
  {
    hide Position, Panics, Down, Looked;
  }

  // ----- Fairness.

  /** How many of the tickets c, c + 1, ..., c + m - 1 select position p of n. */
  function Picks(c: nat, m: nat, n: nat, p: nat): nat
    requires n > 0
  {
    if m == 0 then 0 else Picks(c, m - 1, n, p) + if Position(c + m - 1, n) == p then 1 else 0
  }

  lemma {:induction false} PicksSplit(c: nat, a: nat, b: nat, n: nat, p: nat)
    requires n > 0
    ensures Picks(c, a + b, n, p) == Picks(c, a, n, p) + Picks(c + a, b, n, p)
  {
    hide Position;
    if b > 0 {
      PicksSplit(c, a, b - 1, n, p);
    }
  }

  lemma {:induction false} FirstRound(m: nat, n: nat, p: nat)
    requires n > 0 && p < n && m <= n <= TWO_63
    ensures Picks(0, m, n, p) == if p < m then 1 else 0
  {
    hide Position;
    if m > 0 {
      FirstRound(m - 1, n, p);
      LowerHalfInTurn(m - 1, n);
      SmallRemainder(m - 1, n);
    }
  }

  /** A round starting anywhere selects each position once: moving the start by one swaps two equal positions. */
  lemma {:induction false} AnyRound(c: nat, n: nat, p: nat)
    requires n > 0 && p < n && c + n <= TWO_63
    ensures Picks(c, n, n, p) == 1
  {
    hide Position;
    if c == 0 {
      FirstRound(n, n, p);
    } else {
      AnyRound(c - 1, n, p);
      PicksSplit(c - 1, 1, n - 1, n, p);
      FullTurn(c - 1, n);
      assert Picks(c - 1, 0, n, p) == 0;
    }
  }

  lemma {:induction false} OneMoreRound(c: nat, m: nat, n: nat, p: nat)
    requires n > 0 && p < n && c + m + n <= TWO_63
    ensures Picks(c, m + n, n, p) == Picks(c, m, n, p) + 1
  {
    hide Picks;
    PicksSplit(c, m, n, n, p);
    AnyRound(c + m, n, p);
  }

  /** Of any k*n consecutive tickets below 2^63 each of the n positions gets exactly k. */
  lemma {:induction false} FairRounds(c: nat, k: nat, n: nat, p: nat)
    requires n > 0 && p < n && c + k * n <= TWO_63
    ensures Picks(c, k * n, n, p) == k
  {
    if k == 0 {
      assert k * n == 0;
    } else {
      hide Picks;
      var m := (k - 1) * n;
      assert k * n == m + n;
      FairRounds(c, k - 1, n, p);
      OneMoreRound(c, m, n, p);
    }
  }

  /** The picks that hold, or have returned with, one of the tickets c, ..., c + m - 1 and stand at position p. */
  function PicksAt(picks: map<Id, Phase>, c: nat, m: nat, n: nat, p: nat): set<Id>
    requires n > 0
  {
    set id | id in picks && !picks[id].Ready? && c <= picks[id].serial < c + m && Position(picks[id].serial, n) == p
  }

  lemma {:induction false} NextOwner(targets: seq<Target>, s: State, c: nat, m: nat, p: nat, id: Id)
    requires targets != [] && Inv(targets, s) && Owns(s.picks, id, c + m)
    ensures |PicksAt(s.picks, c, m + 1, |targets|, p)|
            == |PicksAt(s.picks, c, m, |targets|, p)| + if Position(c + m, |targets|) == p then 1 else 0
  {
    hide Position, Stands;
    var n := |targets|;
    var fewer := PicksAt(s.picks, c, m, n, p);
    assert PicksAt(s.picks, c, m + 1, n, p) == if Position(c + m, n) == p then fewer + {id} else fewer;
  }

  /** With no ticket lost or shared, counting picks is counting tickets. */
  lemma {:induction false} PicksAreTickets(targets: seq<Target>, s: State, c: nat, m: nat, p: nat)
    requires targets != [] && Inv(targets, s) && NoneLost(s) && c + m <= s.taken
    ensures |PicksAt(s.picks, c, m, |targets|, p)| == Picks(c, m, |targets|, p)
  {
    hide Position;
    var n := |targets|;
    if m == 0 {
      assert PicksAt(s.picks, c, m, n, p) == {};
    } else {
      PicksAreTickets(targets, s, c, m - 1, p);
      var last := c + m - 1;
      assert Picks(c, m, n, p) == Picks(c, m - 1, n, p) + if Position(last, n) == p then 1 else 0;
      assert Owned(s.picks, last);
      var id :| Owns(s.picks, id, last);
      hide Picks, PicksAt, Inv, NoneLost;
      NextOwner(targets, s, c, m - 1, p, id);
    }
  }

  /**
   Fairness in every interleaving.  In any run in which the looks find the targets up, and below 2^63, the picks with
   any k*n consecutive tickets are k for each of the n positions, and each of them has or will have that position's
   target.
   */
  lemma {:induction false} FairInEveryInterleaving(targets: seq<Target>, actions: seq<Action>, c: nat, k: nat, p: nat)
    requires targets != [] && IsRun(targets, actions) && AllUp(targets, actions) && p < |targets|
    requires c + k * |targets| <= After(targets, actions).taken && c + k * |targets| <= TWO_63
    ensures var picks := After(targets, actions).picks;
            var chosen := PicksAt(picks, c, k * |targets|, |targets|, p);
            && |chosen| == k
            && forall id | id in chosen :: picks[id].Holding? || (picks[id].Returned? && picks[id].target == targets[p])
  {
    RunKeepsInv(targets, actions);
    var s := After(targets, actions);
    PicksAreTickets(targets, s, c, k * |targets|, p);
    FairRounds(c, k, |targets|, p);
  }
}
