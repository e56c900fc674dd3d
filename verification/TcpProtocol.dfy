/**
 TCP connections as a concurrent protocol: one acceptor and one handler for each proxied connection share a
 counting semaphore, the buffered channel of 1024 tokens, and the per-host counters of the stream policy.
 */
module TcpProtocol {
  import opened StreamPolicy

  const MAX_CONNECTIONS := 1024

  type Id = nat

  datatype Acceptor =
    | Waiting
    | Stopped
    | Accepted(id: Id, host: string)
    | Admitted(id: Id, host: string)    // policy slot taken, semaphore not yet tried
    | Spawning(id: Id, host: string)    // token sent, handler not yet started
    | Overloaded(id: Id, host: string)  // semaphore full, slot to be given back
    | Rejecting(id: Id)                 // client to be closed

  datatype Phase = Proxying | ClientClosed | TokenReturned | Finished

  datatype Handler = Handler(host: string, phase: Phase)

  datatype State = State(
    acceptor: Acceptor,
    handlers: map<Id, Handler>,
    tokens: nat,
    active: Active,
    open: set<Id>,
    next: Id)

  const START := State(Waiting, map[], 0, map[], {}, 0)

  datatype AcceptorAction =
    | Accept(host: string) | Acquire(permitted: bool) | Select | Spawn | GiveBack | CloseRejected | Stop

  datatype Action = ByAcceptor(a: AcceptorAction) | Advance(id: Id)

  predicate AcceptorCan(s: State, a: AcceptorAction) {
    match a
    case Accept(_) => s.acceptor.Waiting?
    case Acquire(_) => s.acceptor.Accepted?
    case Select => s.acceptor.Admitted?
    case Spawn => s.acceptor.Spawning?
    case GiveBack => s.acceptor.Overloaded?
    case CloseRejected => s.acceptor.Rejecting?
    case Stop => s.acceptor.Waiting?
  }

  function AcceptorStep(s: State, a: AcceptorAction, maxPerIP: int): State
    requires AcceptorCan(s, a)
  {
    match a
    case Accept(host) => s.(acceptor := Accepted(s.next, host), open := s.open + {s.next}, next := s.next + 1)
    case Acquire(permitted) =>
      if permitted && HasRoom(s.active, maxPerIP, s.acceptor.host)
      then s.(acceptor := Admitted(s.acceptor.id, s.acceptor.host), active := Taken(s.active, s.acceptor.host))
      else s.(acceptor := Rejecting(s.acceptor.id))
    case Select =>
      if s.tokens < MAX_CONNECTIONS then s.(acceptor := Spawning(s.acceptor.id, s.acceptor.host),
        tokens := s.tokens + 1)
      else s.(acceptor := Overloaded(s.acceptor.id, s.acceptor.host))
    case Spawn => s.(acceptor := Waiting, handlers := s.handlers[s.acceptor.id := Handler(s.acceptor.host, Proxying)])
    case GiveBack => s.(acceptor := Rejecting(s.acceptor.id), active := Released(s.active, s.acceptor.host))
    case CloseRejected => s.(acceptor := Waiting, open := s.open - {s.acceptor.id})
    case Stop => s.(acceptor := Stopped)
  }

  /** A handler closes its client when the copy ends, then returns its token, then gives its slot back. */
  predicate HandlerCan(s: State, id: Id) {
    id in s.handlers && s.handlers[id].phase != Finished && (s.handlers[id].phase == ClientClosed ==> s.tokens > 0)
  }

  function HandlerStep(s: State, id: Id): State
    requires HandlerCan(s, id)
  {
    var h := s.handlers[id];
    match h.phase
    case Proxying => s.(handlers := s.handlers[id := h.(phase := ClientClosed)], open := s.open - {id})
    case ClientClosed => s.(handlers := s.handlers[id := h.(phase := TokenReturned)], tokens := s.tokens - 1)
    case TokenReturned => s.(handlers := s.handlers[id := h.(phase := Finished)], active := Released(s.active, h.host))
  }

  predicate Can(s: State, a: Action) {
    match a
    case ByAcceptor(b) => AcceptorCan(s, b)
    case Advance(id) => HandlerCan(s, id)
  }

  function Step(s: State, a: Action, maxPerIP: int): State
    requires Can(s, a)
  {
    match a
    case ByAcceptor(b) => AcceptorStep(s, b, maxPerIP)
    case Advance(id) => HandlerStep(s, id)
  }

  // ----- What is counted.

  predicate HoldsToken(h: Handler) {
    h.phase.Proxying? || h.phase.ClientClosed?
  }

  /** Handlers that have not yet received their token back from the channel. */
  function TokenHolders(handlers: map<Id, Handler>): set<Id> {
    set id | id in handlers && HoldsToken(handlers[id])
  }

  /** Handlers for a host that have not yet passed Release. */
  function SlotHolders(handlers: map<Id, Handler>, host: string): set<Id> {
    set id | id in handlers && handlers[id].host == host && handlers[id].phase != Finished
  }

  /** The acceptor's own reservation for a host. */
  function Reservation(acceptor: Acceptor, host: string): nat {
    if (acceptor.Admitted? || acceptor.Spawning? || acceptor.Overloaded?) && acceptor.host == host then 1 else 0
  }

  predicate Carries(acceptor: Acceptor, id: Id) {
    !acceptor.Waiting? && !acceptor.Stopped? && acceptor.id == id
  }

  ghost predicate Known(s: State) {
    && (forall id | id in s.handlers :: id < s.next && !Carries(s.acceptor, id))
    && (!s.acceptor.Waiting? && !s.acceptor.Stopped? ==> s.acceptor.id < s.next)
    && (forall id | id in s.open :: id < s.next)
  }

  ghost predicate TokensAgree(s: State) {
    s.tokens == |TokenHolders(s.handlers)| + (if s.acceptor.Spawning? then 1 else 0) && s.tokens <= MAX_CONNECTIONS
  }

  ghost predicate SlotsAgree(s: State, maxPerIP: int) {
    && NoZero(s.active)
    && (forall h :: Count(s.active, h) == |SlotHolders(s.handlers, h)| + Reservation(s.acceptor, h))
    && (maxPerIP > 0 ==> forall h :: Count(s.active, h) <= maxPerIP)
  }

  /** Exactly the connections being accepted, admitted, rejected or proxied are open. */
  ghost predicate ClientsAgree(s: State) {
    forall id :: id in s.open <==> Carries(s.acceptor, id) || (id in s.handlers && s.handlers[id].phase.Proxying?)
  }

  ghost predicate Inv(s: State, maxPerIP: int) {
    Known(s) && TokensAgree(s) && SlotsAgree(s, maxPerIP) && ClientsAgree(s)
  }

  // ----- Every step keeps the invariant.

  lemma {:induction false} HoldersAfterSpawn(handlers: map<Id, Handler>, id: Id, host: string)
    requires id !in handlers
    ensures |TokenHolders(handlers[id := Handler(host, Proxying)])| == |TokenHolders(handlers)| + 1
    ensures forall h :: |SlotHolders(handlers[id := Handler(host, Proxying)], h)| == |SlotHolders(handlers, h)| + if h
            == host then 1 else 0
  {
    var after := handlers[id := Handler(host, Proxying)];
    assert TokenHolders(after) == TokenHolders(handlers) + {id};
    forall h {
      SlotHoldersAfterSpawn(handlers, id, host, h);
    }
  }

  lemma {:induction false} SlotHoldersAfterSpawn(handlers: map<Id, Handler>, id: Id, host: string, h: string)
    requires id !in handlers
    ensures |SlotHolders(handlers[id := Handler(host, Proxying)], h)| == |SlotHolders(handlers, h)| + if h == host
            then 1 else 0
  {
    var after := handlers[id := Handler(host, Proxying)];
    assert SlotHolders(after, h) == SlotHolders(handlers, h) + if h == host then {id} else {};
  }

  lemma {:induction false} TokenHoldersAfterAdvance(handlers: map<Id, Handler>, id: Id, h: Handler)
    requires id in handlers
    ensures |TokenHolders(handlers[id := h])| == |TokenHolders(handlers)|
            + (if HoldsToken(h) then 1 else 0) - (if HoldsToken(handlers[id]) then 1 else 0)
  {
    var before, after := TokenHolders(handlers), TokenHolders(handlers[id := h]);
    var others := before - {id};
    assert before == if HoldsToken(handlers[id]) then others + {id} else others;
    assert after == if HoldsToken(h) then others + {id} else others;
  }

  lemma {:induction false} SlotHoldersAfterAdvance(handlers: map<Id, Handler>, id: Id, h: Handler, host: string)
    requires id in handlers && handlers[id].phase != Finished && h.host == handlers[id].host
    ensures |SlotHolders(handlers[id := h], host)|
            == |SlotHolders(handlers, host)| - if host == h.host && h.phase == Finished then 1 else 0
  {
    var before, after := SlotHolders(handlers, host), SlotHolders(handlers[id := h], host);
    assert after == if host == h.host && h.phase == Finished then before - {id} else before;
  }

  lemma {:induction false} HoldersAfterAdvance(handlers: map<Id, Handler>, id: Id, h: Handler)
    requires id in handlers && handlers[id].phase != Finished && h.host == handlers[id].host
    ensures |TokenHolders(handlers[id := h])| == |TokenHolders(handlers)|
            + (if HoldsToken(h) then 1 else 0) - (if HoldsToken(handlers[id]) then 1 else 0)
    ensures forall host :: |SlotHolders(handlers[id := h], host)|
                           == |SlotHolders(handlers, host)| - if host == h.host && h.phase == Finished then 1 else 0
  {
    hide *;
    TokenHoldersAfterAdvance(handlers, id, h);
    forall host {
      SlotHoldersAfterAdvance(handlers, id, h, host);
    }
  }

  lemma {:induction false} AcceptorKeepsClients(s: State, a: AcceptorAction, maxPerIP: int)
    requires Known(s) && ClientsAgree(s) && AcceptorCan(s, a)
    ensures var t := AcceptorStep(s, a, maxPerIP); Known(t) && ClientsAgree(t)
  {
    hide Taken, Released, HasRoom;
  }

  lemma {:induction false} AcceptorKeepsCounts(s: State, a: AcceptorAction, maxPerIP: int)
    requires Known(s) && TokensAgree(s) && SlotsAgree(s, maxPerIP) && AcceptorCan(s, a)
    ensures var t := AcceptorStep(s, a, maxPerIP); TokensAgree(t) && SlotsAgree(t, maxPerIP)
  {
    hide Taken, Released, TokenHolders, SlotHolders;
    match a
    case Acquire(_) => TakenCounts(s.active, s.acceptor.host);
    case GiveBack => ReleasedCounts(s.active, s.acceptor.host);
    case Spawn => HoldersAfterSpawn(s.handlers, s.acceptor.id, s.acceptor.host);
    case _ =>
  }

  lemma {:induction false} HandlerKeepsInv(s: State, id: Id, maxPerIP: int)
    requires Inv(s, maxPerIP) && HandlerCan(s, id)
    ensures Inv(HandlerStep(s, id), maxPerIP)
  {
    var h := s.handlers[id];
    assert id in TokenHolders(s.handlers) <==> HoldsToken(h);
    assert id in SlotHolders(s.handlers, h.host);
    HoldersAfterAdvance(s.handlers, id, HandlerStep(s, id).handlers[id]);
    ReleasedCounts(s.active, h.host);
    hide TokenHolders, SlotHolders, Released;
  }

  lemma {:induction false} StepKeepsInv(s: State, a: Action, maxPerIP: int)
    requires Inv(s, maxPerIP) && Can(s, a)
    ensures Inv(Step(s, a, maxPerIP), maxPerIP)
  {
    match a
    case ByAcceptor(b) =>
      AcceptorKeepsClients(s, b, maxPerIP);
      AcceptorKeepsCounts(s, b, maxPerIP);
    case Advance(id) =>
      HandlerKeepsInv(s, id, maxPerIP);
  }

  // ----- Runs: any interleaving of enabled steps.

  ghost predicate IsRun(actions: seq<Action>, maxPerIP: int)
    decreases |actions|, 0
  {
    actions == [] || (IsRun(actions[..|actions| - 1], maxPerIP)
                      && Can(After(actions[..|actions| - 1], maxPerIP), actions[|actions| - 1]))
  }

  ghost function After(actions: seq<Action>, maxPerIP: int): State
    requires IsRun(actions, maxPerIP)
    decreases |actions|, 1
  {
    if actions == [] then START
    else Step(After(actions[..|actions| - 1], maxPerIP), actions[|actions| - 1], maxPerIP)
  }

  lemma {:induction false} RunKeepsInv(actions: seq<Action>, maxPerIP: int)
    requires IsRun(actions, maxPerIP)
    ensures Inv(After(actions, maxPerIP), maxPerIP)
  {
    if actions == [] {
      assert TokenHolders(START.handlers) == {};
      forall h ensures SlotHolders(START.handlers, h) == {} {}
    } else {
      RunKeepsInv(actions[..|actions| - 1], maxPerIP);
      StepKeepsInv(After(actions[..|actions| - 1], maxPerIP), actions[|actions| - 1], maxPerIP);
    }
  }

  /**
   Slot and token conservation in every interleaving: the channel holds one token for each handler that has not
   received it back, and the one of the handler being started, never more than 1024; a host's counter is the number
   of its handlers before Release plus the acceptor's reservation, also on the reject path.
   */
  lemma {:induction false} TokensAndSlotsConserved(actions: seq<Action>, maxPerIP: int, host: string)
    requires IsRun(actions, maxPerIP)
    ensures var s := After(actions, maxPerIP);
            && s.tokens == |TokenHolders(s.handlers)| + (if s.acceptor.Spawning? then 1 else 0)
            && s.tokens <= MAX_CONNECTIONS
            && Count(s.active, host) == |SlotHolders(s.handlers, host)| + Reservation(s.acceptor, host)
            && (maxPerIP > 0 ==> Count(s.active, host) <= maxPerIP)
            && (host in s.active ==> s.active[host] > 0)
  {
    RunKeepsInv(actions, maxPerIP);
  }

  /**
   A permitted client is refused a slot exactly if there is a positive limit and its host's handlers hold that
   many, those
   on their way out included.
   */
  lemma {:induction false} RefusedExactlyAtLimit(actions: seq<Action>, maxPerIP: int, permitted: bool)
    requires IsRun(actions, maxPerIP) && Can(After(actions, maxPerIP), ByAcceptor(Acquire(permitted)))
    ensures var s, t := After(actions, maxPerIP), Step(After(actions, maxPerIP), ByAcceptor(Acquire(permitted)),
            maxPerIP);
            var (id, host) := (s.acceptor.id, s.acceptor.host);
            var used := |SlotHolders(s.handlers, host)|;
            if permitted && (maxPerIP <= 0 || used < maxPerIP)
            then t.acceptor == Admitted(id, host) && Count(t.active, host) == used + 1
            else t.acceptor == Rejecting(id) && t.active == s.active
  {
    RunKeepsInv(actions, maxPerIP);
    var s := After(actions, maxPerIP);
    hide After, IsRun, SlotHolders, Taken, Count;
    TakenCounts(s.active, s.acceptor.host);
  }

  /** An admitted client gets a handler exactly while fewer than 1024 handlers hold a token. */
  lemma {:induction false} OverloadedExactlyWhenFull(actions: seq<Action>, maxPerIP: int)
    requires IsRun(actions, maxPerIP) && Can(After(actions, maxPerIP), ByAcceptor(Select))
    ensures var s, t := After(actions, maxPerIP), Step(After(actions, maxPerIP), ByAcceptor(Select), maxPerIP);
            t.acceptor == if |TokenHolders(s.handlers)| < 1024 then Spawning(s.acceptor.id, s.acceptor.host)
                          else Overloaded(s.acceptor.id, s.acceptor.host)
  {
    RunKeepsInv(actions, maxPerIP);
  }

  /** The receive in a handler's exit never blocks: a handler that has closed its client always finds a token. */
  lemma {:induction false} ReceiveNeverBlocks(actions: seq<Action>, maxPerIP: int, id: Id)
    requires IsRun(actions, maxPerIP)
    requires id in After(actions, maxPerIP).handlers && After(actions, maxPerIP).handlers[id].phase != Finished
    ensures Can(After(actions, maxPerIP), Advance(id))
  {
    RunKeepsInv(actions, maxPerIP);
    var s := After(actions, maxPerIP);
    if s.handlers[id].phase == ClientClosed {
      assert id in TokenHolders(s.handlers);
    }
  }

  /** When the acceptor is at rest and all handlers are finished, no token, no slot and no client connection is left. */
  lemma {:induction false} Quiescence(actions: seq<Action>, maxPerIP: int)
    requires IsRun(actions, maxPerIP)
    requires var s := After(actions, maxPerIP);
             && (s.acceptor.Waiting? || s.acceptor.Stopped?)
             && forall id | id in s.handlers :: s.handlers[id].phase == Finished
    ensures var s := After(actions, maxPerIP); s.tokens == 0 && s.active == map[] && s.open == {}
  {
    RunKeepsInv(actions, maxPerIP);
    var s := After(actions, maxPerIP);
    assert TokenHolders(s.handlers) == {};
    forall h ensures Count(s.active, h) == 0 {
      assert SlotHolders(s.handlers, h) == {};
    }
    forall h ensures h !in s.active {
      assert Count(s.active, h) == 0;
    }
  }
}
