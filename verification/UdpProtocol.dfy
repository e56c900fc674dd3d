/**
 UDP sessions as a concurrent protocol.

 One reader, one sweeper, one relay for each session and a shutdown closer share the session table, guarded by
 the table mutex, and the per-host counters, guarded by the policy's own mutex.  A step is one critical section
 or one action between two of them; the reader's create is cut at every point where another thread may run, and
 the sweep, which holds the table mutex for many policy releases, is cut between them.  Sockets, idle times and
 dialing are choices of the environment.
 */
module UdpProtocol {
  import opened Prelude
  import opened StreamPolicy

  const MAX_SESSIONS := 4096

  /** A client address; sessions are keyed by it and counted under its host. */
  datatype Addr = Addr(host: string, port: int)

  /**
   Sessions are identified by their order of creation, which stands for the pointer identity of the session object.
   */
  type Id = nat

  datatype Reader =
    | Idle
    | Stopped
    | Missed(addr: Addr)                  // lookup found no session
    | NotFull(addr: Addr)                 // first capacity check passed
    | Reserved(addr: Addr)                // policy slot taken
    | DialFailed(addr: Addr)              // slot to be given back
    | Dialed(addr: Addr, id: Id)          // socket open, session not yet in the table
    | Refused(addr: Addr, id: Id)         // second capacity check failed
    | RefusedClosed(addr: Addr, id: Id)   // its socket is closed, slot to be given back
    | Inserted(addr: Addr, id: Id)        // in the table, relay not yet started

  datatype Victim = NoVictim | Deleted(id: Id) | Paid(id: Id)

  /** Who holds the table mutex across several steps. */
  datatype Lock = Free | Sweeping(rest: set<Addr>, victim: Victim) | Removing(id: Id)

  datatype Relay = Running | SocketClosed | Done

  datatype State = State(
    table: map<Addr, Id>,
    client: map<Id, Addr>,      // every session ever dialed
    active: Active,
    reader: Reader,
    lock: Lock,
    relays: map<Id, Relay>,     // every relay ever started
    open: set<Id>,              // sessions whose socket is open
    released: multiset<Id>,     // history: slots given back on behalf of a session
    next: Id)

  const START := State(map[], map[], map[], Idle, Free, map[], {}, multiset{}, 0)

  /** The steps of the single reader loop: receive, and create cut into its critical sections. */
  datatype ReaderAction =
    | Receive(addr: Addr) | CheckFull | Acquire(permitted: bool)
    | DialError | DialSuccess | ReleaseUndialed
    | Insert | CloseRefused | ReleaseRefused | StartRelay | Stop

  /** The steps of the sweep, which holds the table mutex from Begin to End, and the shutdown closer. */
  datatype SweeperAction =
    | Begin | Keep(addr: Addr) | Expire(addr: Addr) | PayVictim | CloseVictim | End | CloseAll

  /** The steps of the relay of one session: its socket fails, it removes its session, it pays the slot back. */
  datatype RelayAction = Fail(id: Id) | Remove(id: Id) | Pay

  datatype Action = ByReader(r: ReaderAction) | BySweeper(w: SweeperAction) | ByRelay(y: RelayAction)

  predicate ReaderCan(s: State, a: ReaderAction) {
    match a
    case Receive(_) => s.reader == Idle && s.lock.Free?
    case CheckFull => s.reader.Missed? && s.lock.Free?
    case Acquire(_) => s.reader.NotFull?
    case DialError => s.reader.Reserved?
    case DialSuccess => s.reader.Reserved?
    case ReleaseUndialed => s.reader.DialFailed?
    case Insert => s.reader.Dialed? && s.lock.Free?
    case CloseRefused => s.reader.Refused?
    case ReleaseRefused => s.reader.RefusedClosed?
    case StartRelay => s.reader.Inserted?
    case Stop => s.reader == Idle
  }

  function ReaderStep(s: State, a: ReaderAction, maxPerIP: int): State
    requires ReaderCan(s, a)
  {
    match a
    case Receive(addr) => if addr in s.table then s else s.(reader := Missed(addr))
    case CheckFull => s.(reader := if |s.table| >= MAX_SESSIONS then Idle else NotFull(s.reader.addr))
    case Acquire(permitted) =>
      var addr := s.reader.addr;
      if permitted && HasRoom(s.active, maxPerIP, addr.host)
      then s.(reader := Reserved(addr), active := Taken(s.active, addr.host))
      else s.(reader := Idle)
    case DialError => s.(reader := DialFailed(s.reader.addr))
    case DialSuccess =>
      s.(reader := Dialed(s.reader.addr, s.next), client := s.client[s.next := s.reader.addr],
         open := s.open + {s.next}, next := s.next + 1)
    case ReleaseUndialed => s.(reader := Idle, active := Released(s.active, s.reader.addr.host))
    case Insert =>
      var (addr, id) := (s.reader.addr, s.reader.id);
      if |s.table| >= MAX_SESSIONS then s.(reader := Refused(addr, id))
      else s.(reader := Inserted(addr, id), table := s.table[addr := id])
    case CloseRefused => s.(reader := RefusedClosed(s.reader.addr, s.reader.id), open := s.open - {s.reader.id})
    case ReleaseRefused =>
      s.(reader := Idle, active := Released(s.active, s.reader.addr.host),
        released := s.released + multiset{s.reader.id})
    case StartRelay => s.(reader := Idle, relays := s.relays[s.reader.id := Running])
    case Stop => s.(reader := Stopped)
  }

  predicate SweeperCan(s: State, a: SweeperAction) {
    match a
    case Begin => s.lock.Free?
    case Keep(addr) => s.lock.Sweeping? && s.lock.victim == NoVictim && addr in s.lock.rest
    case Expire(addr) => s.lock.Sweeping? && s.lock.victim == NoVictim && addr in s.lock.rest && addr in s.table
    case PayVictim => s.lock.Sweeping? && s.lock.victim.Deleted? && s.lock.victim.id in s.client
    case CloseVictim => s.lock.Sweeping? && s.lock.victim.Paid?
    case End => s.lock.Sweeping? && s.lock.victim == NoVictim && s.lock.rest == {}
    case CloseAll => s.lock.Free?
  }

  function SweeperStep(s: State, a: SweeperAction): State
    requires SweeperCan(s, a)
  {
    match a
    case Begin => s.(lock := Sweeping(s.table.Keys, NoVictim))
    case Keep(addr) => s.(lock := Sweeping(s.lock.rest - {addr}, NoVictim))
    case Expire(addr) =>
      s.(lock := Sweeping(s.lock.rest - {addr}, Deleted(s.table[addr])), table := s.table - {addr})
    case PayVictim =>
      var id := s.lock.victim.id;
      s.(lock := Sweeping(s.lock.rest, Paid(id)), active := Released(s.active, s.client[id].host),
         released := s.released + multiset{id})
    case CloseVictim => s.(lock := Sweeping(s.lock.rest, NoVictim), open := s.open - {s.lock.victim.id})
    case End => s.(lock := Free)
    case CloseAll => s.(open := s.open - s.table.Values)
  }

  predicate RelayCan(s: State, a: RelayAction) {
    match a
    case Fail(id) => id in s.relays && s.relays[id] == Running
    case Remove(id) => id in s.relays && s.relays[id] == SocketClosed && s.lock.Free? && id in s.client
    case Pay => s.lock.Removing? && s.lock.id in s.client
  }

  function RelayStep(s: State, a: RelayAction): State
    requires RelayCan(s, a)
  {
    match a
    case Fail(id) => s.(relays := s.relays[id := SocketClosed], open := s.open - {id})
    case Remove(id) =>
      var addr := s.client[id];
      if addr in s.table && s.table[addr] == id
      then s.(table := s.table - {addr}, lock := Removing(id))
      else s.(relays := s.relays[id := Done])
    case Pay =>
      var id := s.lock.id;
      s.(active := Released(s.active, s.client[id].host), released := s.released + multiset{id},
         lock := Free, relays := s.relays[id := Done])
  }

  predicate Can(s: State, a: Action) {
    match a
    case ByReader(r) => ReaderCan(s, r)
    case BySweeper(w) => SweeperCan(s, w)
    case ByRelay(y) => RelayCan(s, y)
  }

  function Step(s: State, a: Action, maxPerIP: int): State
    requires Can(s, a)
  {
    match a
    case ByReader(r) => ReaderStep(s, r, maxPerIP)
    case BySweeper(w) => SweeperStep(s, w)
    case ByRelay(y) => RelayStep(s, y)
  }

  // ----- What is counted.

  function InTable<V>(table: map<Addr, V>, host: string): nat {
    |set a | a in table && a.host == host|
  }

  /** The reader's slot that is not yet, or never will be, in the table. */
  predicate Holds(reader: Reader) {
    reader.Reserved? || reader.DialFailed? || reader.Dialed? || reader.Refused? || reader.RefusedClosed?
  }

  function InFlight(reader: Reader, host: string): nat {
    if Holds(reader) && reader.addr.host == host then 1 else 0
  }

  /** The session that has left the table but whose slot is not yet given back. */
  predicate Leaving(lock: Lock, id: Id) {
    || (lock.Sweeping? && lock.victim == Deleted(id))
    || lock == Removing(id)
  }

  function Pending(lock: Lock, client: map<Id, Addr>, host: string): nat {
    var id := if lock.Sweeping? && lock.victim.Deleted? then Some(lock.victim.id) else if lock.Removing?
      then Some(lock.id) else None;
    if id.Some? && id.value in client && client[id.value].host == host then 1 else 0
  }

  ghost predicate Conserved(s: State, maxPerIP: int) {
    && NoZero(s.active)
    && (forall h :: Count(s.active, h) == InTable(s.table, h) + InFlight(s.reader, h) + Pending(s.lock, s.client, h))
    && (maxPerIP > 0 ==> forall h :: Count(s.active, h) <= maxPerIP)
    && |s.table| <= MAX_SESSIONS
  }

  // ----- The life of a session: held by the reader, live in the table, leaving, gone.

  predicate Live(client: map<Id, Addr>, table: map<Addr, Id>, id: Id) {
    id in client && client[id] in table && table[client[id]] == id
  }

  predicate Held(reader: Reader, id: Id) {
    (reader.Dialed? || reader.Refused? || reader.RefusedClosed?) && reader.id == id
  }

  ghost predicate Known(s: State) {
    && (forall id: Id :: id in s.client <==> id < s.next)
    && s.relays.Keys <= s.client.Keys
    && (forall id | id in s.released :: id in s.client)
    && (forall a | a in s.table :: s.table[a] in s.client && s.client[s.table[a]] == a)
    && (s.reader.Dialed? || s.reader.Refused? || s.reader.RefusedClosed? || s.reader.Inserted? ==>
          s.reader.id in s.client && s.client[s.reader.id] == s.reader.addr && s.reader.id !in s.relays)
    && (s.lock.Sweeping? && s.lock.victim != NoVictim ==> s.lock.victim.id in s.client)
    && (s.lock.Removing? ==> s.lock.id in s.client && s.lock.id in s.relays && s.relays[s.lock.id] == SocketClosed)
    && (s.lock.Sweeping? ==> s.lock.rest <= s.table.Keys)
  }

  /** The single reader works on an address that has no session: nobody else inserts. */
  ghost predicate SoleCreator(s: State) {
    !s.reader.Idle? && !s.reader.Stopped? && !s.reader.Inserted? ==> s.reader.addr !in s.table
  }

  /** A session is in exactly one stage of its life, and its slot has been given back exactly in the last. */
  ghost predicate OneStage(held: bool, live: bool, leaving: bool, releases: nat) {
    && !(held && live) && !(held && leaving) && !(live && leaving)
    && releases == if held || live || leaving then 0 else 1
  }

  ghost predicate Staged(s: State) {
    && (forall id | id in s.client ::
          OneStage(Held(s.reader, id), Live(s.client, s.table, id), Leaving(s.lock, id), s.released[id]))
    && (forall id | id in s.relays && s.relays[id] == Done :: s.released[id] == 1)
    && (forall id | Live(s.client, s.table, id) :: id in s.relays || s.reader == Inserted(s.client[id], id))
    && (s.lock.Sweeping? && s.lock.victim.Paid? ==> s.released[s.lock.victim.id] == 1)
  }

  /** A session whose slot was given back has a closed socket, except while the sweeper is between the two. */
  ghost predicate SocketsClosed(s: State) {
    && (forall id | id in s.open :: id in s.client)
    && (forall id | id in s.open && s.released[id] > 0 :: s.lock.Sweeping? && s.lock.victim == Paid(id))
    && (forall id | id in s.relays && s.relays[id] != Running :: id !in s.open)
    && (s.reader.RefusedClosed? ==> s.reader.id !in s.open)
  }

  ghost predicate Sessions(s: State) {
    Known(s) && SoleCreator(s) && Staged(s) && SocketsClosed(s)
  }

  ghost predicate Inv(s: State, maxPerIP: int) {
    Sessions(s) && Conserved(s, maxPerIP)
  }

  // ----- Every step keeps the invariant.

  lemma {:induction false} InTableInsert<V>(table: map<Addr, V>, addr: Addr, id: V, h: string)
    requires addr !in table
    ensures InTable(table[addr := id], h) == InTable(table, h) + if h == addr.host then 1 else 0
  {
    var before, after := set a | a in table && a.host == h, set a | a in table[addr := id] && a.host == h;
    assert after == if h == addr.host then before + {addr} else before;
  }

  lemma {:induction false} InsertCounts<V>(table: map<Addr, V>, addr: Addr, id: V)
    requires addr !in table
    ensures forall h :: InTable(table[addr := id], h) == InTable(table, h) + if h == addr.host then 1 else 0
    ensures |table[addr := id]| == |table| + 1
  {
    forall h {
      InTableInsert(table, addr, id, h);
    }
  }

  lemma {:induction false} DeleteCounts<V>(table: map<Addr, V>, addr: Addr)
    requires addr in table
    ensures forall h :: InTable(table - {addr}, h) == InTable(table, h) - if h == addr.host then 1 else 0
    ensures |table - {addr}| == |table| - 1
  {
    InsertCounts(table - {addr}, addr, table[addr]);
    assert (table - {addr})[addr := table[addr]] == table;
  }

  // The proof goes by parts of the invariant and by small groups of actions.

  predicate WithoutSession(reader: Reader) {
    !reader.Dialed? && !reader.Refused? && !reader.RefusedClosed? && !reader.Inserted?
  }

  predicate WithoutVictim(lock: Lock) {
    lock.Free? || (lock.Sweeping? && lock.victim == NoVictim)
  }

  /** t differs from s only in counters and in steps that concern no session. */
  ghost predicate SameSessions(s: State, t: State) {
    && t.table == s.table && t.client == s.client && t.relays == s.relays && t.open == s.open
      && t.released == s.released
    && t.next == s.next
    && (t.reader == s.reader || (WithoutSession(s.reader) && WithoutSession(t.reader)))
    && (t.lock == s.lock || (WithoutVictim(s.lock) && WithoutVictim(t.lock)))
    && (t.lock.Sweeping? ==> t.lock.rest <= t.table.Keys)
  }

  lemma {:induction false} SameSessionsKeeps(s: State, t: State)
    requires Known(s) && Staged(s) && SocketsClosed(s) && SameSessions(s, t)
    ensures Known(t) && Staged(t) && SocketsClosed(t)
  {
  }

  predicate QuietReader(a: ReaderAction) {
    a.Receive? || a.CheckFull? || a.Acquire? || a.DialError? || a.ReleaseUndialed? || a.Stop?
  }

  predicate QuietSweeper(a: SweeperAction) {
    a.Begin? || a.Keep? || a.End?
  }

  lemma {:induction false} SweptRestInTable(s: State)
    requires Known(s)
    ensures s.lock.Sweeping? ==> s.lock.rest <= s.table.Keys
  {
  }

  lemma {:induction false} QuietReaderStep(s: State, a: ReaderAction, maxPerIP: int)
    requires (s.lock.Sweeping? ==> s.lock.rest <= s.table.Keys) && ReaderCan(s, a) && QuietReader(a)
    ensures SameSessions(s, ReaderStep(s, a, maxPerIP))
  {
    hide Taken, Released, HasRoom;
  }

  lemma {:induction false} QuietSweeperStep(s: State, a: SweeperAction)
    requires Known(s) && SweeperCan(s, a) && QuietSweeper(a)
    ensures SameSessions(s, SweeperStep(s, a))
  {
  }

  lemma {:induction false} ReaderSole(s: State, a: ReaderAction, maxPerIP: int)
    requires SoleCreator(s) && ReaderCan(s, a)
    ensures SoleCreator(ReaderStep(s, a, maxPerIP))
  {
    hide Taken, Released, HasRoom;
  }

  lemma {:induction false} CreateKnown(s: State, a: ReaderAction, maxPerIP: int)
    requires Known(s) && SoleCreator(s) && ReaderCan(s, a) && (a == DialSuccess || a == Insert)
    ensures Known(ReaderStep(s, a, maxPerIP))
  {
    hide Known;
    if a == DialSuccess {
      DialKnown(s, s.reader.addr);
    } else {
      EntryKnown(s, s.reader.addr, s.reader.id);
    }
  }

  lemma {:induction false} DialKnown(s: State, addr: Addr)
    requires Known(s) && s.reader == Reserved(addr)
    ensures Known(s.(reader := Dialed(addr, s.next), client := s.client[s.next := addr], open := s.open + {s.next},
                     next := s.next + 1))
  {
  }

  lemma {:induction false} EntryKnown(s: State, addr: Addr, id: Id)
    requires Known(s) && s.reader == Dialed(addr, id) && s.lock.Free?
    ensures Known(s.(reader := Refused(addr, id)))
    ensures Known(s.(reader := Inserted(addr, id), table := s.table[addr := id]))
  {
  }

  lemma {:induction false} FinishKnown(s: State, a: ReaderAction, maxPerIP: int)
    requires Known(s) && SoleCreator(s) && ReaderCan(s, a) && (a == CloseRefused || a == ReleaseRefused
             || a == StartRelay)
    ensures Known(ReaderStep(s, a, maxPerIP))
  {
    hide Taken, Released, HasRoom;
  }

  lemma {:induction false} SweeperKnown(s: State, a: SweeperAction)
    requires Known(s) && SoleCreator(s) && SweeperCan(s, a) && !QuietSweeper(a)
    ensures Known(SweeperStep(s, a))
  {
    hide Taken, Released, HasRoom;
  }

  lemma {:induction false} RelayKnown(s: State, a: RelayAction)
    requires Known(s) && SoleCreator(s) && RelayCan(s, a)
    ensures Known(RelayStep(s, a))
  {
    hide Taken, Released, HasRoom;
  }

  lemma {:induction false} DialStaged(s: State, a: ReaderAction, maxPerIP: int)
    requires Known(s) && SoleCreator(s) && Staged(s) && ReaderCan(s, a) && a == DialSuccess
    ensures Staged(ReaderStep(s, a, maxPerIP))
  {
    hide Taken, Released, HasRoom;
  }

  lemma {:induction false} InsertStaged(s: State, a: ReaderAction, maxPerIP: int)
    requires Known(s) && SoleCreator(s) && Staged(s) && ReaderCan(s, a) && a == Insert
    ensures Staged(ReaderStep(s, a, maxPerIP))
  {
    hide Known, SoleCreator, Staged;
    RefusalStaged(s, s.reader.addr, s.reader.id);
    EntryStaged(s, s.reader.addr, s.reader.id);
  }

  lemma {:induction false} RefusalStaged(s: State, addr: Addr, id: Id)
    requires Staged(s) && s.reader == Dialed(addr, id)
    ensures Staged(s.(reader := Refused(addr, id)))
  {
  }

  lemma {:induction false} EntryStaged(s: State, addr: Addr, id: Id)
    requires Known(s) && SoleCreator(s) && Staged(s) && s.reader == Dialed(addr, id)
    ensures Staged(s.(reader := Inserted(addr, id), table := s.table[addr := id]))
  {
    forall i | i in s.client
      ensures Live(s.client, s.table[addr := id], i) == (Live(s.client, s.table, i) || i == id)
    {
      assert s.client[id] == addr;
    }
  }

  lemma {:induction false} RefuseStaged(s: State, a: ReaderAction, maxPerIP: int)
    requires Known(s) && SoleCreator(s) && Staged(s) && ReaderCan(s, a) && (a == CloseRefused || a == ReleaseRefused)
    ensures Staged(ReaderStep(s, a, maxPerIP))
  {
    hide Taken, Released, HasRoom;
  }

  lemma {:induction false} StartRelayStaged(s: State, a: ReaderAction, maxPerIP: int)
    requires Known(s) && SoleCreator(s) && Staged(s) && ReaderCan(s, a) && a == StartRelay
    ensures Staged(ReaderStep(s, a, maxPerIP))
  {
    hide Taken, Released, HasRoom;
  }

  lemma {:induction false} ExpireStaged(s: State, a: SweeperAction)
    requires Known(s) && SoleCreator(s) && Staged(s) && SweeperCan(s, a) && a.Expire?
    ensures Staged(SweeperStep(s, a))
  {
    hide Taken, Released, HasRoom;
  }

  lemma {:induction false} PayStaged(s: State, a: SweeperAction)
    requires Known(s) && SoleCreator(s) && Staged(s) && SweeperCan(s, a)
             && (a == PayVictim || a == CloseVictim || a == CloseAll)
    ensures Staged(SweeperStep(s, a))
  {
    hide Taken, Released, HasRoom;
  }

  lemma {:induction false} RemoveStaged(s: State, a: RelayAction)
    requires Known(s) && SoleCreator(s) && Staged(s) && RelayCan(s, a) && (a.Remove? || a.Fail?)
    ensures Staged(RelayStep(s, a))
  {
    hide Known, SoleCreator, Staged;
    if a.Fail? {
      FailureStaged(s, a.id);
    } else if Live(s.client, s.table, a.id) {
      DepartureStaged(s, a.id);
    } else {
      StaleStaged(s, a.id);
    }
  }

  lemma {:induction false} FailureStaged(s: State, id: Id)
    requires Staged(s) && id in s.relays && s.relays[id] == Running
    ensures Staged(s.(relays := s.relays[id := SocketClosed], open := s.open - {id}))
  {
  }

  lemma {:induction false} DepartureStaged(s: State, id: Id)
    requires Known(s) && Staged(s) && s.lock.Free? && Live(s.client, s.table, id)
    ensures Staged(s.(table := s.table - {s.client[id]}, lock := Removing(id)))
  {
    var t := s.table - {s.client[id]};
    forall i | i in s.client ensures Live(s.client, t, i) == (Live(s.client, s.table, i) && i != id) {
    }
  }

  /** A relay whose session has already left is done, and its slot was given back by the sweep. */
  lemma {:induction false} StaleStaged(s: State, id: Id)
    requires Known(s) && Staged(s) && s.lock.Free? && id in s.relays && !Live(s.client, s.table, id)
    ensures Staged(s.(relays := s.relays[id := Done]))
  {
  }

  lemma {:induction false} PayBackStaged(s: State, a: RelayAction)
    requires Known(s) && SoleCreator(s) && Staged(s) && RelayCan(s, a) && a == Pay
    ensures Staged(RelayStep(s, a))
  {
    hide Taken, Released, HasRoom;
  }

  lemma {:induction false} CreateSockets(s: State, a: ReaderAction, maxPerIP: int)
    requires Sessions(s) && ReaderCan(s, a) && (a == DialSuccess || a == Insert)
    ensures SocketsClosed(ReaderStep(s, a, maxPerIP))
  {
    hide Taken, Released, HasRoom;
  }

  lemma {:induction false} FinishSockets(s: State, a: ReaderAction, maxPerIP: int)
    requires Sessions(s) && ReaderCan(s, a) && (a == CloseRefused || a == ReleaseRefused || a == StartRelay)
    ensures SocketsClosed(ReaderStep(s, a, maxPerIP))
  {
    hide Taken, Released, HasRoom;
  }

  lemma {:induction false} SweeperSockets(s: State, a: SweeperAction)
    requires Sessions(s) && SweeperCan(s, a) && !QuietSweeper(a)
    ensures SocketsClosed(SweeperStep(s, a))
  {
    hide Taken, Released, HasRoom;
  }

  lemma {:induction false} RelaySockets(s: State, a: RelayAction)
    requires Sessions(s) && RelayCan(s, a)
    ensures SocketsClosed(RelayStep(s, a))
  {
    hide Taken, Released, HasRoom;
  }

  lemma {:induction false} FinishConserved(s: State, a: ReaderAction, maxPerIP: int)
    requires Known(s) && SoleCreator(s) && Conserved(s, maxPerIP) && ReaderCan(s, a)
             && (a == Insert || a == CloseRefused || a == ReleaseRefused || a == StartRelay)
    ensures Conserved(ReaderStep(s, a, maxPerIP), maxPerIP)
  {
    hide InTable, Taken, Released;
    match a
    case ReleaseRefused => ReleasedCounts(s.active, s.reader.addr.host);
    case Insert => InsertCounts(s.table, s.reader.addr, s.reader.id);
    case _ =>
  }

  lemma {:induction false} QuietConserved(s: State, a: ReaderAction, maxPerIP: int)
    requires Known(s) && SoleCreator(s) && Conserved(s, maxPerIP) && ReaderCan(s, a)
             && (QuietReader(a) || a == DialSuccess)
    ensures Conserved(ReaderStep(s, a, maxPerIP), maxPerIP)
  {
    hide InTable, Taken, Released, Count, NoZero;
    if a.Acquire? {
      AcquireConserved(s, a, maxPerIP);
    } else if a == ReleaseUndialed {
      ReleaseConserved(s, a, maxPerIP);
    } else {
      hide HasRoom;
    }
  }

  lemma {:induction false} AcquireConserved(s: State, a: ReaderAction, maxPerIP: int)
    requires Conserved(s, maxPerIP) && ReaderCan(s, a) && a.Acquire?
    ensures Conserved(ReaderStep(s, a, maxPerIP), maxPerIP)
  {
    hide InTable, Taken;
    TakenCounts(s.active, s.reader.addr.host);
  }

  lemma {:induction false} ReleaseConserved(s: State, a: ReaderAction, maxPerIP: int)
    requires Conserved(s, maxPerIP) && ReaderCan(s, a) && a == ReleaseUndialed
    ensures Conserved(ReaderStep(s, a, maxPerIP), maxPerIP)
  {
    hide InTable, Released;
    ReleasedCounts(s.active, s.reader.addr.host);
  }

  lemma {:induction false} SweeperConserved(s: State, a: SweeperAction, maxPerIP: int)
    requires Known(s) && Conserved(s, maxPerIP) && SweeperCan(s, a)
    ensures Conserved(SweeperStep(s, a), maxPerIP)
  {
    hide InTable, Count, NoZero, Released;
    if a.Expire? {
      ExpireConserved(s, a, maxPerIP);
    } else if a == PayVictim {
      PayConserved(s, a, maxPerIP);
    } else {
      hide Known;
    }
  }

  lemma {:induction false} ExpireConserved(s: State, a: SweeperAction, maxPerIP: int)
    requires Known(s) && Conserved(s, maxPerIP) && SweeperCan(s, a) && a.Expire?
    ensures Conserved(SweeperStep(s, a), maxPerIP)
  {
    hide InTable, Count, NoZero, Released;
    DeleteCounts(s.table, a.addr);
  }

  lemma {:induction false} PayConserved(s: State, a: SweeperAction, maxPerIP: int)
    requires Conserved(s, maxPerIP) && SweeperCan(s, a) && a == PayVictim
    ensures Conserved(SweeperStep(s, a), maxPerIP)
  {
    hide InTable, Released;
    ReleasedCounts(s.active, s.client[s.lock.victim.id].host);
  }

  lemma {:induction false} RelayConserved(s: State, a: RelayAction, maxPerIP: int)
    requires Known(s) && Conserved(s, maxPerIP) && RelayCan(s, a)
    ensures Conserved(RelayStep(s, a), maxPerIP)
  {
    hide InTable, Count, NoZero, Released;
    if a.Remove? {
      RemoveConserved(s, a, maxPerIP);
    } else if a == Pay {
      PayBackConserved(s, a, maxPerIP);
    } else {
      hide Known;
    }
  }

  lemma {:induction false} RemoveConserved(s: State, a: RelayAction, maxPerIP: int)
    requires Known(s) && Conserved(s, maxPerIP) && RelayCan(s, a) && a.Remove?
    ensures Conserved(RelayStep(s, a), maxPerIP)
  {
    hide InTable, Count, NoZero, Released;
    if Live(s.client, s.table, a.id) {
      DeleteCounts(s.table, s.client[a.id]);
    }
  }

  lemma {:induction false} PayBackConserved(s: State, a: RelayAction, maxPerIP: int)
    requires Conserved(s, maxPerIP) && RelayCan(s, a) && a == Pay
    ensures Conserved(RelayStep(s, a), maxPerIP)
  {
    hide InTable, Released;
    ReleasedCounts(s.active, s.client[s.lock.id].host);
  }

  lemma {:induction false} ReaderKeepsSessions(s: State, a: ReaderAction, maxPerIP: int)
    requires Sessions(s) && ReaderCan(s, a)
    ensures Sessions(ReaderStep(s, a, maxPerIP))
  {
    hide ReaderStep, ReaderCan, Known, SoleCreator, Staged, SocketsClosed, SameSessions;
    ReaderSole(s, a, maxPerIP);
    match a
    case DialSuccess => CreateKnown(s, a, maxPerIP); DialStaged(s, a, maxPerIP); CreateSockets(s, a, maxPerIP);
    case Insert => CreateKnown(s, a, maxPerIP); InsertStaged(s, a, maxPerIP); CreateSockets(s, a, maxPerIP);
    case CloseRefused => FinishKnown(s, a, maxPerIP); RefuseStaged(s, a, maxPerIP); FinishSockets(s, a, maxPerIP);
    case ReleaseRefused => FinishKnown(s, a, maxPerIP); RefuseStaged(s, a, maxPerIP); FinishSockets(s, a, maxPerIP);
    case StartRelay => FinishKnown(s, a, maxPerIP); StartRelayStaged(s, a, maxPerIP); FinishSockets(s, a, maxPerIP);
    case _ =>
      SweptRestInTable(s);
      QuietReaderStep(s, a, maxPerIP);
      SameSessionsKeeps(s, ReaderStep(s, a, maxPerIP));
  }

  lemma {:induction false} OthersSole(s: State, w: SweeperAction, y: RelayAction)
    requires SoleCreator(s)
    ensures SweeperCan(s, w) ==> SoleCreator(SweeperStep(s, w))
    ensures RelayCan(s, y) ==> SoleCreator(RelayStep(s, y))
  {
    hide Released;
  }

  lemma {:induction false} SweeperKeepsSessions(s: State, a: SweeperAction)
    requires Sessions(s) && SweeperCan(s, a)
    ensures Sessions(SweeperStep(s, a))
  {
    hide SweeperStep, SweeperCan, RelayStep, RelayCan, Known, SoleCreator, Staged, SocketsClosed, SameSessions;
    OthersSole(s, a, Pay);
    if QuietSweeper(a) {
      QuietSweeperStep(s, a);
      SameSessionsKeeps(s, SweeperStep(s, a));
    } else {
      SweeperKnown(s, a);
      SweeperSockets(s, a);
      if a.Expire? {
        ExpireStaged(s, a);
      } else {
        PayStaged(s, a);
      }
    }
  }

  lemma {:induction false} RelayKeepsSessions(s: State, a: RelayAction)
    requires Sessions(s) && RelayCan(s, a)
    ensures Sessions(RelayStep(s, a))
  {
    hide SweeperStep, SweeperCan, RelayStep, RelayCan, Known, SoleCreator, Staged, SocketsClosed;
    OthersSole(s, End, a);
    RelayKnown(s, a);
    RelaySockets(s, a);
    if a == Pay {
      PayBackStaged(s, a);
    } else {
      RemoveStaged(s, a);
    }
  }

  /** Every step of every thread keeps the invariant. */
  lemma {:induction false} StepKeepsInv(s: State, a: Action, maxPerIP: int)
    requires Inv(s, maxPerIP) && Can(s, a)
    ensures Inv(Step(s, a, maxPerIP), maxPerIP)
  {
    hide ReaderStep, SweeperStep, RelayStep, ReaderCan, SweeperCan, RelayCan, Known, SoleCreator, Staged,
    SocketsClosed, Conserved;
    match a
    case ByReader(r) =>
      ReaderKeepsSessions(s, r, maxPerIP);
      if QuietReader(r) || r == DialSuccess {
        QuietConserved(s, r, maxPerIP);
      } else {
        FinishConserved(s, r, maxPerIP);
      }
    case BySweeper(w) =>
      SweeperKeepsSessions(s, w);
      SweeperConserved(s, w, maxPerIP);
    case ByRelay(y) =>
      RelayKeepsSessions(s, y);
      RelayConserved(s, y, maxPerIP);
  }

  // ----- Runs: any interleaving of enabled steps.

  ghost predicate IsRun(actions: seq<Action>, maxPerIP: int)
    decreases |actions|, 0
  {
    actions == [] || (IsRun(actions[..|actions| - 1], maxPerIP)
                      && Can(After(actions[..|actions| - 1], maxPerIP), actions[|actions| - 1]))
  }

  ghost function After(actions: seq<Action>, maxPerIP: int): State
    requires IsRun(actions, maxPerIP)
    decreases |actions|, 1
  {
    if actions == [] then START
    else Step(After(actions[..|actions| - 1], maxPerIP), actions[|actions| - 1], maxPerIP)
  }

  lemma {:induction false} StartInv(maxPerIP: int)
    ensures Inv(START, maxPerIP)
  {
    forall h ensures InTable(START.table, h) == 0 {
      assert (set a: Addr | a in START.table && a.host == h) == {};
    }
    assert NoZero(START.active);
    assert |START.table| == 0;
    assert Conserved(START, maxPerIP);
    assert Known(START);
    assert Staged(START);
  }

  lemma {:induction false} RunKeepsInv(actions: seq<Action>, maxPerIP: int)
    requires IsRun(actions, maxPerIP)
    ensures Inv(After(actions, maxPerIP), maxPerIP)
  {
    if actions == [] {
      StartInv(maxPerIP);
    } else {
      RunKeepsInv(actions[..|actions| - 1], maxPerIP);
      StepKeepsInv(After(actions[..|actions| - 1], maxPerIP), actions[|actions| - 1], maxPerIP);
    }
  }

  /**
   Slot conservation in every interleaving: a host's counter is the number of its sessions in the table, plus the
   slot of the session being created, plus the slot of the session being removed; counters respect a positive
   limit, no zero is stored, and the table respects its capacity.
   */
  lemma {:induction false} SlotsConserved(actions: seq<Action>, maxPerIP: int, host: string)
    requires IsRun(actions, maxPerIP)
    ensures var s := After(actions, maxPerIP);
            && Count(s.active, host) == InTable(s.table, host) + InFlight(s.reader, host)
              + Pending(s.lock, s.client, host)
            && (maxPerIP > 0 ==> Count(s.active, host) <= maxPerIP)
            && (host in s.active ==> s.active[host] > 0)
            && |s.table| <= MAX_SESSIONS
  {
    RunKeepsInv(actions, maxPerIP);
  }

  /**
   Exactly-once release: in every interleaving a session's slot is given back at most once, and it has been given
   back exactly when the session is neither held by the reader, nor in the table, nor just leaving it.  Its socket
   is then closed, or the sweeper is just about to close it.
   */
  lemma {:induction false} ReleasedExactlyOnce(actions: seq<Action>, maxPerIP: int, id: Id)
    requires IsRun(actions, maxPerIP) && id in After(actions, maxPerIP).client
    ensures var s := After(actions, maxPerIP);
            && s.released[id] <= 1
            && (s.released[id] == 1 <==> !Held(s.reader, id) && !Live(s.client, s.table, id) && !Leaving(s.lock, id))
            && (s.released[id] == 1 ==> id !in s.open || (s.lock.Sweeping? && s.lock.victim == Paid(id)))
  {
    RunKeepsInv(actions, maxPerIP);
  }

  lemma {:induction false} ReaderRemovesNothing(s: State, r: ReaderAction, maxPerIP: int, id: Id)
    requires SoleCreator(s) && ReaderCan(s, r) && Live(s.client, s.table, id)
             && (forall i: Id :: i in s.client <==> i < s.next)
    ensures var t := ReaderStep(s, r, maxPerIP); Live(t.client, t.table, id)
  {
    hide Taken, Released, HasRoom;
  }

  /**
   No insertion overwrites a live entry, and an entry disappears only by the sweep or by the relay of its own session.
   */
  lemma {:induction false} OnlyOwnRemoval(actions: seq<Action>, a: Action, maxPerIP: int, id: Id)
    requires IsRun(actions, maxPerIP) && Can(After(actions, maxPerIP), a)
    requires var s := After(actions, maxPerIP); Live(s.client, s.table, id)
    ensures var s, t := After(actions, maxPerIP), Step(After(actions, maxPerIP), a, maxPerIP);
            Live(t.client, t.table, id) || a == ByRelay(Remove(id)) || a == BySweeper(Expire(s.client[id]))
  {
    RunKeepsInv(actions, maxPerIP);
    RemovalIsOwn(After(actions, maxPerIP), a, maxPerIP, id);
  }

  lemma {:induction false} RemovalIsOwn(s: State, a: Action, maxPerIP: int, id: Id)
    requires Known(s) && SoleCreator(s) && Can(s, a) && Live(s.client, s.table, id)
    ensures var t := Step(s, a, maxPerIP);
            Live(t.client, t.table, id) || a == ByRelay(Remove(id)) || a == BySweeper(Expire(s.client[id]))
  {
    hide ReaderStep, ReaderCan;
    if a.ByReader? {
      ReaderRemovesNothing(s, a.r, maxPerIP, id);
    }
  }

  /** The reader, once past the first capacity check, still finds room: until it inserts, the table can only shrink. */
  ghost predicate RoomKept(s: State) {
    && (s.reader.NotFull? || s.reader.Reserved? || s.reader.DialFailed? || s.reader.Dialed?
      ==> |s.table| < MAX_SESSIONS)
    && !s.reader.Refused? && !s.reader.RefusedClosed?
  }

  lemma {:induction false} ReaderKeepsRoom(s: State, a: ReaderAction, maxPerIP: int)
    requires RoomKept(s) && ReaderCan(s, a)
    ensures RoomKept(ReaderStep(s, a, maxPerIP))
  {
    hide Taken, Released, HasRoom;
  }

  lemma {:induction false} OthersKeepRoom(s: State, w: SweeperAction, y: RelayAction)
    requires RoomKept(s)
    ensures SweeperCan(s, w) ==> RoomKept(SweeperStep(s, w))
    ensures RelayCan(s, y) ==> RoomKept(RelayStep(s, y))
  {
    hide Released, InTable;
    if w.Expire? && w.addr in s.table {
      DeleteCounts(s.table, w.addr);
    }
    if y.Remove? && Live(s.client, s.table, y.id) {
      DeleteCounts(s.table, s.client[y.id]);
    }
  }

  lemma {:induction false} StepKeepsRoom(s: State, a: Action, maxPerIP: int)
    requires RoomKept(s) && Can(s, a)
    ensures RoomKept(Step(s, a, maxPerIP))
  {
    hide ReaderStep, SweeperStep, RelayStep, ReaderCan, SweeperCan, RelayCan;
    match a
    case ByReader(r) => ReaderKeepsRoom(s, r, maxPerIP);
    case BySweeper(w) => OthersKeepRoom(s, w, Pay);
    case ByRelay(y) => OthersKeepRoom(s, End, y);
  }

  /** The capacity check repeated before the insertion never fails, because there is a single creator. */
  lemma {:induction false} SecondCheckNeverFails(actions: seq<Action>, maxPerIP: int)
    requires IsRun(actions, maxPerIP)
    ensures RoomKept(After(actions, maxPerIP))
  {
    if actions != [] {
      SecondCheckNeverFails(actions[..|actions| - 1], maxPerIP);
      StepKeepsRoom(After(actions[..|actions| - 1], maxPerIP), actions[|actions| - 1], maxPerIP);
    }
  }

  /**
   A permitted client is refused a slot exactly if there is a positive limit and its host has that many slots in use:
   sessions in the table and slots on their way there or back.
   */
  lemma {:induction false} RefusedExactlyAtLimit(actions: seq<Action>, maxPerIP: int, permitted: bool)
    requires IsRun(actions, maxPerIP) && Can(After(actions, maxPerIP), ByReader(Acquire(permitted)))
    ensures var s, t := After(actions, maxPerIP), Step(After(actions, maxPerIP), ByReader(Acquire(permitted)),
            maxPerIP);
            var addr := s.reader.addr;
            var used := InTable(s.table, addr.host) + InFlight(s.reader, addr.host)
              + Pending(s.lock, s.client, addr.host);
            if permitted && (maxPerIP <= 0 || used < maxPerIP)
            then t.reader == Reserved(addr) && Count(t.active, addr.host) == used + 1
            else t.reader == Idle && t.active == s.active
  {
    RunKeepsInv(actions, maxPerIP);
    var s := After(actions, maxPerIP);
    hide After, IsRun, Known, SoleCreator, Staged, SocketsClosed, InTable, Count, Taken;
    TakenCounts(s.active, s.reader.addr.host);
  }

  /** The closer closes every session that is in the table, and no other. */
  lemma {:induction false} CloserClosesTheTable(s: State, id: Id)
    requires Known(s) && Can(s, BySweeper(CloseAll))
    ensures id in SweeperStep(s, CloseAll).open <==> id in s.open && !Live(s.client, s.table, id)
  {
    if Live(s.client, s.table, id) {
      assert s.table[s.client[id]] in s.table.Values;
    }
  }

  /** A datagram from a new client gets past the first check exactly while the table has fewer than 4096 sessions. */
  lemma {:induction false} RefusedExactlyWhenFull(s: State, maxPerIP: int)
    requires Can(s, ByReader(CheckFull))
    ensures Step(s, ByReader(CheckFull), maxPerIP).reader == if |s.table| < 4096 then NotFull(s.reader.addr) else Idle
  {
  }

  /** A release never meets an absent counter: the saturating branch of Release hides no double release. */
  lemma {:induction false} ReleasesMeetTheirSlot(actions: seq<Action>, a: Action, maxPerIP: int)
    requires IsRun(actions, maxPerIP) && Can(After(actions, maxPerIP), a)
    ensures var s := After(actions, maxPerIP);
            && (a == ByReader(ReleaseUndialed) || a == ByReader(ReleaseRefused)
              ==> Count(s.active, s.reader.addr.host) > 0)
            && (a == BySweeper(PayVictim) ==> Count(s.active, s.client[s.lock.victim.id].host) > 0)
            && (a == ByRelay(Pay) ==> Count(s.active, s.client[s.lock.id].host) > 0)
  {
    RunKeepsInv(actions, maxPerIP);
    hide After, IsRun, Known, SoleCreator, Staged, SocketsClosed, InTable, Count;
  }

  /** Once the reader is idle, no sweep is under way and all relays are done, no session and no slot is left. */
  lemma {:induction false} Quiescence(actions: seq<Action>, maxPerIP: int)
    requires IsRun(actions, maxPerIP)
    requires var s := After(actions, maxPerIP);
             (s.reader.Idle? || s.reader.Stopped?) && s.lock.Free? && forall id | id in s.relays :: s.relays[id] == Done
    ensures var s := After(actions, maxPerIP); s.table == map[] && s.active == map[] && s.open == {}
  {
    RunKeepsInv(actions, maxPerIP);
    QuietIsEmpty(After(actions, maxPerIP), maxPerIP);
  }

  lemma {:induction false} QuietIsEmpty(s: State, maxPerIP: int)
    requires Inv(s, maxPerIP) && (s.reader.Idle? || s.reader.Stopped?) && s.lock.Free?
    requires forall id | id in s.relays :: s.relays[id] == Done
    ensures s.table == map[] && s.active == map[] && s.open == {}
  {
    forall a ensures a !in s.table {
      if a in s.table {
        EntryIsLive(s, a);
      }
    }
    forall h ensures h !in s.active {
      assert (set a | a in s.table && a.host == h) == {};
      assert Count(s.active, h) == 0;
    }
    forall id ensures id !in s.open {
      assert !Live(s.client, s.table, id);
      assert id in s.client ==> s.released[id] == 1;
    }
  }

  lemma {:induction false} EntryIsLive(s: State, a: Addr)
    requires Known(s) && a in s.table
    ensures Live(s.client, s.table, s.table[a])
  {
  }
}
