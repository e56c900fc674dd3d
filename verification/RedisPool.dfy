/**
 The connection pool of the Redis client as a concurrent protocol.

 Any number of callers take a pooled connection or dial and set up a new one, send one command or two pipelined
 ones, read the replies and give the connection back or close it.  The server answers the commands of a
 connection in the order in which they were sent; dialing, writing and reading may fail at any time.  Replies
 carry no identification, so the pool is safe only if every connection in it has no reply outstanding.
 */
module RedisPool {
  type ConnId = nat
  type CallerId = nat

  datatype Verb = Auth | Select | Eval | Incr | Expire

  /** A command on the wire, with the caller who sent it; all commands are numbered in the order of sending. */
  datatype Command = Command(caller: CallerId, verb: Verb, serial: nat)

  /** What a caller came for: the token bucket script, or the pipelined increment of the fixed window. */
  datatype Job = TokenBucket | FixedWindow

  datatype Setup = Setup(password: bool, database: bool, capacity: nat)

  /** An open connection: commands sent whose replies are unread, and the setup it has completed. */
  datatype Conn = Conn(outstanding: seq<Command>, authenticated: bool, selected: bool)

  datatype Caller =
    | Outside
    | Dialing(job: Job)
    | SendingAuth(conn: ConnId, job: Job)
    | AwaitingAuth(conn: ConnId, job: Job, serial: nat)
    | SendingSelect(conn: ConnId, job: Job)
    | AwaitingSelect(conn: ConnId, job: Job, serial: nat)
    | Sending(conn: ConnId, job: Job)
    | AwaitingFirst(conn: ConnId, job: Job, serial: nat)
    | AwaitingSecond(conn: ConnId, job: Job, serial: nat)
    | Returning(conn: ConnId)
    | Closing(conn: ConnId)

  /** A reply that was read: the command its reader believes it answers, and the command it does answer. */
  datatype Read = Read(expected: Command, answered: Command)

  datatype State = State(
    conns: map<ConnId, Conn>, pool: seq<ConnId>, callers: map<CallerId, Caller>, next: ConnId,
    sent: nat,          // commands sent so far, and the next serial
    log: seq<Read>)

  const START := State(map[], [], map[], 0, 0, [])

  datatype Input = Good | ErrorReply | Broken

  datatype Action =
    | Enter(job: Job)          // take a pooled connection, or start dialing
    | Dial(ok: bool)
    | Send(ok: bool)           // set the deadline and write all commands of the stage
    | Receive(input: Input)    // set the deadline if needed and read one reply
    | Leave                    // give back, or close

  function At(s: State, c: CallerId): Caller {
    if c in s.callers then s.callers[c] else Outside
  }

  predicate HasConn(k: Caller) {
    !k.Outside? && !k.Dialing?
  }

  /** The commands written in a sending stage. */
  function Batch(k: Caller, c: CallerId, serial: nat): seq<Command> {
    match k
    case SendingAuth(_, _) => [Command(c, Auth, serial)]
    case SendingSelect(_, _) => [Command(c, Select, serial)]
    case Sending(_, job) =>
      if job == TokenBucket then [Command(c, Eval, serial)] else [Command(c, Incr, serial),
        Command(c, Expire, serial + 1)]
    case _ => []
  }

  predicate IsSending(k: Caller) {
    k.SendingAuth? || k.SendingSelect? || k.Sending?
  }

  /** The caller remembers the serial of the command whose reply it reads next. */
  function Sent(k: Caller, serial: nat): Caller
    requires IsSending(k)
  {
    match k
    case SendingAuth(conn, job) => AwaitingAuth(conn, job, serial)
    case SendingSelect(conn, job) => AwaitingSelect(conn, job, serial)
    case Sending(conn, job) => AwaitingFirst(conn, job, serial)
  }

  predicate IsAwaiting(k: Caller) {
    k.AwaitingAuth? || k.AwaitingSelect? || k.AwaitingFirst? || k.AwaitingSecond?
  }

  /** The command whose reply the caller believes to read. */
  function Expected(k: Caller, c: CallerId): Command
    requires IsAwaiting(k)
  {
    match k
    case AwaitingAuth(_, _, serial) => Command(c, Auth, serial)
    case AwaitingSelect(_, _, serial) => Command(c, Select, serial)
    case AwaitingFirst(_, job, serial) => Command(c, if job == TokenBucket then Eval else Incr, serial)
    case AwaitingSecond(_, _, serial) => Command(c, Expire, serial)
  }

  function AfterDial(g: Setup, conn: ConnId, job: Job): Caller {
    if g.password then SendingAuth(conn, job) else AfterAuth(g, conn, job)
  }

  function AfterAuth(g: Setup, conn: ConnId, job: Job): Caller {
    if g.database then SendingSelect(conn, job) else Sending(conn, job)
  }

  /** Where a caller goes after a reply that is not an error. */
  function AfterReply(g: Setup, k: Caller): Caller
    requires IsAwaiting(k)
  {
    match k
    case AwaitingAuth(conn, job, _) => AfterAuth(g, conn, job)
    case AwaitingSelect(conn, job, _) => Sending(conn, job)
    case AwaitingFirst(conn, job, serial) => if job == TokenBucket then Returning(conn)
      else AwaitingSecond(conn, job, serial + 1)
    case AwaitingSecond(conn, _, _) => Returning(conn)
  }

  predicate Can(s: State, c: CallerId, a: Action) {
    var k := At(s, c);
    match a
    case Enter(_) => k.Outside?
    case Dial(_) => k.Dialing?
    case Send(_) => IsSending(k) && k.conn in s.conns
    case Receive(input) => IsAwaiting(k) && k.conn in s.conns && (input.Broken? || s.conns[k.conn].outstanding != [])
    case Leave => k.Returning? || k.Closing?
  }

  function Step(g: Setup, s: State, c: CallerId, a: Action): State
    requires Can(s, c, a)
  {
    var k := At(s, c);
    match a
    case Enter(job) =>
      if s.pool != [] then s.(callers := s.callers[c := Sending(s.pool[0], job)], pool := s.pool[1..])
      else s.(callers := s.callers[c := Dialing(job)])
    case Dial(ok) =>
      if !ok then s.(callers := s.callers[c := Outside])
      else s.(callers := s.callers[c := AfterDial(g, s.next, k.job)],
        conns := s.conns[s.next := Conn([], false, false)], next := s.next + 1)
    case Send(ok) =>
      if !ok then s.(callers := s.callers[c := Closing(k.conn)])
      else
        var conn := s.conns[k.conn];
        var batch := Batch(k, c, s.sent);
        s.(callers := s.callers[c := Sent(k, s.sent)],
          conns := s.conns[k.conn := conn.(outstanding := conn.outstanding + batch)],
           sent := s.sent + |batch|)
    case Receive(input) =>
      if input.Broken? then s.(callers := s.callers[c := Closing(k.conn)])
      else
        var conn := s.conns[k.conn];
        var log := s.log + [Read(Expected(k, c), conn.outstanding[0])];
        var rest := conn.(outstanding := conn.outstanding[1..]);
        if input.ErrorReply? then s.(callers := s.callers[c := Closing(k.conn)], conns := s.conns[k.conn := rest],
          log := log)
        else
          var done := rest.(authenticated := rest.authenticated || k.AwaitingAuth?, selected := rest.selected
            || k.AwaitingSelect?);
          s.(callers := s.callers[c := AfterReply(g, k)], conns := s.conns[k.conn := done], log := log)
    case Leave =>
      if k.Returning? && |s.pool| < g.capacity then s.(callers := s.callers[c := Outside], pool := s.pool + [k.conn])
      else s.(callers := s.callers[c := Outside], conns := s.conns - {k.conn})
  }

  // ----- The invariant.

  predicate SetUp(g: Setup, conn: Conn) {
    (g.password ==> conn.authenticated) && (g.database ==> conn.selected)
  }

  /** Every pooled connection is open, set up, has no reply outstanding, and is pooled once. */
  ghost predicate Pooled(g: Setup, s: State) {
    && |s.pool| <= g.capacity
    && (forall i | 0 <= i < |s.pool| ::
          s.pool[i] in s.conns && s.conns[s.pool[i]].outstanding == [] && SetUp(g, s.conns[s.pool[i]]))
    && (forall i, j | 0 <= i < j < |s.pool| :: s.pool[i] != s.pool[j])
  }

  /** A caller's connection is open, in nobody else's hands and not in the pool. */
  ghost predicate Exclusive(s: State) {
    && (forall c | HasConn(At(s, c)) :: At(s, c).conn in s.conns && At(s, c).conn !in s.pool)
    && (forall c, d | c != d && HasConn(At(s, c)) && HasConn(At(s, d)) :: At(s, c).conn != At(s, d).conn)
    && (forall id | id in s.conns :: id < s.next)
  }

  /** No open connection is lost. */
  ghost predicate Accounted(s: State) {
    forall id | id in s.conns :: id in s.pool || exists c :: HasConn(At(s, c)) && At(s, c).conn == id
  }

  /** The replies outstanding on a caller's connection are exactly those to its own last batch that it has not read. */
  function Due(k: Caller, c: CallerId): seq<Command> {
    match k
    case AwaitingAuth(_, _, serial) => [Command(c, Auth, serial)]
    case AwaitingSelect(_, _, serial) => [Command(c, Select, serial)]
    case AwaitingFirst(_, job, serial) =>
      if job == TokenBucket then [Command(c, Eval, serial)] else [Command(c, Incr, serial),
        Command(c, Expire, serial + 1)]
    case AwaitingSecond(_, _, serial) => [Command(c, Expire, serial)]
    case _ => []
  }

  predicate CallerAligned(g: Setup, k: Caller, c: CallerId, conn: Conn) {
    && (!k.Closing? ==> conn.outstanding == Due(k, c))
    && (k.Sending? || k.AwaitingFirst? || k.AwaitingSecond? || k.Returning? ==> SetUp(g, conn))
    && (k.SendingSelect? || k.AwaitingSelect? ==> (g.password ==> conn.authenticated) && g.database)
    && (k.AwaitingSecond? ==> k.job == FixedWindow)
    && (k.SendingAuth? || k.AwaitingAuth? ==> g.password)
  }

  ghost predicate Aligned(g: Setup, s: State) {
    forall c | HasConn(At(s, c)) && At(s, c).conn in s.conns :: CallerAligned(g, At(s, c), c, s.conns[At(s, c).conn])
  }

  ghost predicate Answered(log: seq<Read>) {
    forall i | 0 <= i < |log| :: log[i].expected == log[i].answered
  }

  ghost predicate Inv(g: Setup, s: State) {
    Pooled(g, s) && Exclusive(s) && Accounted(s) && Aligned(g, s) && Answered(s.log)
  }

  /** A step moves only its own caller. */
  lemma {:induction false} OthersUnmoved(g: Setup, s: State, c: CallerId, a: Action)
    requires Can(s, c, a)
    ensures forall d | d != c :: At(Step(g, s, c, a), d) == At(s, d)
  {
  }

  lemma {:induction false} StepExclusive(g: Setup, s: State, c: CallerId, a: Action)
    requires Pooled(g, s) && Exclusive(s) && Can(s, c, a)
    ensures Exclusive(Step(g, s, c, a))
  {
    var t := Step(g, s, c, a);
    OthersUnmoved(g, s, c, a);
    assert a.Enter? && s.pool != [] ==> s.pool[0] in s.pool && s.pool[0] !in s.pool[1..];
    assert HasConn(At(s, c)) ==> At(s, c).conn in s.conns;
    forall d | d != c && HasConn(At(t, d))
      ensures At(t, d).conn in t.conns && At(t, d).conn !in t.pool
              && (HasConn(At(t, c)) ==> At(t, c).conn != At(t, d).conn)
    {
      assert At(s, d).conn in s.conns && At(s, d).conn !in s.pool;
    }
  }

  lemma {:induction false} StepPooled(g: Setup, s: State, c: CallerId, a: Action)
    requires Pooled(g, s) && Exclusive(s) && Aligned(g, s) && Can(s, c, a)
    ensures Pooled(g, Step(g, s, c, a))
  {
  }

  lemma {:induction false} StepAccounted(g: Setup, s: State, c: CallerId, a: Action)
    requires Accounted(s) && Can(s, c, a)
    ensures Accounted(Step(g, s, c, a))
  {
    var t := Step(g, s, c, a);
    OthersUnmoved(g, s, c, a);
    forall id | id in t.conns && id !in t.pool
      ensures exists d :: HasConn(At(t, d)) && At(t, d).conn == id
    {
      if id in s.conns && id !in s.pool {
        var d :| HasConn(At(s, d)) && At(s, d).conn == id;
        assert HasConn(At(t, d)) && At(t, d).conn == id;
      } else {
        assert HasConn(At(t, c)) && At(t, c).conn == id by {
          assert s.pool != [] ==> s.pool == [s.pool[0]] + s.pool[1..];
        }
      }
    }
  }

  /** The acting caller stays aligned with its connection, and the reply it reads is the one it expects. */
  lemma {:induction false} OwnAligned(g: Setup, s: State, c: CallerId, a: Action)
    requires Pooled(g, s) && Can(s, c, a) && Answered(s.log)
    requires HasConn(At(s, c)) ==> At(s, c).conn in s.conns && CallerAligned(g, At(s, c), c, s.conns[At(s, c).conn])
    ensures var t := Step(g, s, c, a);
            Answered(t.log) && (HasConn(At(t, c)) && At(t, c).conn in t.conns
              ==> CallerAligned(g, At(t, c), c, t.conns[At(t, c).conn]))
  {
  }

  lemma {:induction false} StepAligned(g: Setup, s: State, c: CallerId, a: Action)
    requires Pooled(g, s) && Exclusive(s) && Aligned(g, s) && Answered(s.log) && Can(s, c, a)
    ensures Aligned(g, Step(g, s, c, a)) && Answered(Step(g, s, c, a).log)
  {
    var t := Step(g, s, c, a);
    OthersUnmoved(g, s, c, a);
    OwnAligned(g, s, c, a);
    hide CallerAligned, Batch, Expected, AfterReply, AfterDial, Due, Sent, SetUp, Answered;
    forall d | d != c && HasConn(At(t, d)) && At(t, d).conn in t.conns
      ensures CallerAligned(g, At(t, d), d, t.conns[At(t, d).conn])
    {
      assert CallerAligned(g, At(s, d), d, s.conns[At(s, d).conn]);
    }
  }

  lemma {:induction false} StepKeepsInv(g: Setup, s: State, c: CallerId, a: Action)
    requires Inv(g, s) && Can(s, c, a)
    ensures Inv(g, Step(g, s, c, a))
  {
    hide Step, Can, Pooled, Exclusive, Accounted, Aligned, Answered;
    StepExclusive(g, s, c, a);
    StepPooled(g, s, c, a);
    StepAccounted(g, s, c, a);
    StepAligned(g, s, c, a);
  }

  // ----- Runs: any interleaving of any callers, with any failures.

  datatype Move = Move(caller: CallerId, action: Action)

  ghost predicate IsRun(g: Setup, moves: seq<Move>)
    decreases |moves|, 0
  {
    moves == [] || (IsRun(g, moves[..|moves| - 1])
                    && Can(After(g, moves[..|moves| - 1]), moves[|moves| - 1].caller, moves[|moves| - 1].action))
  }

  ghost function After(g: Setup, moves: seq<Move>): State
    requires IsRun(g, moves)
    decreases |moves|, 1
  {
    if moves == [] then START
    else Step(g, After(g, moves[..|moves| - 1]), moves[|moves| - 1].caller, moves[|moves| - 1].action)
  }

  lemma {:induction false} RunKeepsInv(g: Setup, moves: seq<Move>)
    requires IsRun(g, moves)
    ensures Inv(g, After(g, moves))
  {
    if moves != [] {
      var m := moves[|moves| - 1];
      RunKeepsInv(g, moves[..|moves| - 1]);
      StepKeepsInv(g, After(g, moves[..|moves| - 1]), m.caller, m.action);
    }
  }

  /**
   Every reply that any caller ever read, in any interleaving with any failures, answered the very command that caller
   had sent.
   */
  lemma {:induction false} RepliesAreOwn(g: Setup, moves: seq<Move>, i: nat)
    requires IsRun(g, moves) && i < |After(g, moves).log|
    ensures After(g, moves).log[i].expected == After(g, moves).log[i].answered
  {
    RunKeepsInv(g, moves);
  }

  /**
   The pool respects its capacity, and every pooled connection is open, set up, without unread replies, and held by
   nobody.
   */
  lemma {:induction false} PoolIsClean(g: Setup, moves: seq<Move>, i: nat)
    requires IsRun(g, moves) && i < |After(g, moves).pool|
    ensures var s := After(g, moves);
            && |s.pool| <= g.capacity
            && s.pool[i] in s.conns && s.conns[s.pool[i]].outstanding == [] && SetUp(g, s.conns[s.pool[i]])
            && (forall c | HasConn(At(s, c)) :: At(s, c).conn != s.pool[i])
            && (forall j | 0 <= j < |s.pool| && j != i :: s.pool[j] != s.pool[i])
  {
    RunKeepsInv(g, moves);
    var s := After(g, moves);
    assert s.pool[i] in s.pool;
  }

  /** Each open connection is in the pool or in the hands of exactly one caller. */
  lemma {:induction false} OneOwner(g: Setup, moves: seq<Move>, id: ConnId)
    requires IsRun(g, moves) && id in After(g, moves).conns && id !in After(g, moves).pool
    ensures var s := After(g, moves);
            exists c :: HasConn(At(s, c)) && At(s, c).conn == id
                        && forall d | HasConn(At(s, d)) && At(s, d).conn == id :: d == c
  {
    RunKeepsInv(g, moves);
    var s := After(g, moves);
    var c :| HasConn(At(s, c)) && At(s, c).conn == id;
    forall d | HasConn(At(s, d)) && At(s, d).conn == id ensures d == c {}
  }

  /** In every run nobody authenticates without a password, or selects a database that is not configured. */
  lemma {:induction false} SetsUpOnlyAsConfigured(g: Setup, moves: seq<Move>, c: CallerId)
    requires IsRun(g, moves)
    ensures var k := At(After(g, moves), c);
            (k.SendingAuth? || k.AwaitingAuth? ==> g.password) && (k.SendingSelect? || k.AwaitingSelect? ==> g.database)
  {
    RunKeepsInv(g, moves);
    var s := After(g, moves);
    assert HasConn(At(s, c)) ==> At(s, c).conn in s.conns && CallerAligned(g, At(s, c), c, s.conns[At(s, c).conn]);
  }

  // ----- Connections are reused, and closed only for a reason.

  /**
   In every run a caller dials only when it finds the pool empty; otherwise it takes the connection pooled longest.
   */
  lemma {:induction false} DialsOnlyWhenEmpty(g: Setup, moves: seq<Move>, c: CallerId, job: Job)
    requires IsRun(g, moves) && Can(After(g, moves), c, Enter(job))
    ensures var s, t := After(g, moves), Step(g, After(g, moves), c, Enter(job));
            if s.pool == [] then At(t, c) == Dialing(job)
            else At(t, c) == Sending(s.pool[0], job) && [s.pool[0]] + t.pool == s.pool
  {
  }

  /** In every run a caller gives up its connection only after a write or read failed or an error was replied. */
  lemma {:induction false} ClosingOnlyAfterFailure(g: Setup, moves: seq<Move>, c: CallerId, a: Action)
    requires IsRun(g, moves) && Can(After(g, moves), c, a)
    ensures At(Step(g, After(g, moves), c, a), c).Closing?
            <==> a == Send(false) || a == Receive(Broken) || a == Receive(ErrorReply)
  {
  }

  /**
   In every run an open connection is closed only by the caller that holds it, after a failure or when the pool is
   full.
   */
  lemma {:induction false} ClosedOnlyForReason(g: Setup, moves: seq<Move>, c: CallerId, a: Action, id: ConnId)
    requires IsRun(g, moves) && Can(After(g, moves), c, a) && id in After(g, moves).conns
    ensures var s, t := After(g, moves), Step(g, After(g, moves), c, a);
            id !in t.conns
            <==> a == Leave && At(s, c).conn == id && (At(s, c).Closing? || |s.pool| >= g.capacity)
  {
  }

  /** In every run a caller whose exchange succeeded leaves its connection to the pool if there is room. */
  lemma {:induction false} ReturnedIfRoom(g: Setup, moves: seq<Move>, c: CallerId)
    requires IsRun(g, moves) && At(After(g, moves), c).Returning? && |After(g, moves).pool| < g.capacity
    ensures var s := After(g, moves); Step(g, s, c, Leave).pool == s.pool + [At(s, c).conn]
  {
  }
}
