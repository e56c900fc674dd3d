/**
 The session table itself: the critical sections of the UDP protocol as methods that update it in place.
 Run one after another they keep the table and the per-host counters in exact agreement.
 */
module UdpTable {
  import opened Prelude
  import opened StreamPolicy
  import opened UdpProtocol

  const IDLE_TIMEOUT := 300_000_000_000

  class Session {
    const client: Addr
    var lastActivity: int
    var closed: bool

    constructor (client: Addr, now: int)
      ensures this.client == client && lastActivity == now && !closed
    {
      this.client := client;
      lastActivity, closed := now, false;
    }
  }

  class SessionTable {
    const policy: Policy
    var sessions: map<Addr, Session>

    ghost predicate Valid()
      reads this, policy
    {
      && (forall a | a in sessions :: sessions[a].client == a)
      && |sessions| <= MAX_SESSIONS
      && NoZero(policy.active)
      && forall h :: Count(policy.active, h) == InTable(sessions, h)
    }

    constructor (policy: Policy)
      requires policy.active == map[]
      ensures Valid() && this.policy == policy && sessions == map[]
    {
      this.policy := policy;
      sessions := map[];
      new;
      forall h ensures InTable(sessions, h) == 0 {
        assert (set a | a in sessions && a.host == h) == {};
      }
    }

    method Lookup(key: Addr, now: int) returns (session: Session?)
      requires Valid()
      modifies sessions.Values`lastActivity
      ensures Valid() && sessions == old(sessions)
      ensures if key in sessions then session == sessions[key] && session.lastActivity == now else session == null
      ensures forall a | a in sessions && a != key :: sessions[a].lastActivity == old(sessions[a].lastActivity)
    {
      session := null;
      if key in sessions {
        session := sessions[key];
        session.lastActivity := now;
      }
    }

    /** Traffic from the upstream keeps the session alive, whether or not it is still in the table. */
    method Touch(session: Session, now: int)
      requires Valid()
      modifies session`lastActivity
      ensures Valid() && sessions == old(sessions) && session.lastActivity == now
    {
      session.lastActivity := now;
    }

    /** Creates a session with a policy slot and a dialed socket, or leaves table and counters as they were. */
    method Create(client: Addr, ip: Option<nat>, dials: bool, now: int) returns (session: Session?)
      requires Valid() && client !in sessions
      modifies this, policy
      ensures Valid()
      ensures session != null <==>
                |old(sessions)| < MAX_SESSIONS && dials
                && Permits(policy.allow, policy.deny, ip) && HasRoom(old(policy.active), policy.maxPerIP, client.host)
      ensures session == null ==> sessions == old(sessions) && policy.active == old(policy.active)
      ensures session != null ==> fresh(session) && !session.closed && session.lastActivity == now
                                  && sessions == old(sessions)[client := session]
                                  && policy.active == Taken(old(policy.active), client.host)
    {
      hide InTable;
      if |sessions| >= MAX_SESSIONS {
        return null;
      }
      TakenCounts(policy.active, client.host);
      var ok := policy.Acquire(client.host, ip);
      if !ok {
        return null;
      }
      if !dials {
        policy.Release(client.host);
        return null;
      }
      var created := new Session(client, now);
      InsertCounts(sessions, client, created);
      if |sessions| >= MAX_SESSIONS {
        assert false;  // nobody else inserts; see SecondCheckNeverFails for the concurrent case
      }
      sessions := sessions[client := created];
      session := created;
    }

    /** Removes the entry only if it is still this very session. */
    method Remove(key: Addr, session: Session)
      requires Valid() && session.client == key
      modifies this, policy
      ensures Valid()
      ensures var own := key in old(sessions) && old(sessions)[key] == session;
              && sessions == (if own then old(sessions) - {key} else old(sessions))
              && policy.active == if own then Released(old(policy.active), key.host) else old(policy.active)
    {
      if key !in sessions || sessions[key] != session {
        return;
      }
      DeleteCounts(sessions, key);
      ReleasedCounts(policy.active, key.host);
      sessions := sessions - {key};
      policy.Release(session.client.host);
    }

    method CloseAll()
      requires Valid()
      modifies sessions.Values`closed
      ensures Valid() && sessions == old(sessions)
      ensures forall s | s in sessions.Values :: s.closed
    {
      var rest := sessions.Values;
      while rest != {}
        invariant rest <= sessions.Values
        invariant forall s | s in sessions.Values && s !in rest :: s.closed
        decreases rest
      {
        var s: Session :| s in rest;
        s.closed := true;
        rest := rest - {s};
      }
    }

    ghost predicate Idle(s: Session, now: int)
      reads s
    {
      now - s.lastActivity >= IDLE_TIMEOUT
    }

    /** The sweep's treatment of one idle session. */
    method Expire(key: Addr, session: Session)
      requires Valid() && key in sessions && sessions[key] == session
      modifies this, policy, session`closed
      ensures Valid() && sessions == old(sessions) - {key} && session.closed
      ensures policy.active == Released(old(policy.active), key.host)
      ensures forall a | a in sessions :: sessions[a] != session
    {
      hide InTable;
      DeleteCounts(sessions, key);
      ReleasedCounts(policy.active, key.host);
      sessions := sessions - {key};
      policy.Release(session.client.host);
      session.closed := true;
    }

    /** Removes exactly the sessions idle for five minutes, closes their sockets, and gives back one slot for each. */
    method Sweep(now: int)
      requires Valid()
      modifies this, policy, sessions.Values`closed
      ensures Valid()
      ensures sessions == map a | a in old(sessions)
              && now - old(sessions)[a].lastActivity < 300_000_000_000 :: old(sessions)[a]
      ensures forall a | a in old(sessions) && a !in sessions :: old(sessions)[a].closed
      ensures forall a | a in sessions :: sessions[a].closed == old(sessions[a].closed)
    {
      hide Valid;
      ghost var before := sessions;
      var rest := sessions.Keys;
      while rest != {}
        invariant Valid() && rest <= sessions.Keys <= before.Keys
        invariant forall a | a in sessions :: sessions[a] == before[a]
        invariant forall a | a in before && a !in rest :: a in sessions <==> now - before[a].lastActivity < IDLE_TIMEOUT
        invariant forall a | a in before && a !in sessions :: before[a].closed
        invariant forall a | a in sessions :: sessions[a].closed == old(sessions[a].closed)
        decreases rest
      {
        var key :| key in rest;
        rest := rest - {key};
        var session := sessions[key];
        if now - session.lastActivity >= IDLE_TIMEOUT {
          Expire(key, session);
        }
      }
    }
  }
}
