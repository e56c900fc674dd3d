/**
 Admission of TCP and UDP clients: allow and deny networks, and a counter of active connections for each host.
 The counter map holds no zero entries; a release of an absent host is a no-op, so callers must not release twice.
 */
module StreamPolicy {
  import opened Prelude
  import opened Networks

  type Active = map<string, int>

  function Count(active: Active, host: string): int {
    if host in active then active[host] else 0
  }

  ghost predicate NoZero(active: Active) {
    forall h | h in active :: active[h] > 0
  }

  predicate HasRoom(active: Active, maxPerIP: int, host: string) {
    maxPerIP <= 0 || Count(active, host) < maxPerIP
  }

  function Taken(active: Active, host: string): Active {
    active[host := Count(active, host) + 1]
  }

  function Released(active: Active, host: string): Active {
    if Count(active, host) <= 1 then active - {host} else active[host := active[host] - 1]
  }

  /** Taking and releasing move exactly the one count, keep the map free of zero entries, and undo each other. */
  lemma {:induction false} TakenCounts(active: Active, host: string)
    requires NoZero(active)
    ensures NoZero(Taken(active, host))
    ensures forall h :: Count(Taken(active, host), h) == Count(active, h) + if h == host then 1 else 0
    ensures Released(Taken(active, host), host) == active
  {
    assert Released(Taken(active, host), host) == active;
  }

  lemma {:induction false} ReleasedCounts(active: Active, host: string)
    requires NoZero(active) && Count(active, host) > 0
    ensures NoZero(Released(active, host))
    ensures forall h :: Count(Released(active, host), h) == Count(active, h) - if h == host then 1 else 0
  {
  }

  /**
   Whether the networks admit an address: no deny range contains it and, if there are allow ranges, one of them does.
   */
  ghost predicate Permits(allow: seq<Network>, deny: seq<Network>, ip: Option<nat>) {
    && ip.Some?
    && (forall n | n in deny :: !n.contains(ip.value))
    && (allow == [] || exists n | n in allow :: n.contains(ip.value))
  }

  /** A limit that is not positive is no limit; a positive one refuses exactly the hosts that hold that many slots. */
  lemma {:induction false} RoomExactly(active: Active, maxPerIP: int, host: string)
    ensures maxPerIP <= 0 ==> HasRoom(active, maxPerIP, host)
    ensures maxPerIP > 0 ==> (HasRoom(active, maxPerIP, host) <==> Count(active, host) < maxPerIP)
  {
  }

  class Policy {
    const allow: seq<Network>
    const deny: seq<Network>
    const maxPerIP: int
    var active: Active

    constructor (allow: seq<Network>, deny: seq<Network>, maxPerIP: int)
      ensures this.allow == allow && this.deny == deny && this.maxPerIP == maxPerIP && active == map[]
    {
      this.allow, this.deny, this.maxPerIP := allow, deny, maxPerIP;
      active := map[];
    }

    /** `ip` is the parsed host, or None when the host is not an address. */
    method Acquire(host: string, ip: Option<nat>) returns (ok: bool)
      modifies this
      ensures ok <==> Permits(allow, deny, ip) && HasRoom(old(active), maxPerIP, host)
      ensures ok <==> && ip.Some? && (forall n | n in deny :: !n.contains(ip.value))
                      && (allow == [] || exists n | n in allow :: n.contains(ip.value))
                      && (maxPerIP <= 0 || Count(old(active), host) < maxPerIP)
      ensures active == if ok then Taken(old(active), host) else old(active)
    {
      if ip.None? {
        return false;
      }
      for i := 0 to |deny|
        invariant forall k | 0 <= k < i :: !deny[k].contains(ip.value)
        invariant active == old(active)
      {
        if deny[i].contains(ip.value) {
          return false;
        }
      }
      if |allow| > 0 {
        var inside := WithinAny(allow, ip.value);
        if !inside {
          return false;
        }
      }
      if maxPerIP > 0 && Count(active, host) >= maxPerIP {
        return false;
      }
      active := active[host := Count(active, host) + 1];
      return true;
    }

    method Release(host: string)
      modifies this
      ensures active == Released(old(active), host)
    {
      if Count(active, host) <= 1 {
        active := active - {host};
        return;
      }
      active := active[host := active[host] - 1];
    }
  }
}
