/** CIDR ranges, shared by the stream policy and by the resolution of client addresses. */
module Networks {
  /** A network is whatever set of addresses its prefix denotes, addresses being numbers. */
  datatype Network = Network(contains: nat -> bool)

  method WithinAny(networks: seq<Network>, ip: nat) returns (found: bool)
    ensures found <==> exists n | n in networks :: n.contains(ip)
  {
    for i := 0 to |networks|
      invariant forall k | 0 <= k < i :: !networks[k].contains(ip)
    {
      if networks[i].contains(ip) {
        return true;
      }
    }
    return false;
  }
}
