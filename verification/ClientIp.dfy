/**
 The client address behind trusted proxies: X-Forwarded-For is walked from the right, trusted hops are skipped,
 and the first hop that is malformed or not trusted decides.  How an address is parsed and printed is left open.
 */
module ClientIp {
  import opened Prelude
  import opened Networks
  import opened Text

  /** Parsing of an address to a number, and its canonical text. */
  datatype Addresses = Addresses(parse: string -> Option<nat>, render: nat -> string)

  /** `host` is the peer address without its port; the header fields are empty strings when absent. */
  datatype Request = Request(host: string, forwardedFor: string, realIP: string, connectingIP: string)

  function Entries(pieces: seq<string>): seq<string> {
    if pieces == [] then []
    else
      var n := |pieces| - 1;
      Entries(pieces[..n]) + if TrimSpace(pieces[n]) != "" then [TrimSpace(pieces[n])] else []
  }

  function ForwardedFor(value: string): seq<string> {
    Entries(Split(value, ','))
  }

  method ReadForwardedFor(value: string) returns (result: seq<string>)
    ensures result == ForwardedFor(value)
  {
    var parts := Split(value, ',');
    result := [];
    for i := 0 to |parts|
      invariant result == Entries(parts[..i])
    {
      if TrimSpace(parts[i]) != "" {
        result := result + [TrimSpace(parts[i])];
      }
      assert parts[..i + 1][..i] == parts[..i];
    }
    assert parts[..|parts|] == parts;
  }

  ghost predicate Trusted(trusted: seq<Network>, ip: nat) {
    exists n | n in trusted :: n.contains(ip)
  }

  /** A hop that ends the walk: not an address, or the address of nobody we trust. */
  ghost predicate Decisive(net: Addresses, trusted: seq<Network>, hop: string) {
    net.parse(hop).None? || !Trusted(trusted, net.parse(hop).value)
  }

  ghost predicate AnyDecisive(net: Addresses, trusted: seq<Network>, hops: seq<string>) {
    exists i | 0 <= i < |hops| :: Decisive(net, trusted, hops[i])
  }

  /** What the walk from the right arrives at. */
  datatype Walk = Malformed | Client(ip: nat) | AllTrusted

  ghost function WalkBack(net: Addresses, trusted: seq<Network>, hops: seq<string>): Walk {
    if hops == [] then AllTrusted
    else
      var n := |hops| - 1;
      if net.parse(hops[n]).None? then Malformed
      else if !Trusted(trusted, net.parse(hops[n]).value) then Client(net.parse(hops[n]).value)
      else WalkBack(net, trusted, hops[..n])
  }

  ghost function ClientIP(net: Addresses, trusted: seq<Network>, r: Request): string {
    if Decisive(net, trusted, r.host) then r.host
    else
      var hops := ForwardedFor(r.forwardedFor);
      match WalkBack(net, trusted, hops)
      case Malformed => r.host
      case Client(ip) => net.render(ip)
      case AllTrusted =>
        if hops != [] then r.host
        else if net.parse(TrimSpace(r.realIP)).Some? then net.render(net.parse(TrimSpace(r.realIP)).value)
        else if net.parse(TrimSpace(r.connectingIP)).Some? then net.render(net.parse(TrimSpace(r.connectingIP)).value)
        else r.host
  }

  method GetClientIP(net: Addresses, trusted: seq<Network>, r: Request) returns (client: string)
    ensures client == ClientIP(net, trusted, r)
  {
    hide TrimSpace, ForwardedFor;
    var remote := net.parse(r.host);
    if remote.None? {
      return r.host;
    }
    var known := WithinAny(trusted, remote.value);
    if !known {
      return r.host;
    }
    var addresses := ReadForwardedFor(r.forwardedFor);
    assert addresses[..|addresses|] == addresses;
    for i := |addresses| downto 0
      invariant WalkBack(net, trusted, addresses) == WalkBack(net, trusted, addresses[..i])
    {
      var candidate := net.parse(addresses[i]);
      assert addresses[..i + 1][..i] == addresses[..i];
      if candidate.None? {
        return r.host;
      }
      var inside := WithinAny(trusted, candidate.value);
      if !inside {
        return net.render(candidate.value);
      }
    }
    if |addresses| == 0 {
      var headers := [r.realIP, r.connectingIP];
      for i := 0 to 2
        invariant i > 0 ==> net.parse(TrimSpace(r.realIP)).None?
        invariant i > 1 ==> net.parse(TrimSpace(r.connectingIP)).None?
      {
        var candidate := net.parse(TrimSpace(headers[i]));
        if candidate.Some? {
          return net.render(candidate.value);
        }
      }
    }
    return r.host;
  }

  lemma {:induction false} EntriesConcat(a: seq<string>, b: seq<string>)
    ensures Entries(a + b) == Entries(a) + Entries(b)
  {
    if b == [] {
      assert a + b == a;
    } else {
      var n := |b| - 1;
      hide TrimSpace;
      var last := if TrimSpace(b[n]) != "" then [TrimSpace(b[n])] else [];
      assert (a + b)[..|a| + n] == a + b[..n] && (a + b)[|a| + n] == b[n];
      EntriesConcat(a, b[..n]);
      assert Entries(a + b) == Entries(a) + Entries(b[..n]) + last;
    }
  }

  /** Appending a header value after a comma appends its hops. */
  lemma {:induction false} ForwardedForConcat(p: string, s: string)
    ensures ForwardedFor(p + "," + s) == ForwardedFor(p) + ForwardedFor(s)
  {
    SplitConcat(p, s, ',');
    EntriesConcat(Split(p, ','), Split(s, ','));
  }

  /**
   The walk over two stretches of hops: the right one decides alone if it can, and otherwise leaves it to the left
   one.
   */
  lemma {:induction false} WalkConcat(net: Addresses, trusted: seq<Network>, left: seq<string>, right: seq<string>)
    ensures WalkBack(net, trusted, left + right)
            == if AnyDecisive(net, trusted, right) then WalkBack(net, trusted, right)
               else WalkBack(net, trusted, left)
  {
    if right == [] {
      assert left + right == left;
    } else {
      var n := |right| - 1;
      assert (left + right)[..|left| + n] == left + right[..n];
      WalkConcat(net, trusted, left, right[..n]);
      if !Decisive(net, trusted, right[n]) {
        assert AnyDecisive(net, trusted, right) == AnyDecisive(net, trusted, right[..n]) by {
          assert forall i | 0 <= i < n :: right[..n][i] == right[i];
        }
      }
    }
  }

  /**
   The rightmost decisive hop decides.  Whatever a client writes in front of what the trusted proxies appended has
   no effect once the appended part names a hop that is malformed or not trusted; and if it names none, it is the
   front part that is walked next.
   */
  lemma {:induction false} RightmostHopDecides(net: Addresses, trusted: seq<Network>, r: Request, front: string)
    ensures var extended := r.(forwardedFor := front + "," + r.forwardedFor);
            var hops := ForwardedFor(r.forwardedFor);
            if Decisive(net, trusted, r.host) || AnyDecisive(net, trusted, hops)
            then ClientIP(net, trusted, extended) == ClientIP(net, trusted, r)
            else hops != [] ==>
                 ClientIP(net, trusted, extended)
                 == match WalkBack(net, trusted, ForwardedFor(front)) case Client(ip) => net.render(ip) case _ => r.host
  {
    ForwardedForConcat(front, r.forwardedFor);
    var hops := ForwardedFor(r.forwardedFor);
    WalkConcat(net, trusted, ForwardedFor(front), hops);
    if AnyDecisive(net, trusted, hops) {
      WalkDecides(net, trusted, hops);
    }
  }

  lemma {:induction false} WalkDecides(net: Addresses, trusted: seq<Network>, hops: seq<string>)
    requires AnyDecisive(net, trusted, hops)
    ensures !WalkBack(net, trusted, hops).AllTrusted?
  {
    var n := |hops| - 1;
    var i :| 0 <= i < |hops| && Decisive(net, trusted, hops[i]);
    if i < n {
      assert hops[..n][i] == hops[i];
      WalkDecides(net, trusted, hops[..n]);
    }
  }

  /** From a peer that is not trusted, no header has any influence. */
  lemma {:induction false} UntrustedPeerIgnoresHeaders(net: Addresses, trusted: seq<Network>, r: Request)
    requires Decisive(net, trusted, r.host)
    ensures forall f, x, c :: ClientIP(net, trusted, Request(r.host, f, x, c)) == r.host
  {
  }

  /**
   The walk names a client exactly when some hop is an untrusted address and all hops to its right are trusted
   addresses.
   */
  lemma {:induction false} WalkFindsRightmost(net: Addresses, trusted: seq<Network>, hops: seq<string>, ip: nat)
    ensures WalkBack(net, trusted, hops) == Client(ip) <==>
            exists i | 0 <= i < |hops| :: net.parse(hops[i]) == Some(ip) && !Trusted(trusted, ip)
                                          && forall j | i < j < |hops| :: !Decisive(net, trusted, hops[j])
  {
    if hops != [] {
      var n := |hops| - 1;
      WalkFindsRightmost(net, trusted, hops[..n], ip);
      assert hops == hops[..n] + [hops[n]];
      if WalkBack(net, trusted, hops) == Client(ip) && !Decisive(net, trusted, hops[n]) {
        var i :| 0 <= i < n && net.parse(hops[..n][i]) == Some(ip) && !Trusted(trusted, ip)
                 && forall j | i < j < n :: !Decisive(net, trusted, hops[..n][j]);
        assert net.parse(hops[i]) == Some(ip) && forall j | i < j < |hops| :: !Decisive(net, trusted, hops[j]);
      }
      if i :| 0 <= i < |hops| && net.parse(hops[i]) == Some(ip) && !Trusted(trusted, ip)
              && forall j | i < j < |hops| :: !Decisive(net, trusted, hops[j]) {
        if i < n {
          assert hops[..n][i] == hops[i];
          assert forall j | i < j < n :: !Decisive(net, trusted, hops[..n][j]);
        }
      }
    }
  }

  // ----- What the header text means.

  lemma {:induction false} EntryOf(piece: string)
    ensures Entries([piece]) == if TrimSpace(piece) != "" then [TrimSpace(piece)] else []
  {
    hide TrimSpace;
    assert [piece][..0] == [];
  }

  /** White space in front of a header value, or behind it, does not matter. */
  lemma {:induction false} PaddingBefore(w: string, value: string)
    requires All(w, IsSpace)
    ensures ForwardedFor(w + value) == ForwardedFor(value)
  {
    var pieces := Split(value, ',');
    var first, rest := pieces[0], pieces[1..];
    SplitPadLeft(w, value, ',');
    TrimSpaceAround(w, first, "");
    assert w + first + "" == w + first && pieces == [first] + rest;
    hide TrimSpace, Entries;
    EntryOf(first);
    EntryOf(w + first);
    EntriesConcat([first], rest);
    EntriesConcat([w + first], rest);
  }

  lemma {:induction false} PaddingAfter(value: string, w: string)
    requires All(w, IsSpace)
    ensures ForwardedFor(value + w) == ForwardedFor(value)
  {
    var pieces := Split(value, ',');
    var n := |pieces| - 1;
    var front, last := pieces[..n], pieces[n];
    SplitPadRight(value, w, ',');
    TrimSpaceAround("", last, w);
    assert "" + last + w == last + w && pieces == front + [last];
    hide TrimSpace, Entries;
    EntryOf(last);
    EntryOf(last + w);
    EntriesConcat(front, [last]);
    EntriesConcat(front, [last + w]);
  }

  /** White space before or after any comma of the header changes no answer. */
  lemma {:induction false} PaddingIsIgnored(net: Addresses, trusted: seq<Network>, r: Request,
      p: string, left: string, right: string, s: string)
    requires All(left, IsSpace) && All(right, IsSpace)
    ensures ForwardedFor((p + left) + "," + (right + s)) == ForwardedFor(p + "," + s)
    ensures ClientIP(net, trusted, r.(forwardedFor := (p + left) + "," + (right + s)))
            == ClientIP(net, trusted, r.(forwardedFor := p + "," + s))
  {
    ForwardedForConcat(p + left, right + s);
    ForwardedForConcat(p, s);
    PaddingAfter(p, left);
    PaddingBefore(right, s);
  }

  /** No hop is blank, or begins or ends in white space. */
  lemma {:induction false} HopsAreTrimmed(value: string, hop: string)
    requires hop in ForwardedFor(value)
    ensures hop != "" && Trim(hop, IsSpace)
  {
    EntriesAreTrimmed(Split(value, ','), hop);
  }

  lemma {:induction false} EntriesAreTrimmed(pieces: seq<string>, hop: string)
    requires hop in Entries(pieces)
    ensures hop != "" && Trim(hop, IsSpace)
  {
    var n := |pieces| - 1;
    if hop in Entries(pieces[..n]) {
      EntriesAreTrimmed(pieces[..n], hop);
    } else {
      var left, right := Trimming(pieces[n]);
    }
  }

  /** A header as proxies write it: hops separated by commas, with some padding around each comma. */
  function Join(hops: seq<string>, left: string, right: string): string
    requires hops != []
  {
    var n := |hops| - 1;
    if n == 0 then hops[0] else Join(hops[..n], left, right) + left + "," + right + hops[n]
  }

  lemma {:induction false} OneHop(hop: string)
    requires hop != "" && Trim(hop, IsSpace) && ',' !in hop
    ensures ForwardedFor(hop) == [hop]
  {
    SplitWhole(hop, ',');
    TrimmingIsUnique("", hop, "");
    assert "" + hop + "" == hop;
    EntryOf(hop);
  }

  lemma {:induction false} OneMoreHop(front: string, left: string, right: string, hop: string)
    requires All(left, IsSpace) && All(right, IsSpace) && hop != "" && Trim(hop, IsSpace) && ',' !in hop
    ensures ForwardedFor(front + left + "," + right + hop) == ForwardedFor(front) + [hop]
  {
    hide ForwardedFor;
    assert front + left + "," + right + hop == (front + left) + "," + (right + hop);
    ForwardedForConcat(front + left, right + hop);
    PaddingAfter(front, left);
    PaddingBefore(right, hop);
    OneHop(hop);
  }

  /** Reading back a header gives exactly the hops that were written into it. */
  lemma {:induction false} HeaderRoundTrip(hops: seq<string>, left: string, right: string)
    requires hops != [] && All(left, IsSpace) && All(right, IsSpace)
    requires forall h | h in hops :: h != "" && Trim(h, IsSpace) && ',' !in h
    ensures ForwardedFor(Join(hops, left, right)) == hops
  {
    hide ForwardedFor, Trim, All;
    var n := |hops| - 1;
    assert hops[n] in hops && hops == hops[..n] + [hops[n]];
    if n == 0 {
      OneHop(hops[0]);
    } else {
      assert forall h | h in hops[..n] :: h in hops;
      HeaderRoundTrip(hops[..n], left, right);
      OneMoreHop(Join(hops[..n], left, right), left, right, hops[n]);
    }
  }

  // ----- The answer to a trusted peer.

  /** The i-th hop is the address of nobody we trust, and all hops to its right are trusted addresses. */
  ghost predicate NamesClient(net: Addresses, trusted: seq<Network>, hops: seq<string>, i: nat, ip: nat)
    requires i < |hops|
  {
    && net.parse(hops[i]) == Some(ip) && !Trusted(trusted, ip)
    && forall j | i < j < |hops| :: !Decisive(net, trusted, hops[j])
  }

  /** From a trusted peer with hops, the client named by them is the answer, and if they name none the peer itself. */
  lemma {:induction false} HopsAnswer(net: Addresses, trusted: seq<Network>, r: Request)
    requires !Decisive(net, trusted, r.host)
    ensures var hops := ForwardedFor(r.forwardedFor);
            && (forall i, ip | 0 <= i < |hops| && NamesClient(net, trusted, hops, i, ip) ::
                  ClientIP(net, trusted, r) == net.render(ip))
            && (hops != [] && (forall i, ip | 0 <= i < |hops| :: !NamesClient(net, trusted, hops, i, ip)) ==>
                  ClientIP(net, trusted, r) == r.host)
  {
    var hops := ForwardedFor(r.forwardedFor);
    forall i, ip | 0 <= i < |hops| && NamesClient(net, trusted, hops, i, ip)
      ensures WalkBack(net, trusted, hops) == Client(ip)
    {
      WalkFindsRightmost(net, trusted, hops, ip);
    }
    if WalkBack(net, trusted, hops).Client? {
      var ip := WalkBack(net, trusted, hops).ip;
      WalkFindsRightmost(net, trusted, hops, ip);
      var i :| 0 <= i < |hops| && net.parse(hops[i]) == Some(ip) && !Trusted(trusted, ip)
               && forall j | i < j < |hops| :: !Decisive(net, trusted, hops[j]);
      assert NamesClient(net, trusted, hops, i, ip);
    }
  }

  /** With hops, the other two headers have no influence. */
  lemma {:induction false} HopsSilenceOthers(net: Addresses, trusted: seq<Network>, r: Request, x: string, c: string)
    requires ForwardedFor(r.forwardedFor) != []
    ensures ClientIP(net, trusted, r.(realIP := x, connectingIP := c)) == ClientIP(net, trusted, r)
  {
  }

  /**
   Without hops, from a trusted peer: once X-Real-IP is an address it is the answer and CF-Connecting-IP has no
   influence;
   else CF-Connecting-IP is, if it is an address; else the peer itself.
   */
  lemma {:induction false} RealIPFirst(net: Addresses, trusted: seq<Network>, host: string, blank: string, x: string,
      c: string)
    requires !Decisive(net, trusted, host) && ForwardedFor(blank) == []
    ensures var answer := ClientIP(net, trusted, Request(host, blank, x, c));
            && (forall ip | net.parse(TrimSpace(x)) == Some(ip) :: answer == net.render(ip))
            && (net.parse(TrimSpace(x)).None? ==>
                  forall ip | net.parse(TrimSpace(c)) == Some(ip) :: answer == net.render(ip))
            && (net.parse(TrimSpace(x)).None? && net.parse(TrimSpace(c)).None? ==> answer == host)
  {
    hide TrimSpace;
  }
}
