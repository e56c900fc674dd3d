/**
 Configuration validation and the route table it protects: an accepted configuration registers pairwise distinct
 patterns, none of which is a built-in one, so the multiplexer never panics on a duplicate.
 */
module RouteTable {
  import opened Text

  predicate IsSlash(c: char) {
    c == '/'
  }

  // ----- Paths.

  function NormalizePath(value: string): string {
    var trimmed := TrimSpace(value);
    if trimmed == "" then "/"
    else
      var prefix := if HasPrefix(trimmed, "/") then trimmed else "/" + trimmed;
      if prefix == "/" then prefix
      else
        var cut := TrimRight(prefix, IsSlash);
        if cut == "" then "/" else cut
  }

  /** A path that starts with a slash and, unless it is the root, does not end in one. */
  predicate Normal(path: string) {
    path != "" && path[0] == '/' && (path == "/" || path[|path| - 1] != '/')
  }

  lemma {:induction false} NormalizePathIsNormal(value: string)
    ensures Normal(NormalizePath(value))
  {
    var trimmed := TrimSpace(value);
    if trimmed != "" {
      var prefix := if HasPrefix(trimmed, "/") then trimmed else "/" + trimmed;
      TrimRightMeaning(prefix, IsSlash);
      var cut := TrimRight(prefix, IsSlash);
      assert cut != "" ==> cut[0] == prefix[0];
    }
  }

  /** A normalized path is a fixed point exactly when it does not end in white space. */
  lemma {:induction false} NormalizePathFixed(path: string)
    requires Normal(path)
    ensures NormalizePath(path) == path <==> !IsSpace(path[|path| - 1])
  {
    assert TrimLeft(path, IsSpace) == path;
    var trimmed := TrimSpace(path);
    TrimRightMeaning(path, IsSpace);
    if trimmed == path {
      TrimRightMeaning(path, IsSlash);
    } else if trimmed != "" {
      assert trimmed[0] == '/' && |trimmed| < |path|;
      TrimRightMeaning(trimmed, IsSlash);
    }
  }

  lemma {:induction false} TrimmedIsKept(s: string)
    requires Trim(s, IsSpace)
    ensures TrimSpace(s) == s
  {
    TrimmingIsUnique("", s, "");
    assert "" + s + "" == s;
  }

  /** White space around a value does not matter, and a value with nothing else is the root. */
  lemma {:induction false} NormalizeIgnoresPadding(left: string, value: string, right: string)
    requires All(left, IsSpace) && All(right, IsSpace)
    ensures NormalizePath(left + value + right) == NormalizePath(value)
    ensures NormalizePath(left + right) == "/"
  {
    TrimSpaceAround(left, value, right);
    TrimSpaceAround(left, "", right);
    assert left + "" + right == left + right;
  }

  /** A missing leading slash is added; nothing else changes. */
  lemma {:induction false} NormalizeAddsSlash(value: string)
    requires value != "" && Trim(value, IsSpace) && value[0] != '/'
    ensures NormalizePath(value) == NormalizePath("/" + value)
  {
    TrimmedIsKept(value);
    TrimmedIsKept("/" + value);
  }

  /** A normal path other than the root that does not end in white space. */
  predicate Proper(p: string) {
    Normal(p) && |p| > 1 && !IsSpace(p[|p| - 1])
  }

  /** Any number of trailing slashes is dropped, and a leading slash may be left out where it is the only one. */
  lemma {:induction false} NormalizeDropsSlashes(p: string, slashes: string)
    requires Proper(p) && All(slashes, IsSlash)
    ensures NormalizePath(p + slashes) == p
    ensures p[1] != '/' && !IsSpace(p[1]) ==> NormalizePath(p[1..] + slashes) == p
  {
    var full := p + slashes;
    TrimmedIsKept(full);
    TrimRightDrops(p, slashes, IsSlash);
    if p[1] != '/' && !IsSpace(p[1]) {
      var short := p[1..] + slashes;
      assert "/" + short == full;
      TrimmedIsKept(short);
    }
  }

  /**
   However two different such paths are written, with or without the slash in front and with any slashes behind, they
   stay different.
   */
  lemma {:induction false} DistinctPathsStayDistinct(p: string, q: string, s: string, t: string)
    requires Proper(p) && p[1] != '/' && !IsSpace(p[1]) && All(s, IsSlash)
    requires Proper(q) && q[1] != '/' && !IsSpace(q[1]) && All(t, IsSlash) && p != q
    ensures forall x, y | x in {p + s, p[1..] + s} && y in {q + t, q[1..] + t} :: NormalizePath(x) != NormalizePath(y)
  {
    NormalizeDropsSlashes(p, s);
    NormalizeDropsSlashes(q, t);
  }

  // ----- Configuration.

  datatype Security = Security(
    rateLimit: int, rateLimitBurst: int, globalRateLimit: int, globalRateBurst: int,
    routeRateLimit: int, routeRateBurst: int, maxBody: int, maxConnsPerIP: int,
    allowCIDRs: seq<string>, denyCIDRs: seq<string>, trustedProxyCIDRs: seq<string>, internalCIDRs: seq<string>,
    jwtSecret: string, requireMTLS: bool, tlsCert: string, tlsKey: string, clientCA: string)

  datatype Upstream = Upstream(name: string, protocol: string, listen: string, path: string, serverURL: string,
    security: Security)

  datatype Config = Config(security: Security, skipPaths: seq<string>, upstreams: seq<Upstream>)

  datatype Kind = Stream(protocol: string) | Http | Unsupported

  function Lower(c: char): char {
    if 'A' <= c <= 'Z' then c - 'A' + 'a' else if c == '\U{212A}' then 'k' else c
  }

  function ToLower(s: string): (r: string)
    ensures |r| == |s|
  {
    seq(|s|, i requires 0 <= i < |s| => Lower(s[i]))
  }

  function KindOf(u: Upstream): Kind {
    var protocol := ToLower(TrimSpace(u.protocol));
    if protocol == "tcp" || protocol == "udp" then Stream(protocol)
    else if protocol in ["", "http", "https", "http2", "graphql", "websocket"] then Http
    else Unsupported
  }

  datatype Problem =
    | NegativeNumber | InvalidCIDR(value: string) | ShortSecret
    | RootSkipped | MissingAddress(i: nat) | ListenerTaken(i: nat)
    | BadCharacters(i: nat) | Reserved(i: nat) | PathTaken(i: nat) | UnknownProtocol(i: nat)
    | HalfTLS | MTLSWithoutTLS

  const RESERVED := ["/ping", "/health", "/metrics", "/leoxy"]

  ghost predicate UnderReserved(path: string) {
    exists r | r in RESERVED :: path == r || r + "/" <= path
  }

  method IsReserved(path: string) returns (reserved: bool)
    ensures reserved <==> UnderReserved(path)
  {
    for i := 0 to |RESERVED|
      invariant forall k | 0 <= k < i :: !(path == RESERVED[k] || RESERVED[k] + "/" <= path)
    {
      if path == RESERVED[i] || HasPrefix(path, RESERVED[i] + "/") {
        assert RESERVED[i] in RESERVED;
        return true;
      }
    }
    assert forall r | r in RESERVED :: exists k | 0 <= k < |RESERVED| :: r == RESERVED[k];
    return false;
  }

  predicate BadCharacter(c: char) {
    c in " \t\r\n{}"
  }

  ghost predicate Clean(path: string) {
    forall c | c in path :: !BadCharacter(c)
  }

  method ContainsAny(path: string) returns (found: bool)
    ensures found <==> !Clean(path)
  {
    for i := 0 to |path|
      invariant forall k | 0 <= k < i :: !BadCharacter(path[k])
    {
      if BadCharacter(path[i]) {
        return true;
      }
    }
    return false;
  }

  function Numbers(s: Security): seq<int> {
    [s.rateLimit, s.rateLimitBurst, s.globalRateLimit, s.globalRateBurst, s.routeRateLimit, s.routeRateBurst,
    s.maxBody, s.maxConnsPerIP]
  }

  function CIDRs(s: Security): seq<string> {
    s.allowCIDRs + s.denyCIDRs + s.trustedProxyCIDRs + s.internalCIDRs
  }

  /** The length of the text in bytes, as UTF-8 encodes it. */
  function Bytes(s: string): nat {
    if s == "" then 0
    else
      var c := s[|s| - 1] as int;
      Bytes(s[..|s| - 1]) + if c < 0x80 then 1 else if c < 0x800 then 2 else if c < 0x1_0000 then 3 else 4
  }

  ghost predicate Sound(s: Security, parses: string -> bool) {
    && s.rateLimit >= 0 && s.rateLimitBurst >= 0 && s.globalRateLimit >= 0 && s.globalRateBurst >= 0
    && s.routeRateLimit >= 0 && s.routeRateBurst >= 0 && s.maxBody >= 0 && s.maxConnsPerIP >= 0
    && (forall c | c in s.allowCIDRs || c in s.denyCIDRs || c in s.trustedProxyCIDRs || c in s.internalCIDRs ::
          parses(TrimSpace(c)))
    && (s.jwtSecret == "" || Bytes(s.jwtSecret) >= 32)
  }

  /** The same by the two lists that validation goes through. */
  lemma {:induction false} SoundInLists(s: Security, parses: string -> bool)
    ensures Sound(s, parses)
            <==> && (forall k | 0 <= k < |Numbers(s)| :: Numbers(s)[k] >= 0)
                 && (forall k | 0 <= k < |CIDRs(s)| :: parses(TrimSpace(CIDRs(s)[k])))
                 && (s.jwtSecret == "" || Bytes(s.jwtSecret) >= 32)
  {
    hide TrimSpace, Bytes;
    var n, lists := Numbers(s), CIDRs(s);
    assert n[0] == s.rateLimit && n[1] == s.rateLimitBurst && n[2] == s.globalRateLimit && n[3] == s.globalRateBurst;
    assert n[4] == s.routeRateLimit && n[5] == s.routeRateBurst && n[6] == s.maxBody && n[7] == s.maxConnsPerIP;
    assert forall c :: c in lists <==>
      c in s.allowCIDRs || c in s.denyCIDRs || c in s.trustedProxyCIDRs || c in s.internalCIDRs;
    assert (forall c | c in lists :: parses(TrimSpace(c)))
      <==> (forall k | 0 <= k < |lists| :: parses(TrimSpace(lists[k])));
  }

  method ValidateSecurity(s: Security, parses: string -> bool) returns (errs: seq<Problem>)
    ensures errs == [] <==> Sound(s, parses)
  {
    errs := [];
    var numbers, lists := Numbers(s), CIDRs(s);
    for i := 0 to |numbers|
      invariant errs == [] <==> forall k | 0 <= k < i :: numbers[k] >= 0
    {
      if numbers[i] < 0 {
        errs := errs + [NegativeNumber];
      }
    }
    for i := 0 to |lists|
      invariant errs == [] <==>
                  && (forall k | 0 <= k < |numbers| :: numbers[k] >= 0)
                  && forall k | 0 <= k < i :: parses(TrimSpace(lists[k]))
    {
      if !parses(TrimSpace(lists[i])) {
        errs := errs + [InvalidCIDR(lists[i])];
      }
    }
    SoundInLists(s, parses);
    if s.jwtSecret != "" && Bytes(s.jwtSecret) < 32 {
      errs := errs + [ShortSecret];
    }
  }

  function ListenerKey(u: Upstream): string {
    ToLower(TrimSpace(u.protocol)) + "|" + TrimSpace(u.listen)
  }

  // ----- What the texts mean.

  lemma {:induction false} ToLowerTwice(s: string)
    ensures ToLower(ToLower(s)) == ToLower(s)
  {
  }

  /** Padding and letter case of a protocol name do not matter. */
  lemma {:induction false} ProtocolIgnoresCase(u: Upstream, left: string, name: string, right: string)
    requires All(left, IsSpace) && All(right, IsSpace) && Trim(name, IsSpace) && Trim(ToLower(name), IsSpace)
    ensures KindOf(u.(protocol := left + name + right)) == KindOf(u.(protocol := ToLower(name)))
  {
    TrimmingIsUnique(left, name, right);
    TrimmedIsKept(ToLower(name));
    ToLowerTwice(name);
  }

  /** These protocol names, and no others, are served over HTTP, and these two as streams. */
  lemma {:induction false} ProtocolNames(u: Upstream, name: string)
    requires Trim(name, IsSpace) && ToLower(name) == name
    ensures KindOf(u.(protocol := name)).Http?
            <==> name in {"", "http", "https", "http2", "graphql", "websocket"}
    ensures KindOf(u.(protocol := name)).Stream? <==> name in {"tcp", "udp"}
  {
    TrimmedIsKept(name);
  }

  /** Two streams share a listener exactly if protocol and address are the same. */
  lemma {:induction false} ListenersClashExactly(u: Upstream, v: Upstream)
    requires KindOf(u).Stream? && KindOf(v).Stream?
    ensures ListenerKey(u) == ListenerKey(v) <==> KindOf(u) == KindOf(v) && TrimSpace(u.listen) == TrimSpace(v.listen)
  {
    hide TrimSpace;
    var p, q := ToLower(TrimSpace(u.protocol)), ToLower(TrimSpace(v.protocol));
    assert |p| == 3 && |q| == 3;
    assert ListenerKey(u)[..3] == p && ListenerKey(v)[..3] == q;
    assert ListenerKey(u)[4..] == TrimSpace(u.listen) && ListenerKey(v)[4..] == TrimSpace(v.listen);
  }

  /** Reserved are four paths and everything below them, and nothing that merely begins like one of them. */
  lemma {:induction false} ReservedExactly(path: string)
    ensures UnderReserved(path)
            <==> || path in {"/ping", "/health", "/metrics", "/leoxy"}
                 || "/ping/" <= path || "/health/" <= path || "/metrics/" <= path || "/leoxy/" <= path
  {
    assert "/ping" + "/" == "/ping/" && "/health" + "/" == "/health/";
    assert "/metrics" + "/" == "/metrics/" && "/leoxy" + "/" == "/leoxy/";
    assert RESERVED[0] == "/ping" && RESERVED[1] == "/health" && RESERVED[2] == "/metrics" && RESERVED[3] == "/leoxy";
  }

  ghost predicate UpstreamSound(u: Upstream, parses: string -> bool) {
    && Sound(u.security, parses)
    && match KindOf(u)
       case Stream(_) => TrimSpace(u.listen) != "" && TrimSpace(u.serverURL) != ""
       case Http => Clean(NormalizePath(u.path)) && !UnderReserved(NormalizePath(u.path))
       case Unsupported => false
  }

  ghost predicate Clash(u: Upstream, v: Upstream) {
    || (KindOf(u).Http? && KindOf(v).Http? && NormalizePath(u.path) == NormalizePath(v.path))
    || (KindOf(u).Stream? && KindOf(v).Stream? && ListenerKey(u) == ListenerKey(v))
  }

  ghost predicate NeedsTLS(cfg: Config, n: nat)
    requires n <= |cfg.upstreams|
  {
    || cfg.security.requireMTLS
    || exists i | 0 <= i < n :: KindOf(cfg.upstreams[i]).Http? && cfg.upstreams[i].security.requireMTLS
  }

  ghost predicate UpstreamsSound(cfg: Config, parses: string -> bool, n: nat)
    requires n <= |cfg.upstreams|
  {
    && (forall i | 0 <= i < n :: UpstreamSound(cfg.upstreams[i], parses))
    && (forall i, j | 0 <= i < j < n :: !Clash(cfg.upstreams[i], cfg.upstreams[j]))
  }

  /** What an acceptable configuration is, without the order in which it is examined. */
  ghost predicate Acceptable(cfg: Config, parses: string -> bool) {
    && Sound(cfg.security, parses)
    && (forall p | p in cfg.skipPaths :: NormalizePath(p) != "/")
    && UpstreamsSound(cfg, parses, |cfg.upstreams|)
    && (cfg.security.tlsCert == "" <==> cfg.security.tlsKey == "")
    && (NeedsTLS(cfg, |cfg.upstreams|) ==>
          cfg.security.tlsCert != "" && cfg.security.tlsKey != "" && cfg.security.clientCA != "")
  }

  ghost function PathsOf(u: Upstream): set<string> {
    if KindOf(u).Http? then {NormalizePath(u.path)} else {}
  }

  ghost function ListenersOf(u: Upstream): set<string> {
    if KindOf(u).Stream? then {ListenerKey(u)} else {}
  }

  /** One upstream, clause by clause. */
  lemma {:induction false} UpstreamSoundExactly(u: Upstream, parses: string -> bool)
    ensures UpstreamSound(u, parses)
            <==> && Sound(u.security, parses) && KindOf(u) != Unsupported
                 && (KindOf(u).Stream? ==> TrimSpace(u.listen) != "" && TrimSpace(u.serverURL) != "")
                 && (KindOf(u).Http? ==> !UnderReserved(NormalizePath(u.path)))
                 && (KindOf(u).Http? ==> forall c | c in NormalizePath(u.path) :: c !in {' ', '\t', '\r', '\n',
                   '{', '}'})
  {
    hide NormalizePath, KindOf, UnderReserved, Sound, TrimSpace;
  }

  ghost predicate WantsMTLS(u: Upstream) {
    KindOf(u).Http? && u.security.requireMTLS
  }

  lemma {:induction false} NeedsTLSExactly(cfg: Config)
    ensures NeedsTLS(cfg, |cfg.upstreams|)
            <==> cfg.security.requireMTLS || exists u | u in cfg.upstreams :: WantsMTLS(u)
  {
    hide KindOf;
    if u :| u in cfg.upstreams && WantsMTLS(u) {
      var i :| 0 <= i < |cfg.upstreams| && cfg.upstreams[i] == u;
      assert KindOf(cfg.upstreams[i]).Http? && cfg.upstreams[i].security.requireMTLS;
    }
    if i :| 0 <= i < |cfg.upstreams| && KindOf(cfg.upstreams[i]).Http? && cfg.upstreams[i].security.requireMTLS {
      assert WantsMTLS(cfg.upstreams[i]);
    }
  }

  /** A configuration, clause by clause, in terms of its settings alone. */
  lemma {:induction false} AcceptableExactly(cfg: Config, parses: string -> bool)
    ensures Acceptable(cfg, parses)
            <==> var s := cfg.security;
                 && Sound(s, parses) && (forall u | u in cfg.upstreams :: UpstreamSound(u, parses))
                 && (forall p | p in cfg.skipPaths :: NormalizePath(p) != "/")
                 && (forall i, j | 0 <= i < j < |cfg.upstreams| ::
                       var (u, v) := (cfg.upstreams[i], cfg.upstreams[j]);
                       && (KindOf(u).Http? && KindOf(v).Http? ==> NormalizePath(u.path) != NormalizePath(v.path))
                       && (KindOf(u).Stream? && KindOf(v).Stream? ==> ListenerKey(u) != ListenerKey(v)))
                 && (s.tlsCert == "" <==> s.tlsKey == "")
                 && (s.requireMTLS || (exists u | u in cfg.upstreams :: WantsMTLS(u)) ==>
                       s.tlsCert != "" && s.tlsKey != "" && s.clientCA != "")
  {
    NeedsTLSExactly(cfg);
    hide NormalizePath, KindOf, ListenerKey, UpstreamSound, Sound, NeedsTLS, WantsMTLS;
    assert (forall u | u in cfg.upstreams :: UpstreamSound(u, parses))
      <==> (forall i | 0 <= i < |cfg.upstreams| :: UpstreamSound(cfg.upstreams[i], parses));
    assert forall i, j | 0 <= i < j < |cfg.upstreams| :: !Clash(cfg.upstreams[i], cfg.upstreams[j]) <==>
      var (u, v) := (cfg.upstreams[i], cfg.upstreams[j]);
      && (KindOf(u).Http? && KindOf(v).Http? ==> NormalizePath(u.path) != NormalizePath(v.path))
      && (KindOf(u).Stream? && KindOf(v).Stream? ==> ListenerKey(u) != ListenerKey(v));
    hide Clash;
  }

  /** The part of validation that concerns one upstream; the maps remember paths and listeners seen. */
  method ValidateUpstream(u: Upstream, i: nat, parses: string -> bool, paths: map<string, string>,
      listeners: map<string, string>)
    returns (errs: seq<Problem>, paths': map<string, string>, listeners': map<string, string>)
    ensures errs == [] <==> UpstreamSound(u, parses) && PathsOf(u) !! paths.Keys && ListenersOf(u) !! listeners.Keys
    ensures errs == [] ==> paths'.Keys == paths.Keys + PathsOf(u) && listeners'.Keys == listeners.Keys + ListenersOf(u)
  {
    errs, paths', listeners' := [], paths, listeners;
    match KindOf(u)
    case Stream(protocol) =>
      var listen := TrimSpace(u.listen);
      if listen == "" || TrimSpace(u.serverURL) == "" {
        errs := errs + [MissingAddress(i)];
        return;
      }
      var key := protocol + "|" + listen;
      if key in listeners {
        errs := errs + [ListenerTaken(i)];
      }
      listeners' := listeners[key := u.name];
      var more := ValidateSecurity(u.security, parses);
      errs := errs + more;
    case Http =>
      var path := NormalizePath(u.path);
      var dirty := ContainsAny(path);
      if dirty {
        errs := errs + [BadCharacters(i)];
      }
      var reserved := IsReserved(path);
      if reserved {
        errs := errs + [Reserved(i)];
      }
      if path in paths {
        errs := errs + [PathTaken(i)];
      }
      paths' := paths[path := u.name];
      var more := ValidateSecurity(u.security, parses);
      errs := errs + more;
    case Unsupported =>
      errs := errs + [UnknownProtocol(i)];
  }

  lemma {:induction false} NothingSeen(cfg: Config, parses: string -> bool)
    ensures UpstreamsSound(cfg, parses, 0) && Remembers(cfg, 0, {}, {})
    ensures NeedsTLS(cfg, 0) <==> cfg.security.requireMTLS
  {
  }

  /** The loop over the upstreams. */
  method ValidateUpstreams(cfg: Config, parses: string -> bool) returns (errs: seq<Problem>, needTLS: bool)
    ensures errs == [] <==> UpstreamsSound(cfg, parses, |cfg.upstreams|)
    ensures needTLS <==> NeedsTLS(cfg, |cfg.upstreams|)
  {
    hide *;
    NothingSeen(cfg, parses);
    errs, needTLS := [], cfg.security.requireMTLS;
    var paths: map<string, string>, listeners: map<string, string> := map[], map[];
    assert paths.Keys == {} && listeners.Keys == {};
    for i := 0 to |cfg.upstreams|
      invariant errs == [] <==> UpstreamsSound(cfg, parses, i)
      invariant errs == [] ==> Remembers(cfg, i, paths.Keys, listeners.Keys)
      invariant needTLS <==> NeedsTLS(cfg, i)
    {
      ghost var p, l, clean := paths.Keys, listeners.Keys, errs == [];
      var more;
      more, paths, listeners := ValidateUpstream(cfg.upstreams[i], i, parses, paths, listeners);
      errs := errs + more;
      if clean {
        UpstreamAdds(cfg, parses, i, p, l);
      }
      SoundBefore(cfg, parses, i);
      NeedsTLSAdds(cfg, i);
      if KindOf(cfg.upstreams[i]).Http? && cfg.upstreams[i].security.requireMTLS {
        needTLS := true;
      }
    }
  }

  /** Validation reports nothing exactly for the acceptable configurations. */
  method Validate(cfg: Config, parses: string -> bool) returns (errs: seq<Problem>)
    ensures errs == [] <==> Acceptable(cfg, parses)
  {
    hide Sound, NormalizePath, KindOf, UpstreamsSound, NeedsTLS;
    var server := cfg.security;
    errs := ValidateSecurity(server, parses);
    for i := 0 to |cfg.skipPaths|
      invariant errs == [] <==>
                  Sound(server, parses) && forall k | 0 <= k < i :: NormalizePath(cfg.skipPaths[k]) != "/"
    {
      if NormalizePath(cfg.skipPaths[i]) == "/" {
        errs := errs + [RootSkipped];
      }
    }
    var more, needTLS := ValidateUpstreams(cfg, parses);
    errs := errs + more;
    if (server.tlsCert == "") != (server.tlsKey == "") {
      errs := errs + [HalfTLS];
    }
    if needTLS && (server.tlsCert == "" || server.tlsKey == "" || server.clientCA == "") {
      errs := errs + [MTLSWithoutTLS];
    }
  }

  /** The maps hold exactly the paths and listeners of the upstreams seen. */
  ghost predicate Remembers(cfg: Config, n: nat, paths: set<string>, listeners: set<string>)
    requires n <= |cfg.upstreams|
  {
    && (forall p :: p in paths <==> exists i | 0 <= i < n :: p in PathsOf(cfg.upstreams[i]))
    && (forall l :: l in listeners <==> exists i | 0 <= i < n :: l in ListenersOf(cfg.upstreams[i]))
  }

  lemma {:induction false} UpstreamAdds(cfg: Config, parses: string -> bool, n: nat, paths: set<string>,
      listeners: set<string>)
    requires n < |cfg.upstreams| && Remembers(cfg, n, paths, listeners)
    ensures var u := cfg.upstreams[n];
            && (UpstreamsSound(cfg, parses, n + 1) <==>
                  UpstreamsSound(cfg, parses, n) && UpstreamSound(u, parses) && PathsOf(u) !! paths
                    && ListenersOf(u) !! listeners)
            && Remembers(cfg, n + 1, paths + PathsOf(u), listeners + ListenersOf(u))
  {
    hide NormalizePath, KindOf, ListenerKey, UpstreamSound;
    var u := cfg.upstreams[n];
    assert forall i | 0 <= i < n :: Clash(cfg.upstreams[i], u) <==>
      !(PathsOf(u) !! PathsOf(cfg.upstreams[i]) && ListenersOf(u) !! ListenersOf(cfg.upstreams[i]));
  }

  lemma {:induction false} SoundBefore(cfg: Config, parses: string -> bool, n: nat)
    requires n < |cfg.upstreams|
    ensures UpstreamsSound(cfg, parses, n + 1) ==> UpstreamsSound(cfg, parses, n)
  {
    hide NormalizePath, KindOf, ListenerKey, UpstreamSound, Clash;
  }

  lemma {:induction false} NeedsTLSAdds(cfg: Config, n: nat)
    requires n < |cfg.upstreams|
    ensures NeedsTLS(cfg, n + 1) <==>
              NeedsTLS(cfg, n) || (KindOf(cfg.upstreams[n]).Http? && cfg.upstreams[n].security.requireMTLS)
  {
    hide KindOf;
  }

  // ----- Registration.

  const BUILT_IN := {"/ping", "/health/live", "/health/ready", "/metrics", "/leoxy"}

  function Patterns(path: string): set<string> {
    if path == "/" then {"/"} else {path, path + "/"}
  }

  lemma {:induction false} PatternsDisjoint(p: string, q: string)
    requires Normal(p) && Normal(q) && p != q
    ensures Patterns(p) !! Patterns(q)
  {
    assert (p + "/")[|p|] == '/' && (q + "/")[|q|] == '/';
    assert (p + "/")[..|p|] == p && (q + "/")[..|q|] == q;
  }

  lemma {:induction false} PatternsNotBuiltIn(p: string)
    requires Normal(p) && !UnderReserved(p)
    ensures Patterns(p) !! BUILT_IN
  {
    assert "/ping" in RESERVED && "/health" in RESERVED && "/metrics" in RESERVED && "/leoxy" in RESERVED;
    assert "/health" + "/" <= "/health/live" && "/health" + "/" <= "/health/ready";
    var last := (p + "/")[|p|];
    assert last == '/';
    assert forall b | b in BUILT_IN :: b[|b| - 1] != '/';
  }

  /** The multiplexer; registering a pattern twice panics, which the precondition of Handle rules out. */
  class Mux {
    var patterns: set<string>

    constructor ()
      ensures patterns == {}
    {
      patterns := {};
    }

    method Handle(pattern: string)
      requires pattern !in patterns
      modifies this
      ensures patterns == old(patterns) + {pattern}
    {
      patterns := patterns + {pattern};
    }
  }

  /** An HTTP upstream is registered if it has at least one usable server. */
  ghost function Registered(cfg: Config, usable: Upstream -> bool, n: nat): set<string>
    requires n <= |cfg.upstreams|
  {
    set i, p | 0 <= i < n && KindOf(cfg.upstreams[i]).Http? && usable(cfg.upstreams[i])
               && p in Patterns(NormalizePath(cfg.upstreams[i].path)) :: p
  }

  method RegisterHTTP(mux: Mux, path: string)
    requires Patterns(path) !! mux.patterns && |path| > 0
    modifies mux
    ensures mux.patterns == old(mux.patterns) + Patterns(path)
  {
    if path == "/" {
      mux.Handle("/");
    } else {
      assert |path + "/"| > |path|;
      mux.Handle(path);
      mux.Handle(path + "/");
    }
  }

  /**
   For every accepted configuration all registrations succeed: no pattern is registered twice, and the table holds the
   built-in patterns and those of the usable HTTP upstreams.
   */
  method RegisterAll(cfg: Config, parses: string -> bool, usable: Upstream -> bool) returns (mux: Mux)
    requires Acceptable(cfg, parses)
    ensures mux.patterns == BUILT_IN + Registered(cfg, usable, |cfg.upstreams|)
    ensures forall i | 0 <= i < |cfg.upstreams| && KindOf(cfg.upstreams[i]).Http? && usable(cfg.upstreams[i]) ::
              var path := NormalizePath(cfg.upstreams[i].path);
              path in mux.patterns && (path != "/" ==> path + "/" in mux.patterns)
  {
    hide NormalizePath, KindOf, Patterns, Registered, Acceptable;
    mux := RegisterBuiltIns();
    NoneRegistered(cfg, usable);
    for i := 0 to |cfg.upstreams|
      invariant mux.patterns == BEFORE_ROUTES + Registered(cfg, usable, i)
    {
      hide *;
      RegisteredAdds(cfg, usable, i);
      if KindOf(cfg.upstreams[i]).Http? && usable(cfg.upstreams[i]) {
        NextIsNew(cfg, parses, usable, i);
        RegisterHTTP(mux, NormalizePath(cfg.upstreams[i].path));
      }
    }
    ReadyIsNew(cfg, parses, usable, |cfg.upstreams|);
    mux.Handle("/health/ready");
    UsableAreServed(cfg, usable);
  }

  const BEFORE_ROUTES := {"/ping", "/health/live", "/metrics", "/leoxy"}

  method RegisterBuiltIns() returns (mux: Mux)
    ensures fresh(mux) && mux.patterns == BEFORE_ROUTES
  {
    mux := new Mux();
    mux.Handle("/ping");
    mux.Handle("/health/live");
    mux.Handle("/metrics");
    mux.Handle("/leoxy");
  }

  lemma {:induction false} NoneRegistered(cfg: Config, usable: Upstream -> bool)
    ensures Registered(cfg, usable, 0) == {}
  {
  }

  /** Every usable HTTP upstream is registered for its path and, unless that is the root, for everything below it. */
  lemma {:induction false} UsableAreServed(cfg: Config, usable: Upstream -> bool)
    ensures forall i | 0 <= i < |cfg.upstreams| && KindOf(cfg.upstreams[i]).Http? && usable(cfg.upstreams[i]) ::
              var path := NormalizePath(cfg.upstreams[i].path);
              && path in Registered(cfg, usable, |cfg.upstreams|)
              && (path != "/" ==> path + "/" in Registered(cfg, usable, |cfg.upstreams|))
  {
    hide KindOf, NormalizePath;
    forall i | 0 <= i < |cfg.upstreams|
      ensures var path := NormalizePath(cfg.upstreams[i].path);
              path in Patterns(path) && (path != "/" ==> path + "/" in Patterns(path))
    {
    }
  }

  lemma {:induction false} RegisteredAdds(cfg: Config, usable: Upstream -> bool, n: nat)
    requires n < |cfg.upstreams|
    ensures var u := cfg.upstreams[n];
            Registered(cfg, usable, n + 1)
            == Registered(cfg, usable, n) + if KindOf(u).Http? && usable(u) then Patterns(NormalizePath(u.path)) else {}
  {
    hide KindOf, Patterns, NormalizePath;
  }

  /** The patterns of the next HTTP upstream are new. */
  lemma {:induction false} NextIsNew(cfg: Config, parses: string -> bool, usable: Upstream -> bool, n: nat)
    requires Acceptable(cfg, parses) && n < |cfg.upstreams| && KindOf(cfg.upstreams[n]).Http?
    ensures NormalizePath(cfg.upstreams[n].path) != ""
    ensures Patterns(NormalizePath(cfg.upstreams[n].path)) !! BUILT_IN + Registered(cfg, usable, n)
  {
    var p := NormalizePath(cfg.upstreams[n].path);
    NormalizePathIsNormal(cfg.upstreams[n].path);
    assert UpstreamSound(cfg.upstreams[n], parses);
    PatternsNotBuiltIn(p);
    forall i | 0 <= i < n && KindOf(cfg.upstreams[i]).Http?
      ensures Patterns(NormalizePath(cfg.upstreams[i].path)) !! Patterns(p)
    {
      NormalizePathIsNormal(cfg.upstreams[i].path);
      assert !Clash(cfg.upstreams[i], cfg.upstreams[n]);
      PatternsDisjoint(NormalizePath(cfg.upstreams[i].path), p);
    }
  }

  lemma {:induction false} ReadyIsNew(cfg: Config, parses: string -> bool, usable: Upstream -> bool, n: nat)
    requires Acceptable(cfg, parses) && n <= |cfg.upstreams|
    ensures "/health/ready" !in Registered(cfg, usable, n)
  {
    forall i | 0 <= i < n && KindOf(cfg.upstreams[i]).Http?
      ensures "/health/ready" !in Patterns(NormalizePath(cfg.upstreams[i].path))
    {
      NormalizePathIsNormal(cfg.upstreams[i].path);
      assert UpstreamSound(cfg.upstreams[i], parses);
      PatternsNotBuiltIn(NormalizePath(cfg.upstreams[i].path));
    }
  }

  /** No pattern that an accepted configuration registers could be read as a method, a host or a wildcard. */
  lemma {:induction false} PatternsArePlain(cfg: Config, parses: string -> bool, i: nat, pattern: string)
    requires Acceptable(cfg, parses) && i < |cfg.upstreams| && KindOf(cfg.upstreams[i]).Http?
    requires pattern in Patterns(NormalizePath(cfg.upstreams[i].path))
    ensures pattern != "" && pattern[0] == '/'
    ensures forall c | c in {' ', '\t', '\r', '\n', '{', '}'} :: c !in pattern
  {
    NormalizePathIsNormal(cfg.upstreams[i].path);
    assert UpstreamSound(cfg.upstreams[i], parses);
    var path := NormalizePath(cfg.upstreams[i].path);
    hide NormalizePath, KindOf, UnderReserved, Sound;
    forall c | c in {' ', '\t', '\r', '\n', '{', '}'} ensures c !in pattern {
      assert c in path ==> !BadCharacter(c);
    }
  }
}
