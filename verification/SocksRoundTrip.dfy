/**
 * From the bytes a client sends (RFC 1928, RFC 1929) to the destination the server uses: the address
 * printed by the socks-tcp-connect handler of src/server/http-combo-server.ts, and getDestination of
 * src/util/url.ts reading it back.
 */
module SocksRoundTrip {
  import opened Prelude
  import opened Text
  import opened Socks

  // ---- The tunnel address as text --------------------------------------------------------------

  function AddressString(a: Address): string {
    match a
    case Ipv4(ip, port) => ip + ":" + Decimal(port)
    case Ipv6(ip, port) => "[" + ip + "]:" + Decimal(port)
    case Hostname(hostname, port) => hostname + ":" + Decimal(port)
  }

  datatype Destination = Destination(hostname: string, port: int)

  datatype UrlError = UnknownProtocol(protocol: string) | InvalidPort(port: string)

  function DefaultPort(protocol: string): Result<nat, UrlError> {
    var name := if protocol != [] && protocol[|protocol| - 1] == ':' then protocol[..|protocol| - 1] else protocol;
    if name == "https" || name == "wss" then Ok(443)
    else if name == "http" || name == "ws" then Ok(80)
    else Err(UnknownProtocol(name))
  }

  /** The default ports, with or without the colon that a parsed URL's protocol ends in. */
  lemma DefaultPorts()
    ensures DefaultPort("http") == DefaultPort("ws") == DefaultPort("http:") == DefaultPort("ws:") == Ok(80)
    ensures DefaultPort("https") == DefaultPort("wss") == DefaultPort("https:") == DefaultPort("wss:") == Ok(443)
    ensures DefaultPort("ftp") == Err(UnknownProtocol("ftp"))
  {
  }

  predicate Bracketed(h: string) { |h| > 0 && h[0] == '[' && h[|h| - 1] == ']' }

  function Unbracket(h: string): string { if Bracketed(h) then h[1..|h| - 1] else h }

  function GetDestination(protocol: string, host: string): Result<Destination, UrlError> {
    var colon := LastIndex(host, ':');
    var hostname := Unbracket(if colon.Some? then host[..colon.value] else host);
    var portString := if colon.Some? then host[colon.value + 1..] else "";
    if portString == "" then
      match DefaultPort(protocol)
      case Ok(port) => Ok(Destination(hostname, port))
      case Err(e) => Err(e)
    else
      match ParseInt(portString)
      case Some(port) => Ok(Destination(hostname, port))
      case None => Err(InvalidPort(portString))
  }

  /** With a printed port the host comes back as it was, less one pair of brackets around it. */
  lemma PrintedPortComesBack(protocol: string, host: string, port: nat)
    ensures GetDestination(protocol, host + ":" + Decimal(port)) == Ok(Destination(Unbracket(host), port))
    ensures Unbracket(host) == host <==> !Bracketed(host)
  {
    LastIndexAt(host, Decimal(port), ':');
    ParseIntInvertsDecimal(port);
    var s := host + ":" + Decimal(port);
    assert s[..|host|] == host && s[|host| + 1..] == Decimal(port);
  }

  /**
   * Without a port the host is recovered with the protocol's default port exactly when it has no
   * colon and no brackets; in particular a bracketed IPv6 host without a port never is.
   */
  lemma BareHostIsKeptIff(protocol: string, host: string)
    requires DefaultPort(protocol).Ok?
    ensures GetDestination(protocol, host) == Ok(Destination(host, DefaultPort(protocol).value))
      <==> ':' !in host && !Bracketed(host)
    ensures ':' in host ==> forall d :: GetDestination(protocol, host) == Ok(d) ==> |d.hostname| < |host|
  {
    hide LastIndex, ParseInt, DefaultPort;
    var colon := LastIndex(host, ':');
    if colon.Some? {
      assert |Unbracket(host[..colon.value])| <= colon.value < |host|;
    } else {
      assert |Unbracket(host)| == |host| <==> !Bracketed(host);
    }
  }

  lemma BracketedIpv6IsMisSplit()
    ensures GetDestination("http", "[::1]") == Ok(Destination("[:", 1))
  {
    hide LastIndex, ParseInt;
    var host := "[::1]";
    assert host == "[:" + ":" + "1]";
    LastIndexAt("[:", "1]", ':');
    assert host[..2] == "[:" && host[3..] == "1]";
    ParseIntReadsDigits("1", "]");
    assert "1" + "]" == "1]" && "1"[..0] == [] && DigitsValue("1") == 1;
  }

  // ---- What a client sends ---------------------------------------------------------------------

  datatype Target = V4(bytes: Bytes, port: nat) | Name(name: Bytes, port: nat) | V6(bytes: Bytes, port: nat) {
    predicate Valid() {
      && port < 0x10000
      && match this
         case V4(b, _) => |b| == 4
         case Name(n, _) => |n| < 0x100
         case V6(b, _) => |b| == 16
    }

    /** The address as the server names it. */
    function Address(): Address
      requires Valid()
    {
      match this
      case V4(b, p) => Ipv4(DottedQuad(b), p)
      case Name(n, p) => Hostname(FromAscii(n), p)
      case V6(b, p) => Ipv6(Ipv6Text(b), p)
    }

    /** The host as text, without brackets. */
    function Host(): string
      requires Valid()
    {
      match this
      case V4(b, _) => DottedQuad(b)
      case Name(n, _) => FromAscii(n)
      case V6(b, _) => Ipv6Text(b)
    }
  }

  /** This is the client's target, read without the functions that print addresses. */
  predicate Describes(a: Address, t: Target) {
    match t
    case V4(b, port) => a.Ipv4? && ReadsAsIpv4(a.ip, b) && a.port == port
    case Name(n, port) => a.Hostname? && ReadsAsAscii(a.hostname, n) && a.port == port
    case V6(b, port) => a.Ipv6? && ReadsAsIpv6(a.ip, b) && a.port == port
  }

  predicate NamesHost(host: string, t: Target) {
    match t
    case V4(b, _) => ReadsAsIpv4(host, b)
    case Name(n, _) => ReadsAsAscii(host, n)
    case V6(b, _) => ReadsAsIpv6(host, b)
  }

  lemma TargetIsDescribed(t: Target)
    requires t.Valid()
    ensures Describes(t.Address(), t) && NamesHost(t.Host(), t)
  {
    match t
    case V4(b, _) => Ipv4TextReads(b);
    case Name(_, _) =>
    case V6(b, _) => Ipv6TextReads(b);
  }

  function PortBytes(port: nat): Bytes
    requires port < 0x10000
  {
    [port / 256, port % 256]
  }

  /** A CONNECT request, section 4 of RFC 1928. */
  function EncodeRequest(t: Target, reserved: byte): Bytes
    requires t.Valid()
  {
    match t
    case V4(b, port) => [0x05, 0x01, reserved, 0x01] + b + PortBytes(port)
    case Name(n, port) => [0x05, 0x01, reserved, 0x03] + [|n|] + n + PortBytes(port)
    case V6(b, port) => [0x05, 0x01, reserved, 0x04] + b + PortBytes(port)
  }

  /** A read of exactly these bytes resolves, whatever follows them. */
  lemma DrainOnce(cfg: Config, state: State, data: Bytes, rest: Bytes, before: seq<Action>)
    requires Wants(state) == Exactly(|data|) && |data| > 0
    ensures var (next, actions) := OnBytes(cfg, state, data);
      Drain(cfg, Socket(state, data + rest, before)) == Drain(cfg, Socket(next, rest, before + actions))
  {
  }

  /** The same for a read that makes the coroutine do nothing but read on. */
  lemma DrainSilently(cfg: Config, state: State, data: Bytes, rest: Bytes, before: seq<Action>, next: State)
    requires Wants(state) == Exactly(|data|) && |data| > 0 && OnBytes(cfg, state, data) == (next, [])
    ensures Drain(cfg, Socket(state, data + rest, before)) == Drain(cfg, Socket(next, rest, before))
  {
    DrainOnce(cfg, state, data, rest, before);
    assert before + [] == before;
  }

  lemma DrainToNull(cfg: Config, state: State, data: Bytes, rest: Bytes, before: seq<Action>)
    requires Wants(state).ToNull? && 0 !in data
    ensures var (next, actions) := OnNull(state, data);
      Drain(cfg, Socket(state, data + ([0] + rest), before)) == Drain(cfg, Socket(next, rest, before + actions))
  {
    var b := data + ([0] + rest);
    IndexOfAppend(data, [0] + rest, 0);
    assert forall i :: 0 <= i < |data| ==> data[i] in data;
    assert b[..|data|] == data && b[|data| + 1..] == rest;
  }

  lemma DrainStops(cfg: Config, a: Address, rest: Bytes, actions: seq<Action>)
    ensures var s := Socket(Connected(a), rest, actions); Drain(cfg, s) == s
  {
  }

  predicate Understood(cfg: Config, t: Target, request: Bytes, rest: Bytes, before: seq<Action>)
    requires t.Valid()
  {
    Drain(cfg, Socket(V5Request, request + rest, before))
      == Socket(Connected(t.Address()), rest, before + [Write(S5Granted), Connect(t.Address())])
  }

  lemma Ipv4RequestIsUnderstood(cfg: Config, t: Target, reserved: byte, rest: Bytes, before: seq<Action>)
    requires t.Valid() && t.V4?
    ensures Understood(cfg, t, EncodeRequest(t, reserved), rest, before)
  {
    hide Drain;
    var head, data := [0x05, 0x01, reserved, 0x01], t.bytes + PortBytes(t.port);
    assert EncodeRequest(t, reserved) + rest == head + (data + rest);
    DrainSilently(cfg, V5Request, head, data + rest, before, V5Ipv4);
    DrainOnce(cfg, V5Ipv4, data, rest, before);
    assert data[..4] == t.bytes && Uint16(data, 4) == t.port;
    DrainStops(cfg, t.Address(), rest, before + [Write(S5Granted), Connect(t.Address())]);
  }

  lemma NameRequestIsUnderstood(cfg: Config, t: Target, reserved: byte, rest: Bytes, before: seq<Action>)
    requires t.Valid() && t.Name?
    ensures Understood(cfg, t, EncodeRequest(t, reserved), rest, before)
  {
    hide Drain;
    var head, length, data := [0x05, 0x01, reserved, 0x03], [|t.name|], t.name + PortBytes(t.port);
    assert EncodeRequest(t, reserved) + rest == head + (length + (data + rest));
    DrainSilently(cfg, V5Request, head, length + (data + rest), before, V5NameLength);
    DrainSilently(cfg, V5NameLength, length, data + rest, before, V5Name(|t.name|));
    DrainOnce(cfg, V5Name(|t.name|), data, rest, before);
    assert data[..|t.name|] == t.name && Uint16(data, |t.name|) == t.port;
    DrainStops(cfg, t.Address(), rest, before + [Write(S5Granted), Connect(t.Address())]);
  }

  lemma Ipv6RequestIsUnderstood(cfg: Config, t: Target, reserved: byte, rest: Bytes, before: seq<Action>)
    requires t.Valid() && t.V6?
    ensures Understood(cfg, t, EncodeRequest(t, reserved), rest, before)
  {
    hide Drain;
    var head, data := [0x05, 0x01, reserved, 0x04], t.bytes + PortBytes(t.port);
    assert EncodeRequest(t, reserved) + rest == head + (data + rest);
    DrainSilently(cfg, V5Request, head, data + rest, before, V5Ipv6);
    DrainOnce(cfg, V5Ipv6, data, rest, before);
    assert data[..16] == t.bytes && Uint16(data, 16) == t.port;
    DrainStops(cfg, t.Address(), rest, before + [Write(S5Granted), Connect(t.Address())]);
  }

  /**
   * Every request is answered by success and parsed to an address that describes the client's target;
   * what follows it stays in the socket.
   */
  lemma RequestIsUnderstood(cfg: Config, t: Target, reserved: byte, rest: Bytes, before: seq<Action>)
    requires t.Valid()
    ensures Understood(cfg, t, EncodeRequest(t, reserved), rest, before)
    ensures Describes(t.Address(), t) && S5Granted == [0x05, 0x00, 0x00, 0x01, 0, 0, 0, 0, 0, 0]
  {
    TargetIsDescribed(t);
    match t
    case V4(_, _) => Ipv4RequestIsUnderstood(cfg, t, reserved, rest, before);
    case Name(_, _) => NameRequestIsUnderstood(cfg, t, reserved, rest, before);
    case V6(_, _) => Ipv6RequestIsUnderstood(cfg, t, reserved, rest, before);
  }

  /** What the client sends for the method the server selects. */
  datatype Credentials = Nobody | User(version: byte, metadata: Bytes) | Custom(metadata: Bytes) {
    function Method(): AuthMethod {
      match this case Nobody => NoAuth case User(_, _) => UserPasswordMetadata case Custom(_) => CustomMetadata
    }

    /** Metadata of no bytes is never read, so it is not a message the server can accept. */
    predicate Acceptable(cfg: Config) {
      match this
      case Nobody => true
      case User(_, m) => 0 < |m| < 0x100 && cfg.parses(m)
      case Custom(m) => 0 < |m| < 0x10000 && cfg.parses(m)
    }

    function Encode(): Bytes {
      match this
      case Nobody => []
      case User(v, m) => [v, 8] + Ascii("metadata") + [|m| % 256] + m
      case Custom(m) => [|m| / 256 % 256, |m| % 256] + m
    }

    function Actions(): seq<Action> {
      match this
      case Nobody => []
      case User(_, m) => [SetMetadata(m), Write([0x05, 0x00])]
      case Custom(m) => [SetMetadata(m), Write([0x05, 0x00])]
    }
  }

  predicate Accepted(cfg: Config, c: Credentials, rest: Bytes, before: seq<Action>) {
    Drain(cfg, Socket(StartAuth(c.Method()), c.Encode() + rest, before))
      == Drain(cfg, Socket(V5Request, rest, before + c.Actions()))
  }

  lemma CustomIsAccepted(cfg: Config, c: Credentials, rest: Bytes, before: seq<Action>)
    requires c.Acceptable(cfg) && c.Custom?
    ensures Accepted(cfg, c, rest, before)
  {
    hide Drain;
    var m := c.metadata;
    var length := [|m| / 256 % 256, |m| % 256];
    assert c.Encode() + rest == length + (m + rest);
    DrainSilently(cfg, MetadataLength, length, m + rest, before, MetadataBody(|m|));
    DrainOnce(cfg, MetadataBody(|m|), m, rest, before);
  }

  lemma UserIsAccepted(cfg: Config, c: Credentials, rest: Bytes, before: seq<Action>)
    requires c.Acceptable(cfg) && c.User?
    ensures Accepted(cfg, c, rest, before)
  {
    hide Drain;
    var m, name := c.metadata, Ascii("metadata");
    var head, length: Bytes := [c.version, 8], [|m| % 256];
    assert |name| == 8;
    assert c.Encode() + rest == head + (name + (length + (m + rest)));
    DrainSilently(cfg, UserHeader, head, name + (length + (m + rest)), before, UserName(8));
    DrainSilently(cfg, UserName(8), name, length + (m + rest), before, PasswordLength(name));
    DrainSilently(cfg, PasswordLength(name), length, m + rest, before, Password(name, |m|));
    DrainOnce(cfg, Password(name, |m|), m, rest, before);
  }

  lemma CredentialsAreAccepted(cfg: Config, c: Credentials, rest: Bytes, before: seq<Action>)
    requires c.Acceptable(cfg)
    ensures Accepted(cfg, c, rest, before)
  {
    match c
    case Nobody => assert [] + rest == rest && before + [] == before;
    case User(_, _) => UserIsAccepted(cfg, c, rest, before);
    case Custom(_) => CustomIsAccepted(cfg, c, rest, before);
  }

  /** A whole SOCKS5 client conversation: the methods offered, the credentials, the request. */
  function EncodeV5(offered: Bytes, c: Credentials, t: Target, reserved: byte): Bytes
    requires t.Valid() && 0 < |offered| < 0x100
  {
    [0x05, |offered|] + offered + c.Encode() + EncodeRequest(t, reserved)
  }

  /**
   * SOCKS5 end to end. However the client's bytes are split into arrivals, the server answers with its
   * preferred offered method, the auth reply and success, emits the client's address, leaves the
   * tunnelled bytes unread in order; and the printed address leads getDestination back to the same
   * port and to a host that reads as the client's, except that a hostname that is itself bracketed loses
   * its brackets.
   */
  lemma Socks5RoundTrip(cfg: Config, offered: Bytes, c: Credentials, t: Target, reserved: byte,
                        tunnelled: Bytes, chunks: seq<Bytes>, protocol: string)
    requires t.Valid() && 0 < |offered| < 0x100 && c.Acceptable(cfg)
    requires Select(cfg.authMethods, offered) == Some(c.Method())
    requires Flatten(chunks) == EncodeV5(offered, c, t, reserved) + tunnelled
    ensures ArriveAll(cfg, Opened, chunks)
         == Socket(Connected(t.Address()), tunnelled,
                   [Write([0x05, c.Method().Id()])] + c.Actions()
                   + [Write([0x05, 0x00, 0x00, 0x01, 0, 0, 0, 0, 0, 0]), Connect(t.Address())])
    ensures Describes(t.Address(), t) && NamesHost(t.Host(), t)
    ensures GetDestination(protocol, AddressString(t.Address())) == Ok(Destination(Unbracket(t.Host()), t.port))
    ensures Unbracket(t.Host()) == t.Host() <==> !(t.Name? && Bracketed(t.Host()))
  {
    hide GetDestination, DottedQuad, Ipv6Text;
    TargetIsDescribed(t);
    ChunkingIsIrrelevant(cfg, Opened, chunks);
    assert Opened.buffer + Flatten(chunks) == Flatten(chunks);
    Socks5IsUnderstood(cfg, offered, c, t, reserved, tunnelled);
    DestinationComesBack(t, protocol);
  }

  lemma Socks5IsUnderstood(cfg: Config, offered: Bytes, c: Credentials, t: Target, reserved: byte, tunnelled: Bytes)
    requires t.Valid() && 0 < |offered| < 0x100 && c.Acceptable(cfg)
    requires Select(cfg.authMethods, offered) == Some(c.Method())
    ensures Drain(cfg, Socket(Version, EncodeV5(offered, c, t, reserved) + tunnelled, []))
         == Socket(Connected(t.Address()), tunnelled,
                   [Write([0x05, c.Method().Id()])] + c.Actions() + [Write(S5Granted), Connect(t.Address())])
  {
    hide Drain, Select, EncodeV5, EncodeRequest;
    var request := EncodeRequest(t, reserved) + tunnelled;
    var hello := [Write([0x05, c.Method().Id()])];
    EncodeV5Splits(offered, c, t, reserved, tunnelled);
    GreetingIsUnderstood(cfg, offered, c.Method(), c.Encode() + request);
    CredentialsAreAccepted(cfg, c, request, hello);
    RequestIsUnderstood(cfg, t, reserved, tunnelled, hello + c.Actions());
  }

  lemma EncodeV5Splits(offered: Bytes, c: Credentials, t: Target, reserved: byte, tunnelled: Bytes)
    requires t.Valid() && 0 < |offered| < 0x100
    ensures EncodeV5(offered, c, t, reserved) + tunnelled
         == [0x05] + ([|offered|] + (offered + (c.Encode() + (EncodeRequest(t, reserved) + tunnelled))))
  {
    hide EncodeRequest;
    var a, b, r := [0x05, |offered|] + offered, c.Encode(), EncodeRequest(t, reserved);
    assert a + b + r + tunnelled == a + (b + (r + tunnelled));
    var after := b + (r + tunnelled);
    assert [0x05, |offered|] + offered + after == [0x05] + ([|offered|] + (offered + after));
  }

  lemma GreetingIsUnderstood(cfg: Config, offered: Bytes, m: AuthMethod, rest: Bytes)
    requires 0 < |offered| < 0x100 && Select(cfg.authMethods, offered) == Some(m)
    ensures Drain(cfg, Socket(Version, [0x05] + ([|offered|] + (offered + rest)), []))
         == Drain(cfg, Socket(StartAuth(m), rest, [Write([0x05, m.Id()])]))
  {
    hide Drain, Select;
    DrainSilently(cfg, Version, [0x05], [|offered|] + (offered + rest), [], V5Count);
    DrainSilently(cfg, V5Count, [|offered|], offered + rest, [], V5Methods(|offered|));
    DrainOnce(cfg, V5Methods(|offered|), offered, rest, []);
    assert [] + [Write([0x05, m.Id()])] == [Write([0x05, m.Id()])];
  }

  lemma DestinationComesBack(t: Target, protocol: string)
    requires t.Valid()
    ensures GetDestination(protocol, AddressString(t.Address())) == Ok(Destination(Unbracket(t.Host()), t.port))
    ensures Unbracket(t.Host()) == t.Host() <==> !(t.Name? && Bracketed(t.Host()))
  {
    hide GetDestination, DottedQuad, Ipv6Text;
    match t
    case V4(b, port) => DottedQuadStartsWithDigit(b); PrintedPortComesBack(protocol, DottedQuad(b), port);
    case Name(n, port) => PrintedPortComesBack(protocol, FromAscii(n), port);
    case V6(b, port) =>
      var ip := Ipv6Text(b);
      PrintedPortComesBack(protocol, "[" + ip + "]", port);
      assert "[" + ip + "]" + ":" + Decimal(port) == "[" + ip + "]:" + Decimal(port);
      assert ("[" + ip + "]")[1..|ip| + 1] == ip;
      Ipv6TextStartsWithHexDigit(b);
  }

  lemma JoinFour(a: string, b: string, c: string, d: string, sep: string)
    ensures Join([a, b, c, d], sep) == a + sep + b + sep + c + sep + d
  {
    assert [a, b, c, d][..3] == [a, b, c] && [a, b, c][..2] == [a, b] && [a, b][..1] == [a];
    assert Join([a, b], sep) == a + sep + b && Join([a, b, c], sep) == a + sep + b + sep + c;
  }

  lemma DottedQuadStartsWithDigit(b: Bytes)
    requires |b| == 4
    ensures |DottedQuad(b)| > 0 && IsDigit(DottedQuad(b)[0])
  {
    JoinFour(Decimal(b[0]), Decimal(b[1]), Decimal(b[2]), Decimal(b[3]), ".");
  }

  lemma Ipv6TextStartsWithHexDigit(b: Bytes)
    requires |b| == 16
    ensures |Ipv6Text(b)| > 0 && IsHexDigit(Ipv6Text(b)[0])
  {
    JoinStartsWithFirst(Hextets(b), ":");
  }

  lemma {:induction false} JoinStartsWithFirst(parts: seq<string>, sep: string)
    requires parts != []
    ensures parts[0] <= Join(parts, sep)
  {
    if |parts| > 1 { JoinStartsWithFirst(parts[..|parts| - 1], sep); }
  }

  // ---- SOCKS4 and 4a ---------------------------------------------------------------------------

  /** A SOCKS4 CONNECT, or a SOCKS4a one when a domain is given. */
  function EncodeV4(ip: Bytes, port: nat, user: Bytes, domain: Option<Bytes>): Bytes
    requires |ip| == 4 && port < 0x10000
  {
    [0x04, 0x01] + PortBytes(port) + ip + user + [0] + (if domain.Some? then domain.value + [0] else [])
  }

  /** The text test on the address, startsWith('0.0.0'), is a test for three leading zero bytes. */
  lemma ZeroPrefixIffZeroBytes(b: Bytes)
    requires |b| == 4
    ensures "0.0.0" <= DottedQuad(b) <==> b[0] == b[1] == b[2] == 0
  {
    var w, x, y, z := Decimal(b[0]), Decimal(b[1]), Decimal(b[2]), Decimal(b[3]);
    var s := DottedQuad(b);
    JoinFour(w, x, y, z, ".");
    LeadingZero(b[0]);
    LeadingZero(b[1]);
    LeadingZero(b[2]);
    assert s[0] == w[0];
    if b[0] == 0 {
      assert s[2] == x[0];
      if b[1] == 0 {
        assert s[4] == y[0];
        if b[2] == 0 { assert s[..5] == "0.0.0"; }
      }
    }
  }

  lemma LeadingZero(n: nat)
    ensures Decimal(n)[0] == '0' <==> n == 0
    ensures n == 0 ==> Decimal(n) == "0"
  {
  }

  /** The host a SOCKS4 client names, as text. */
  function Socks4Host(ip: Bytes, domain: Option<Bytes>): string
    requires |ip| == 4
  {
    if domain.Some? then FromAscii(domain.value) else DottedQuad(ip)
  }

  function Socks4Address(ip: Bytes, port: nat, domain: Option<Bytes>): Address
    requires |ip| == 4
  {
    if domain.Some? then Hostname(FromAscii(domain.value), port) else Ipv4(DottedQuad(ip), port)
  }

  /**
   * SOCKS4 end to end, however the bytes are split: the domain is used exactly when the address begins
   * with three zero bytes, and the printed address leads getDestination back to the same host and port,
   * except that a domain that is itself bracketed loses its brackets.
   */
  lemma Socks4RoundTrip(cfg: Config, ip: Bytes, port: nat, user: Bytes, domain: Option<Bytes>,
                        tunnelled: Bytes, chunks: seq<Bytes>, protocol: string)
    requires |ip| == 4 && port < 0x10000 && NoAuth in cfg.authMethods && 0 !in user
    requires domain.Some? <==> ip[0] == ip[1] == ip[2] == 0
    requires domain.Some? ==> 0 !in domain.value
    requires Flatten(chunks) == EncodeV4(ip, port, user, domain) + tunnelled
    ensures var a := Socks4Address(ip, port, domain);
      && ArriveAll(cfg, Opened, chunks)
           == Socket(Connected(a), tunnelled, [Write([0x00, 0x5A, 0, 0, 0, 0, 0, 0]), Connect(a)])
      && (domain.Some? ==> a.Hostname? && ReadsAsAscii(a.hostname, domain.value))
      && (domain.None? ==> a.Ipv4? && ReadsAsIpv4(a.ip, ip))
      && Socks4Host(ip, domain) == (if a.Hostname? then a.hostname else a.ip) && a.port == port
      && GetDestination(protocol, AddressString(a)) == Ok(Destination(Unbracket(Socks4Host(ip, domain)), port))
    ensures Unbracket(Socks4Host(ip, domain)) == Socks4Host(ip, domain)
      <==> !(domain.Some? && Bracketed(FromAscii(domain.value)))
  {
    hide GetDestination, DottedQuad;
    Ipv4TextReads(ip);
    ChunkingIsIrrelevant(cfg, Opened, chunks);
    assert Opened.buffer + Flatten(chunks) == Flatten(chunks);
    Socks4IsUnderstood(cfg, ip, port, user, domain, tunnelled);
    PrintedPortComesBack(protocol, Socks4Host(ip, domain), port);
    DottedQuadStartsWithDigit(ip);
  }

  lemma Socks4IsUnderstood(cfg: Config, ip: Bytes, port: nat, user: Bytes, domain: Option<Bytes>, tunnelled: Bytes)
    requires |ip| == 4 && port < 0x10000 && NoAuth in cfg.authMethods && 0 !in user
    requires domain.Some? <==> ip[0] == ip[1] == ip[2] == 0
    requires domain.Some? ==> 0 !in domain.value
    ensures var a := Socks4Address(ip, port, domain);
      Drain(cfg, Socket(Version, EncodeV4(ip, port, user, domain) + tunnelled, []))
        == Socket(Connected(a), tunnelled, [Write(S4Granted), Connect(a)])
  {
    hide Drain;
    ZeroPrefixIffZeroBytes(ip);
    var a := Socks4Address(ip, port, domain);
    DrainStops(cfg, a, tunnelled, [Write(S4Granted), Connect(a)]);
    assert [] + [Write(S4Granted), Connect(a)] == [Write(S4Granted), Connect(a)];
    var header := [0x01] + PortBytes(port) + ip;
    assert header[3..7] == ip && Uint16(header, 1) == port;
    if domain.Some? {
      var after := domain.value + ([0] + tunnelled);
      assert EncodeV4(ip, port, user, domain) + tunnelled == [0x04] + (header + (user + ([0] + after)));
      DrainSilently(cfg, Version, [0x04], header + (user + ([0] + after)), [], V4Header);
      DrainSilently(cfg, V4Header, header, user + ([0] + after), [], V4UserId(ip, port));
      DrainToNull(cfg, V4UserId(ip, port), user, after, []);
      var none: seq<Action> := [];
      assert none + none == none;
      DrainToNull(cfg, V4Domain(port, []), domain.value, tunnelled, none);
      assert [] + domain.value == domain.value;
    } else {
      assert EncodeV4(ip, port, user, domain) + tunnelled == [0x04] + (header + (user + ([0] + tunnelled)));
      DrainSilently(cfg, Version, [0x04], header + (user + ([0] + tunnelled)), [], V4Header);
      DrainSilently(cfg, V4Header, header, user + ([0] + tunnelled), [], V4UserId(ip, port));
      DrainToNull(cfg, V4UserId(ip, port), user, tunnelled, []);
    }
  }

  // ---- Refusals --------------------------------------------------------------------------------

  lemma DrainClosed(cfg: Config, rest: Bytes, actions: seq<Action>)
    ensures var s := Socket(Closed, rest, actions); Drain(cfg, s) == s
  {
  }

  /** A first byte that is no SOCKS version ends the connection without a reply. */
  lemma UnknownVersionIsDropped(cfg: Config, version: byte, rest: Bytes)
    requires version != 0x04 && version != 0x05
    ensures Arrive(cfg, Opened, [version] + rest) == Socket(Closed, rest, [Drop])
  {
    hide Drain;
    DrainOnce(cfg, Version, [version], rest, []);
    DrainClosed(cfg, rest, [Drop]);
    assert Opened.buffer + ([version] + rest) == [version] + rest && [] + [Drop] == [Drop];
  }

  /** The reply code of section 6 of RFC 1928 for a request that is not a supported CONNECT. */
  function RefusalCode(header: Bytes): Option<byte>
    requires |header| == 4
  {
    if header[0] != 5 then Some(0x01)                    // general failure
    else if header[1] != 1 then Some(0x07)               // command not supported
    else if header[3] !in [1, 3, 4] then Some(0x08)      // address type not supported
    else None
  }

  /** Such a request is answered by its code, in a reply two bytes shorter than the standard's, and no more. */
  lemma UnsupportedRequestIsRefused(cfg: Config, header: Bytes, rest: Bytes, before: seq<Action>)
    requires |header| == 4 && RefusalCode(header).Some?
    ensures Drain(cfg, Socket(V5Request, header + rest, before))
         == Socket(Closed, rest, before + [Finish([0x05, RefusalCode(header).value] + [0, 0, 0, 0, 0, 0])])
  {
    var reply := [0x05, RefusalCode(header).value] + [0, 0, 0, 0, 0, 0];
    assert reply == S5Failure(RefusalCode(header).value);
    DrainOnce(cfg, V5Request, header, rest, before);
    DrainClosed(cfg, rest, before + [Finish(reply)]);
  }

  /** Offering no configured method is answered by 0xFF, section 3 of RFC 1928. */
  lemma UnacceptableMethodsAreRefused(cfg: Config, offered: Bytes, rest: Bytes)
    requires 0 < |offered| < 0x100 && forall m :: m in cfg.authMethods ==> m.Id() !in offered
    ensures Arrive(cfg, Opened, [0x05] + ([|offered|] + (offered + rest)))
         == Socket(Closed, rest, [Finish([0x05, 0xFF])])
  {
    hide Drain, Select;
    SelectIsConfigured(cfg.authMethods, offered);
    DrainSilently(cfg, Version, [0x05], [|offered|] + (offered + rest), [], V5Count);
    DrainSilently(cfg, V5Count, [|offered|], offered + rest, [], V5Methods(|offered|));
    DrainOnce(cfg, V5Methods(|offered|), offered, rest, []);
    assert [] + [Finish([0x05, 0xFF])] == [Finish([0x05, 0xFF])];
    DrainClosed(cfg, rest, [Finish([0x05, 0xFF])]);
    assert Opened.buffer + ([0x05] + ([|offered|] + (offered + rest))) == [0x05] + ([|offered|] + (offered + rest));
  }

  /** An RFC 1929 message, any part of which may be empty. */
  function UserMessage(version: byte, name: Bytes, metadata: Bytes, rest: Bytes): Bytes
    requires |name| < 0x100 && |metadata| < 0x100
  {
    [version, |name|] + (name + ([|metadata|] + (metadata + rest)))
  }

  /** The refusal of a whole message: a wrong name and metadata that does not parse have codes of their own. */
  function UserRefusal(cfg: Config, name: Bytes, metadata: Bytes): Option<byte> {
    if name != Ascii("metadata") then Some(0x01) else if !cfg.parses(metadata) then Some(0x02) else None
  }

  /** What becomes of every RFC 1929 message: an empty part is never read, so nothing follows it. */
  lemma UserMessageOutcome(cfg: Config, version: byte, name: Bytes, metadata: Bytes, rest: Bytes, before: seq<Action>)
    requires |name| < 0x100 && |metadata| < 0x100
    ensures var s := Drain(cfg, Socket(UserHeader, UserMessage(version, name, metadata, rest), before));
      var refusal := UserRefusal(cfg, name, metadata);
      s == if name == [] then Socket(UserName(0), [|metadata|] + (metadata + rest), before)
           else if metadata == [] then Socket(Password(name, 0), rest, before)
           else if refusal.Some? then Socket(Closed, rest, before + [Finish([0x05, refusal.value])])
           else Drain(cfg, Socket(V5Request, rest, before + [SetMetadata(metadata), Write([0x05, 0x00])]))
  {
    hide Drain, Ascii;
    var head, length: Bytes := [version, |name|], [|metadata|];
    DrainSilently(cfg, UserHeader, head, name + (length + (metadata + rest)), before, UserName(|name|));
    if name == [] {
      assert name + (length + (metadata + rest)) == length + (metadata + rest);
      ReadOfNothing(cfg, UserName(0), length + (metadata + rest), before);
    } else {
      DrainSilently(cfg, UserName(|name|), name, length + (metadata + rest), before, PasswordLength(name));
      DrainSilently(cfg, PasswordLength(name), length, metadata + rest, before, Password(name, |metadata|));
      if metadata == [] {
        assert metadata + rest == rest;
        ReadOfNothing(cfg, Password(name, 0), rest, before);
      } else {
        DrainOnce(cfg, Password(name, |metadata|), metadata, rest, before);
        var refusal := UserRefusal(cfg, name, metadata);
        if refusal.Some? { DrainClosed(cfg, rest, before + [Finish([0x05, refusal.value])]); }
      }
    }
  }

  /** A message whose name is wrong or whose metadata does not parse is refused exactly when neither is empty. */
  lemma WrongCredentialsAreRefused(cfg: Config, version: byte, name: Bytes, metadata: Bytes, rest: Bytes,
                                   before: seq<Action>)
    requires |name| < 0x100 && |metadata| < 0x100 && UserRefusal(cfg, name, metadata).Some?
    ensures Drain(cfg, Socket(UserHeader, UserMessage(version, name, metadata, rest), before))
         == Socket(Closed, rest, before + [Finish([0x05, if name != Ascii("metadata") then 0x01 else 0x02])])
      <==> name != [] && metadata != []
  {
    hide Drain, Ascii, UserMessage;
    UserMessageOutcome(cfg, version, name, metadata, rest, before);
  }

  /** The same for custom metadata. */
  lemma CustomMessageOutcome(cfg: Config, metadata: Bytes, rest: Bytes, before: seq<Action>)
    requires |metadata| < 0x10000
    ensures var s := Drain(cfg, Socket(MetadataLength, CustomMessage(metadata, rest), before));
      s == if metadata == [] then Socket(MetadataBody(0), rest, before)
           else if !cfg.parses(metadata) then Socket(Closed, rest, before + [Finish(CustomRefusal)])
           else Drain(cfg, Socket(V5Request, rest, before + [SetMetadata(metadata), Write([0x05, 0x00])]))
  {
    hide Drain;
    var length: Bytes := [|metadata| / 256, |metadata| % 256];
    DrainSilently(cfg, MetadataLength, length, metadata + rest, before, MetadataBody(|metadata|));
    if metadata == [] {
      assert metadata + rest == rest;
      ReadOfNothing(cfg, MetadataBody(0), rest, before);
    } else {
      DrainOnce(cfg, MetadataBody(|metadata|), metadata, rest, before);
      DrainClosed(cfg, rest, before + [Finish(CustomRefusal)]);
    }
  }

  function CustomMessage(metadata: Bytes, rest: Bytes): Bytes
    requires |metadata| < 0x10000
  {
    [|metadata| / 256, |metadata| % 256] + (metadata + rest)
  }

  const CustomRefusal: Bytes := [0x05, 0xDA, 0x00, 26] + Ascii("{\"message\":\"Invalid JSON\"}")

  // ---- When the client is answered -------------------------------------------------------------

  /** A read of no bytes does not return, however much arrives. */
  lemma ReadOfNothing(cfg: Config, state: State, rest: Bytes, before: seq<Action>)
    requires Wants(state) == Exactly(0)
    ensures var s := Socket(state, rest, before); Drain(cfg, s) == s
  {
  }

  /** What was done is never undone. */
  lemma {:induction false} ActionsAreKept(cfg: Config, s: Socket)
    ensures s.actions <= Drain(cfg, s).actions
    decreases |s.buffer|
  {
    if Advance(cfg, s).Some? {
      AdvanceAddsActions(cfg, s);
      ActionsAreKept(cfg, Advance(cfg, s).value);
    }
  }

  lemma AdvanceAddsActions(cfg: Config, s: Socket)
    requires Advance(cfg, s).Some?
    ensures s.actions <= Advance(cfg, s).value.actions
  {
    hide OnBytes, OnNull, OnPartial, IndexOf;
  }

  /** From this state these bytes make the server do something. */
  predicate Answered(cfg: Config, state: State, bytes: Bytes, before: seq<Action>) {
    Drain(cfg, Socket(state, bytes, before)).actions != before
  }

  function MethodList(offered: Bytes, rest: Bytes): Bytes
    requires |offered| < 0x100
  {
    [0x05] + ([|offered|] + (offered + rest))
  }

  /** With all its bytes there, a method list is answered exactly when it offers at least one method. */
  lemma MethodListIsAnsweredIff(cfg: Config, offered: Bytes, rest: Bytes)
    requires |offered| < 0x100
    ensures Answered(cfg, Version, MethodList(offered, rest), []) <==> offered != []
    ensures offered == []
      ==> Drain(cfg, Socket(Version, MethodList(offered, rest), [])) == Socket(V5Methods(0), rest, [])
  {
    hide Drain, Select;
    DrainSilently(cfg, Version, [0x05], [|offered|] + (offered + rest), [], V5Count);
    DrainSilently(cfg, V5Count, [|offered|], offered + rest, [], V5Methods(|offered|));
    if offered == [] {
      assert offered + rest == rest;
      ReadOfNothing(cfg, V5Methods(0), rest, []);
    } else {
      DrainOnce(cfg, V5Methods(|offered|), offered, rest, []);
      var (next, actions) := OnBytes(cfg, V5Methods(|offered|), offered);
      ActionsAreKept(cfg, Socket(next, rest, [] + actions));
    }
  }

  /** So a client that offers no methods at all is never answered. */
  lemma NoMethodsOfferedHangs(cfg: Config, more: Bytes)
    ensures Arrive(cfg, Opened, [0x05] + ([0] + more)) == Socket(V5Methods(0), more, [])
  {
    hide Drain;
    MethodListIsAnsweredIff(cfg, [], more);
    assert [] + more == more && Opened.buffer + MethodList([], more) == [0x05] + ([0] + more);
  }

  /** With all their bytes there, credentials are answered exactly when no announced length is zero. */
  lemma CredentialsAreAnsweredIff(cfg: Config, version: byte, name: Bytes, metadata: Bytes, rest: Bytes,
                                  before: seq<Action>)
    requires |name| < 0x100 && |metadata| < 0x10000
    ensures |metadata| < 0x100 ==>
      (Answered(cfg, UserHeader, UserMessage(version, name, metadata, rest), before) <==> name != [] && metadata != [])
    ensures Answered(cfg, MetadataLength, CustomMessage(metadata, rest), before) <==> metadata != []
  {
    hide Drain, UserMessage, CustomMessage, CustomRefusal, UserRefusal;
    var accepted := before + [SetMetadata(metadata), Write([0x05, 0x00])];
    ActionsAreKept(cfg, Socket(V5Request, rest, accepted));
    CustomMessageOutcome(cfg, metadata, rest, before);
    if |metadata| < 0x100 { UserMessageOutcome(cfg, version, name, metadata, rest, before); }
  }

  lemma DomainWaits(cfg: Config, port: nat, rest: Bytes)
    requires 0 !in rest
    ensures Drain(cfg, Socket(V4Domain(port, []), rest, [])) == Socket(V4Domain(port, rest), [], [])
  {
    assert [] + rest == rest;
  }

  /** An address that begins with three zero bytes announces a domain, which begins with what follows. */
  lemma ZeroAddressWaits(cfg: Config, ip: Bytes, port: nat, user: Bytes, rest: Bytes)
    requires |ip| == 4 && port < 0x10000 && NoAuth in cfg.authMethods && 0 !in user && 0 !in rest
    requires ip[0] == ip[1] == ip[2] == 0
    ensures Drain(cfg, Socket(Version, EncodeV4(ip, port, user, None) + rest, []))
         == Socket(V4Domain(port, rest), [], [])
  {
    hide Drain, DottedQuad;
    ZeroPrefixIffZeroBytes(ip);
    var header := [0x01] + PortBytes(port) + ip;
    assert header[3..7] == ip && Uint16(header, 1) == port;
    assert EncodeV4(ip, port, user, None) + rest == [0x04] + (header + (user + ([0] + rest)));
    DrainSilently(cfg, Version, [0x04], header + (user + ([0] + rest)), [], V4Header);
    DrainSilently(cfg, V4Header, header, user + ([0] + rest), [], V4UserId(ip, port));
    var none: seq<Action> := [];
    assert none + none == none;
    DrainToNull(cfg, V4UserId(ip, port), user, rest, none);
    DomainWaits(cfg, port, rest);
  }

  /**
   * A SOCKS4 request without a domain, with nothing after it that could end one, is answered exactly
   * when its address does not begin with three zero bytes.
   */
  lemma Socks4IsAnsweredIff(cfg: Config, ip: Bytes, port: nat, user: Bytes, rest: Bytes)
    requires |ip| == 4 && port < 0x10000 && NoAuth in cfg.authMethods && 0 !in user && 0 !in rest
    ensures Answered(cfg, Version, EncodeV4(ip, port, user, None) + rest, []) <==> !(ip[0] == ip[1] == ip[2] == 0)
  {
    hide Drain, EncodeV4, DottedQuad;
    if ip[0] == ip[1] == ip[2] == 0 {
      ZeroAddressWaits(cfg, ip, port, user, rest);
    } else {
      Socks4IsUnderstood(cfg, ip, port, user, None, rest);
    }
  }

  /** SOCKS4 is refused without no-auth, and for every command but CONNECT. */
  lemma Socks4IsRefused(cfg: Config, header: Bytes, rest: Bytes)
    requires |header| == 7 && (NoAuth !in cfg.authMethods || header[0] != 1)
    ensures Arrive(cfg, Opened, [0x04] + (header + rest))
         == Socket(Closed, rest, [Finish([0x00, 0x5B, 0, 0, 0, 0, 0, 0])])
  {
    hide Drain;
    DrainSilently(cfg, Version, [0x04], header + rest, [], V4Header);
    DrainOnce(cfg, V4Header, header, rest, []);
    assert [] + [Finish(S4Rejected)] == [Finish(S4Rejected)];
    DrainClosed(cfg, rest, [Finish(S4Rejected)]);
    assert Opened.buffer + ([0x04] + (header + rest)) == [0x04] + (header + rest);
  }

  // ---- The printed addresses determine the bytes -----------------------------------------------

  lemma Ipv4TextDeterminesBytes(a: Bytes, b: Bytes)
    requires |a| == |b| == 4 && DottedQuad(a) == DottedQuad(b)
    ensures a == b
  {
    hide SplitOn, ParseInt, DottedQuad;
    Ipv4TextReads(a);
    Ipv4TextReads(b);
    var parts := SplitOn(DottedQuad(a), '.');
    assert forall i :: 0 <= i < 4 ==> ParseInt(parts[i]) == Some(a[i]) == Some(b[i]);
  }

  lemma Ipv6TextDeterminesBytes(a: Bytes, b: Bytes)
    requires |a| == |b| == 16 && Ipv6Text(a) == Ipv6Text(b)
    ensures a == b
  {
    hide SplitOn, HexValue, Ipv6Text;
    Ipv6TextReads(a);
    Ipv6TextReads(b);
    var parts := SplitOn(Ipv6Text(a), ':');
    forall k | 0 <= k < 16
      ensures a[k] == b[k]
    {
      assert ReadsAsHex(parts[k / 2], Pair(a, k / 2)) && ReadsAsHex(parts[k / 2], Pair(b, k / 2));
      assert k == 2 * (k / 2) + k % 2;
    }
  }
}
