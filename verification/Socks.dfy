/**
 * The SOCKS4, 4a and 5 handshake (src/server/socks-server.ts; RFC 1928, RFC 1929): a coroutine that
 * reads from a socket buffer filled by arbitrary arrivals. Its state is the read it is suspended on.
 */
module Socks {
  import opened Prelude
  import opened Text

  datatype AuthMethod = NoAuth | UserPasswordMetadata | CustomMetadata {
    function Id(): byte {
      match this
      case NoAuth => 0x00
      case UserPasswordMetadata => 0x02
      case CustomMetadata => 0xDA
    }
  }

  /** The server's options. Whether metadata parses is decided outside this model. */
  datatype Config = Config(authMethods: seq<AuthMethod>, parses: Bytes -> bool)

  datatype Address =
    | Hostname(hostname: string, port: nat)
    | Ipv4(ip: string, port: nat)
    | Ipv6(ip: string, port: nat)

  /** What the server does to the socket, in order. */
  datatype Action =
    | Write(bytes: Bytes)
    | Finish(bytes: Bytes)     // socket.end(...)
    | Drop                     // reset or destroyed without a reply
    | SetMetadata(bytes: Bytes)
    | Connect(address: Address)

  datatype State =
    | Version
    | V4Header
    | V4UserId(ip: Bytes, port: nat)
    | V4Domain(port: nat, name: Bytes)
    | V5Count
    | V5Methods(count: nat)
    | MetadataLength
    | MetadataBody(length: nat)
    | UserHeader
    | UserName(length: nat)
    | PasswordLength(name: Bytes)
    | Password(name: Bytes, length: nat)
    | V5Request
    | V5Ipv4
    | V5NameLength
    | V5Name(length: nat)
    | V5Ipv6
    | Connected(address: Address)
    | Closed

  /** A suspended read: readBytes(n), readUntilNullByte(), or none. */
  datatype Demand = Exactly(n: nat) | ToNull | Nothing

  function Wants(s: State): Demand {
    match s
    case Version => Exactly(1)
    case V4Header => Exactly(7)
    case V4UserId(_, _) => ToNull
    case V4Domain(_, _) => ToNull
    case V5Count => Exactly(1)
    case V5Methods(count) => Exactly(count)
    case MetadataLength => Exactly(2)
    case MetadataBody(length) => Exactly(length)
    case UserHeader => Exactly(2)
    case UserName(length) => Exactly(length)
    case PasswordLength(_) => Exactly(1)
    case Password(_, length) => Exactly(length)
    case V5Request => Exactly(4)
    case V5Ipv4 => Exactly(6)
    case V5NameLength => Exactly(1)
    case V5Name(length) => Exactly(length + 2)
    case V5Ipv6 => Exactly(18)
    case Connected(_) => Nothing
    case Closed => Nothing
  }

  // ---- Messages --------------------------------------------------------------------------------

  const S4Granted: Bytes := [0x00, 0x5A, 0, 0, 0, 0, 0, 0]
  const S4Rejected: Bytes := [0x00, 0x5B, 0, 0, 0, 0, 0, 0]
  const S5Granted: Bytes := [0x05, 0x00, 0x00, 0x01, 0, 0, 0, 0, 0, 0]

  function S5Failure(code: byte): Bytes { [0x05, code, 0, 0, 0, 0, 0, 0] }

  function Ascii(s: string): Bytes { seq(|s|, i requires 0 <= i < |s| => s[i] as int % 256) }

  function FromAscii(b: Bytes): string { seq(|b|, i requires 0 <= i < |b| => b[i] as char) }

  const InvalidJson: Bytes := Ascii("{\"message\":\"Invalid JSON\"}")

  function Uint16(b: Bytes, at: nat): nat
    requires at + 2 <= |b|
  {
    (b[at] as int) * 256 + b[at + 1] as int
  }

  function DottedQuad(b: Bytes): string
    requires |b| == 4
  {
    Join([Decimal(b[0]), Decimal(b[1]), Decimal(b[2]), Decimal(b[3])], ".")
  }

  function Hextet(b: Bytes, i: nat): nat
    requires 2 * i + 2 <= |b|
  {
    Uint16(b, 2 * i)
  }

  function Hextets(b: Bytes): seq<string>
    requires |b| == 16
  {
    seq(8, i requires 0 <= i < 8 => Hex(Hextet(b, i)))
  }

  function Ipv6Text(b: Bytes): string
    requires |b| == 16
  {
    Join(Hextets(b), ":")
  }

  // ---- Reading addresses, whoever printed them -------------------------------------------------

  /** The text is a dotted quad of exactly these bytes. */
  predicate ReadsAsIpv4(text: string, b: Bytes) {
    var parts := SplitOn(text, '.');
    |parts| == 4 == |b| && forall i :: 0 <= i < 4 ==> ParseInt(parts[i]) == Some(b[i])
  }

  predicate ReadsAsHex(text: string, n: nat) {
    (forall i :: 0 <= i < |text| ==> IsHexDigit(text[i])) && HexValue(text) == n
  }

  function Pair(b: Bytes, i: nat): nat
    requires 2 * i + 1 < |b|
  {
    256 * (b[2 * i] as int) + b[2 * i + 1] as int
  }

  /** The text is eight hexadecimal groups, one for each pair of these bytes. */
  predicate ReadsAsIpv6(text: string, b: Bytes) {
    var parts := SplitOn(text, ':');
    |parts| == 8 && |b| == 16 && forall i :: 0 <= i < 8 ==> ReadsAsHex(parts[i], Pair(b, i))
  }

  /** The text has exactly these character codes. */
  predicate ReadsAsAscii(text: string, b: Bytes) {
    |text| == |b| && forall i :: 0 <= i < |b| ==> text[i] as int == b[i]
  }

  lemma NumbersHaveNoSeparator(n: nat)
    ensures Excludes(Decimal(n), '.') && Excludes(Hex(n), ':')
  {
  }

  lemma Ipv4TextReads(b: Bytes)
    requires |b| == 4
    ensures ReadsAsIpv4(DottedQuad(b), b)
  {
    hide SplitOn, ParseInt;
    var parts := [Decimal(b[0]), Decimal(b[1]), Decimal(b[2]), Decimal(b[3])];
    forall i | 0 <= i < 4
      ensures Excludes(parts[i], '.') && ParseInt(parts[i]) == Some(b[i])
    {
      NumbersHaveNoSeparator(b[i]);
      ParseIntInvertsDecimal(b[i]);
    }
    SplitOfJoin(parts, '.');
  }

  lemma Ipv6TextReads(b: Bytes)
    requires |b| == 16
    ensures ReadsAsIpv6(Ipv6Text(b), b)
  {
    hide SplitOn, Hex, HexValue;
    forall i | 0 <= i < 8
      ensures Excludes(Hextets(b)[i], ':') && ReadsAsHex(Hextets(b)[i], Pair(b, i))
    {
      NumbersHaveNoSeparator(Hextet(b, i));
      HexHasValue(Hextet(b, i));
    }
    SplitOfJoin(Hextets(b), ':');
  }

  lemma AsciiReads(text: string)
    requires forall i :: 0 <= i < |text| ==> text[i] as int < 128
    ensures ReadsAsAscii(text, Ascii(text))
    ensures ReadsAsAscii(FromAscii(Ascii(text)), Ascii(text))
  {
  }

  // ---- One resumption --------------------------------------------------------------------------

  /** The first configured method that the client offers. */
  function Select(methods: seq<AuthMethod>, offered: Bytes): Option<AuthMethod> {
    if methods == [] then None
    else if methods[0].Id() in offered then Some(methods[0])
    else Select(methods[1..], offered)
  }

  /** The state in which the chosen method's handler first suspends. */
  function StartAuth(m: AuthMethod): State {
    match m
    case NoAuth => V5Request
    case UserPasswordMetadata => UserHeader
    case CustomMetadata => MetadataLength
  }

  function Reply(next: State, actions: seq<Action>): (State, seq<Action>) { (next, actions) }

  function Accept(a: Address, reply: Bytes): (State, seq<Action>) { (Connected(a), [Write(reply), Connect(a)]) }

  function Refuse(reply: Bytes): (State, seq<Action>) { (Closed, [Finish(reply)]) }

  /** readBytes resolved with exactly the bytes asked for. */
  function OnBytes(cfg: Config, s: State, d: Bytes): (State, seq<Action>)
    requires Wants(s) == Exactly(|d|) && |d| > 0
  {
    match s
    case Version =>
      if d[0] == 0x04 then Reply(V4Header, [])
      else if d[0] == 0x05 then Reply(V5Count, [])
      else Reply(Closed, [Drop])
    case V4Header =>
      if NoAuth !in cfg.authMethods || d[0] != 0x01 then Refuse(S4Rejected)
      else Reply(V4UserId(d[3..7], Uint16(d, 1)), [])
    case V5Count => Reply(V5Methods(d[0]), [])
    case V5Methods(_) =>
      var chosen := Select(cfg.authMethods, d);
      if chosen.None? then Refuse([0x05, 0xFF])
      else Reply(StartAuth(chosen.value), [Write([0x05, chosen.value.Id()])])
    case MetadataLength => Reply(MetadataBody(Uint16(d, 0)), [])
    case MetadataBody(_) =>
      if cfg.parses(d) then Reply(V5Request, [SetMetadata(d), Write([0x05, 0x00])])
      else Refuse([0x05, 0xDA, |InvalidJson| / 256 % 256, |InvalidJson| % 256] + InvalidJson)
    case UserHeader => Reply(UserName(d[1]), [])
    case UserName(_) => Reply(PasswordLength(d), [])
    case PasswordLength(name) => Reply(Password(name, d[0]), [])
    case Password(name, _) =>
      if name != Ascii("metadata") then Refuse([0x05, 0x01])
      else if !cfg.parses(d) then Refuse([0x05, 0x02])
      else Reply(V5Request, [SetMetadata(d), Write([0x05, 0x00])])
    case V5Request =>
      if d[0] != 0x05 then Refuse(S5Failure(0x01))
      else if d[1] != 0x01 then Refuse(S5Failure(0x07))
      else if d[3] == 0x1 then Reply(V5Ipv4, [])
      else if d[3] == 0x3 then Reply(V5NameLength, [])
      else if d[3] == 0x4 then Reply(V5Ipv6, [])
      else Refuse(S5Failure(0x08))
    case V5Ipv4 => Accept(Ipv4(DottedQuad(d[..4]), Uint16(d, 4)), S5Granted)
    case V5NameLength => Reply(V5Name(d[0]), [])
    case V5Name(length) => Accept(Hostname(FromAscii(d[..length]), Uint16(d, length)), S5Granted)
    case V5Ipv6 => Accept(Ipv6(Ipv6Text(d[..16]), Uint16(d, 16)), S5Granted)
    case _ => Reply(s, [])
  }

  /** readUntilNullByte found its terminator after these bytes. */
  function OnNull(s: State, d: Bytes): (State, seq<Action>)
    requires Wants(s).ToNull?
  {
    match s
    case V4UserId(ip, port) =>
      if |ip| == 4 && "0.0.0" <= DottedQuad(ip) then Reply(V4Domain(port, []), [])
      else if |ip| == 4 then Accept(Ipv4(DottedQuad(ip), port), S4Granted)
      else Reply(Closed, [])
    case V4Domain(port, name) => Accept(Hostname(FromAscii(name + d), port), S4Granted)
    case _ => Reply(s, [])
  }

  /** readUntilNullByte took everything buffered and found no terminator. */
  function OnPartial(s: State, d: Bytes): State {
    if s.V4Domain? then V4Domain(s.port, s.name + d) else s
  }

  function IndexOf(b: Bytes, x: byte): (at: Option<nat>)
    ensures at.None? ==> x !in b
    ensures at.Some? ==> at.value < |b| && b[at.value] == x && x !in b[..at.value]
  {
    if b == [] then None
    else if b[0] == x then Some(0)
    else
      var rest := IndexOf(b[1..], x);
      if rest.None? then None
      else assert b[..rest.value + 1] == [b[0]] + b[1..][..rest.value]; Some(rest.value + 1)
  }

  datatype Socket = Socket(state: State, buffer: Bytes, actions: seq<Action>)

  /** One resumption of the coroutine, or None while its read has to wait. A read of zero bytes waits forever. */
  function Advance(cfg: Config, s: Socket): (next: Option<Socket>)
    ensures next.Some? ==> |next.value.buffer| < |s.buffer|
  {
    match Wants(s.state)
    case Nothing => None
    case Exactly(n) =>
      if 0 < n <= |s.buffer| then
        var (state, actions) := OnBytes(cfg, s.state, s.buffer[..n]);
        Some(Socket(state, s.buffer[n..], s.actions + actions))
      else None
    case ToNull =>
      if s.buffer == [] then None
      else
        match IndexOf(s.buffer, 0)
        case None => Some(Socket(OnPartial(s.state, s.buffer), [], s.actions))
        case Some(i) =>
          var (state, actions) := OnNull(s.state, s.buffer[..i]);
          Some(Socket(state, s.buffer[i + 1..], s.actions + actions)) // the rest is unshifted
  }

  /** Resume until the coroutine waits. */
  function Drain(cfg: Config, s: Socket): Socket
    decreases |s.buffer|
  {
    var next := Advance(cfg, s);
    if next.None? then s else Drain(cfg, next.value)
  }

  /** One arrival from the network, then everything it enables. */
  function Arrive(cfg: Config, s: Socket, chunk: Bytes): Socket {
    Drain(cfg, s.(buffer := s.buffer + chunk))
  }

  function ArriveAll(cfg: Config, s: Socket, chunks: seq<Bytes>): Socket
    decreases |chunks|
  {
    if chunks == [] then s else ArriveAll(cfg, Arrive(cfg, s, chunks[0]), chunks[1..])
  }

  const Opened := Socket(Version, [], [])

  // ---- Chunking independence -------------------------------------------------------------------

  lemma {:induction false} IndexOfAppend(a: Bytes, b: Bytes, x: byte)
    ensures IndexOf(a + b, x) == match IndexOf(a, x)
      case Some(i) => Some(i)
      case None => match IndexOf(b, x) case Some(j) => Some(|a| + j) case None => None
    decreases |a|
  {
    if a == [] {
      assert a + b == b;
    } else {
      assert (a + b)[1..] == a[1..] + b;
      IndexOfAppend(a[1..], b, x);
    }
  }

  /** A resumption is the same whether or not more bytes follow, except inside a null-terminated read. */
  ghost predicate ExtendsBy(cfg: Config, s: Socket, more: Bytes)
    requires Advance(cfg, s).Some?
  {
    var longer := Advance(cfg, s.(buffer := s.buffer + more));
    var next := Advance(cfg, s).value;
    && longer.Some?
    && (longer.value == next.(buffer := next.buffer + more)
        || (more != [] && next.buffer == [] && longer == Advance(cfg, next.(buffer := more))))
  }

  lemma BytesExtend(cfg: Config, s: Socket, more: Bytes, n: nat)
    requires Wants(s.state) == Exactly(n) && 0 < n <= |s.buffer|
    ensures Advance(cfg, s).Some? && ExtendsBy(cfg, s, more)
  {
    var b := s.buffer + more;
    assert b[..n] == s.buffer[..n] && b[n..] == s.buffer[n..] + more;
  }

  lemma TerminatedExtends(cfg: Config, s: Socket, more: Bytes, i: nat)
    requires Wants(s.state).ToNull? && IndexOf(s.buffer, 0) == Some(i)
    ensures Advance(cfg, s).Some? && ExtendsBy(cfg, s, more)
  {
    var b := s.buffer + more;
    IndexOfAppend(s.buffer, more, 0);
    assert b[..i] == s.buffer[..i] && b[i + 1..] == s.buffer[i + 1..] + more;
  }

  lemma PartialExtends(cfg: Config, s: Socket, more: Bytes)
    requires Wants(s.state).ToNull? && s.buffer != [] && IndexOf(s.buffer, 0).None?
    ensures Advance(cfg, s).Some? && ExtendsBy(cfg, s, more)
  {
    var b := s.buffer + more;
    IndexOfAppend(s.buffer, more, 0);
    if more == [] {
      assert b == s.buffer && [] + more == [];
    } else if IndexOf(more, 0).Some? {
      PartialExtendsToNull(cfg, s, more, IndexOf(more, 0).value);
    } else {
      PartialIsPrefix(s.state, s.buffer, more);
    }
  }

  lemma PartialExtendsToNull(cfg: Config, s: Socket, more: Bytes, j: nat)
    requires Wants(s.state).ToNull? && s.buffer != [] && IndexOf(s.buffer, 0).None? && IndexOf(more, 0) == Some(j)
    ensures Advance(cfg, s).Some? && ExtendsBy(cfg, s, more)
  {
    hide OnNull, IndexOf;
    var b, k := s.buffer + more, |s.buffer| + j;
    IndexOfAppend(s.buffer, more, 0);
    assert b[..k] == s.buffer + more[..j] && b[k + 1..] == more[j + 1..];
    PartialIsPrefix(s.state, s.buffer, more[..j]);
  }

  lemma AdvanceAppend(cfg: Config, s: Socket, more: Bytes)
    requires Advance(cfg, s).Some?
    ensures ExtendsBy(cfg, s, more)
  {
    match Wants(s.state)
    case Exactly(n) => BytesExtend(cfg, s, more, n);
    case ToNull =>
      if IndexOf(s.buffer, 0).Some? {
        TerminatedExtends(cfg, s, more, IndexOf(s.buffer, 0).value);
      } else {
        PartialExtends(cfg, s, more);
      }
  }

  lemma PartialIsPrefix(s: State, a: Bytes, b: Bytes)
    requires Wants(s).ToNull?
    ensures Wants(OnPartial(s, a)).ToNull?
    ensures OnNull(OnPartial(s, a), b) == OnNull(s, a + b) && OnPartial(OnPartial(s, a), b) == OnPartial(s, a + b)
  {
    if s.V4Domain? { assert s.name + a + b == s.name + (a + b); }
  }

  lemma {:induction false} DrainAppend(cfg: Config, s: Socket, more: Bytes)
    ensures Arrive(cfg, Drain(cfg, s), more) == Arrive(cfg, s, more)
    decreases |s.buffer|
  {
    if Advance(cfg, s).Some? {
      var next := Advance(cfg, s).value;
      AdvanceAppend(cfg, s, more);
      DrainAppend(cfg, next, more);
      assert next.buffer == [] ==> next.buffer + more == more;
    }
  }

  /**
   * For every way of splitting the bytes into arrivals the socket ends in the same state, with the
   * same replies and outcome and the same unread bytes, as when they all arrive at once.
   */
  lemma {:induction false} ChunkingIsIrrelevant(cfg: Config, s: Socket, chunks: seq<Bytes>)
    requires Drain(cfg, s) == s
    ensures ArriveAll(cfg, s, chunks) == Arrive(cfg, s, Flatten(chunks))
    decreases |chunks|
  {
    if chunks == [] {
      assert s.buffer + [] == s.buffer;
    } else {
      var longer := s.(buffer := s.buffer + chunks[0]);
      var first := Arrive(cfg, s, chunks[0]);
      DrainAppend(cfg, longer, []);
      assert longer.buffer + [] == longer.buffer && first.buffer + [] == first.buffer;
      ChunkingIsIrrelevant(cfg, first, chunks[1..]);
      DrainAppend(cfg, longer, Flatten(chunks[1..]));
      FlattenCons(chunks);
      assert longer.buffer + Flatten(chunks[1..]) == s.buffer + Flatten(chunks);
    }
  }

  // ---- What every handshake keeps --------------------------------------------------------------

  predicate AuthSucceeded(cfg: Config, actions: seq<Action>) {
    || (NoAuth in cfg.authMethods && actions == [Write([0x05, 0x00])])
    || (|actions| == 3 && actions[1].SetMetadata? && cfg.parses(actions[1].bytes) && actions[2] == Write([0x05, 0x00])
        && ((UserPasswordMetadata in cfg.authMethods && actions[0] == Write([0x05, 0x02]))
            || (CustomMetadata in cfg.authMethods && actions[0] == Write([0x05, 0xDA]))))
  }

  /** How far the handshake has come. */
  datatype Stage = Greeting | Metadata | PasswordStage | Negotiating | Done

  function StageOf(s: State): Stage {
    match s
    case MetadataLength => Metadata
    case MetadataBody(_) => Metadata
    case UserHeader => PasswordStage
    case UserName(_) => PasswordStage
    case PasswordLength(_) => PasswordStage
    case Password(_, _) => PasswordStage
    case V5Request => Negotiating
    case V5Ipv4 => Negotiating
    case V5NameLength => Negotiating
    case V5Name(_) => Negotiating
    case V5Ipv6 => Negotiating
    case Connected(_) => Done
    case Closed => Done
    case _ => Greeting
  }

  predicate Granted(cfg: Config, a: Address, actions: seq<Action>) {
    || (actions == [Write(S4Granted), Connect(a)] && NoAuth in cfg.authMethods)
    || (|actions| >= 2 && actions[|actions| - 2..] == [Write(S5Granted), Connect(a)]
        && AuthSucceeded(cfg, actions[..|actions| - 2]))
  }

  /** Exactly what has been done to the socket by the time the coroutine reaches each stage. */
  predicate Script(cfg: Config, s: Socket) {
    match StageOf(s.state)
    case Greeting =>
      && s.actions == [] && (s.state.V4UserId? ==> |s.state.ip| == 4)
      && (s.state.V4UserId? || s.state.V4Domain? ==> NoAuth in cfg.authMethods)
    case Metadata => CustomMetadata in cfg.authMethods && s.actions == [Write([0x05, 0xDA])]
    case PasswordStage => UserPasswordMetadata in cfg.authMethods && s.actions == [Write([0x05, 0x02])]
    case Negotiating => AuthSucceeded(cfg, s.actions)
    case Done =>
      if s.state.Connected? then Granted(cfg, s.state.address, s.actions)
      else forall k :: 0 <= k < |s.actions| ==> !s.actions[k].Connect?
  }

  /** The server's preference: its first method that the client offers. */
  predicate FirstOffered(methods: seq<AuthMethod>, offered: Bytes, m: AuthMethod) {
    exists i :: 0 <= i < |methods| && methods[i] == m && m.Id() in offered
             && forall j :: 0 <= j < i ==> methods[j].Id() !in offered
  }

  lemma {:induction false} SelectIsConfigured(methods: seq<AuthMethod>, offered: Bytes)
    ensures match Select(methods, offered)
            case Some(m) => m in methods && FirstOffered(methods, offered, m)
            case None => forall m :: m in methods ==> m.Id() !in offered
  {
    if methods != [] && methods[0].Id() !in offered {
      SelectIsConfigured(methods[1..], offered);
      assert forall m :: m in methods ==> m == methods[0] || m in methods[1..];
      var rest := Select(methods[1..], offered);
      if rest.Some? {
        var i :| 0 <= i < |methods[1..]| && methods[1..][i] == rest.value && rest.value.Id() in offered
          && forall j :: 0 <= j < i ==> methods[1..][j].Id() !in offered;
        assert methods[i + 1] == rest.value;
        assert forall j :: 0 < j < i + 1 ==> methods[j] == methods[1..][j - 1];
      }
    }
  }

  lemma GreetingKeepsScript(cfg: Config, s: Socket)
    requires Script(cfg, s) && Advance(cfg, s).Some? && StageOf(s.state).Greeting?
    ensures Script(cfg, Advance(cfg, s).value)
  {
    hide Ascii, FromAscii, DottedQuad, Ipv6Text, Select;
    if s.state.V5Methods? { SelectIsConfigured(cfg.authMethods, s.buffer[..s.state.count]); }
  }

  lemma AuthKeepsScript(cfg: Config, s: Socket)
    requires Script(cfg, s) && Advance(cfg, s).Some? && (StageOf(s.state).Metadata? || StageOf(s.state).PasswordStage?)
    ensures Script(cfg, Advance(cfg, s).value)
  {
    hide IndexOf, Ascii, FromAscii, DottedQuad, Ipv6Text, Select;
    var n := Wants(s.state).n;
    var (next, actions) := OnBytes(cfg, s.state, s.buffer[..n]);
    assert Advance(cfg, s) == Some(Socket(next, s.buffer[n..], s.actions + actions));
    if next.V5Request? {
      assert s.actions + actions == [s.actions[0], actions[0], actions[1]];
    } else if next.Closed? {
      assert s.actions + actions == [s.actions[0], actions[0]];
    } else {
      assert s.actions + actions == s.actions;
    }
  }

  lemma NegotiationKeepsScript(cfg: Config, s: Socket)
    requires Script(cfg, s) && Advance(cfg, s).Some? && StageOf(s.state).Negotiating?
    ensures Script(cfg, Advance(cfg, s).value)
  {
    hide IndexOf, Ascii, FromAscii, DottedQuad, Ipv6Text, Select;
    var next := Advance(cfg, s).value;
    if next.state.Connected? {
      assert next.actions[..|next.actions| - 2] == s.actions;
    }
  }

  lemma AdvanceKeepsScript(cfg: Config, s: Socket)
    requires Script(cfg, s) && Advance(cfg, s).Some?
    ensures Script(cfg, Advance(cfg, s).value)
  {
    match StageOf(s.state)
    case Greeting => GreetingKeepsScript(cfg, s);
    case Negotiating => NegotiationKeepsScript(cfg, s);
    case _ => AuthKeepsScript(cfg, s);
  }

  lemma {:induction false} DrainKeepsScript(cfg: Config, s: Socket)
    requires Script(cfg, s)
    ensures Script(cfg, Drain(cfg, s))
    decreases |s.buffer|
  {
    if Advance(cfg, s).Some? {
      AdvanceKeepsScript(cfg, s);
      DrainKeepsScript(cfg, Advance(cfg, s).value);
    }
  }

  function Connects(actions: seq<Action>): nat {
    if actions == [] then 0
    else Connects(actions[..|actions| - 1]) + (if actions[|actions| - 1].Connect? then 1 else 0)
  }

  lemma {:induction false} NoConnects(actions: seq<Action>)
    requires forall k :: 0 <= k < |actions| ==> !actions[k].Connect?
    ensures Connects(actions) == 0
  {
    if actions != [] { NoConnects(actions[..|actions| - 1]); }
  }

  /**
   * Whatever arrives: at most one connect is emitted, it is the last thing done, the success reply is
   * written immediately before it, and in SOCKS5 the selected method's handler succeeded before that.
   */
  lemma ConnectOnlyAfterAuth(cfg: Config, input: Bytes)
    ensures var s := Arrive(cfg, Opened, input);
      && Script(cfg, s) && Connects(s.actions) == (if s.state.Connected? then 1 else 0)
  {
    var s := Arrive(cfg, Opened, input);
    DrainKeepsScript(cfg, Opened.(buffer := Opened.buffer + input));
    if s.state.Connected? {
      var before := s.actions[..|s.actions| - 1];
      NoConnects(before);
    } else {
      NoConnects(s.actions);
    }
  }

  // ---- The socket closing ----------------------------------------------------------------------

  predicate Authenticating(s: State) {
    s.MetadataLength? || s.MetadataBody? || s.UserHeader? || s.UserName? || s.PasswordLength? || s.Password?
  }

  /** A read that the close rejects: reported as a failed auth, or dropped. */
  function OnClose(s: Socket): Socket {
    if s.state.Connected? || s.state.Closed? then s
    else if Authenticating(s.state) then s.(state := Closed, actions := s.actions + [Finish([0x05, 0x01])])
    else s.(state := Closed, actions := s.actions + [Drop])
  }

  lemma NegotiatingHasNotConnected(cfg: Config, actions: seq<Action>)
    requires AuthSucceeded(cfg, actions)
    ensures forall k :: 0 <= k < |actions| ==> !actions[k].Connect?
  {
  }

  lemma CloseNeverConnects(cfg: Config, s: Socket)
    requires Script(cfg, s)
    ensures Script(cfg, OnClose(s)) && Connects(OnClose(s).actions) == Connects(s.actions)
  {
    hide AuthSucceeded, Granted;
    var t := OnClose(s);
    if t != s {
      assert t.actions[..|t.actions| - 1] == s.actions;
      if StageOf(s.state).Negotiating? { NegotiatingHasNotConnected(cfg, s.actions); }
    }
  }

  /**
   * A close in mid-handshake is answered exactly while the last thing done was to choose a method that
   * needs credentials; a handshake that is over is left as it is.
   */
  lemma CloseOutcome(cfg: Config, input: Bytes)
    ensures var s := Arrive(cfg, Opened, input);
      var over := s.actions != [] && (s.actions[|s.actions| - 1].Connect? || s.actions[|s.actions| - 1].Finish?
                                       || s.actions[|s.actions| - 1].Drop?);
      var authenticating := s.actions == [Write([0x05, 0x02])] || s.actions == [Write([0x05, 0xDA])];
      OnClose(s) == if over then s
                    else Socket(Closed, s.buffer, s.actions + [if authenticating then Finish([0x05, 0x01]) else Drop])
  {
    hide Drain, Granted, AuthSucceeded;
    var s := Arrive(cfg, Opened, input);
    DrainKeepsScript(cfg, Opened.(buffer := Opened.buffer + input));
    DrainKeepsEnding(cfg, Opened.(buffer := Opened.buffer + input));
    match StageOf(s.state)
    case Negotiating => AuthEndsInSuccess(cfg, s.actions);
    case Done => if s.state.Connected? { GrantedEndsInConnect(cfg, s.state.address, s.actions); }
    case _ =>
  }

  lemma GrantedEndsInConnect(cfg: Config, a: Address, actions: seq<Action>)
    requires Granted(cfg, a, actions)
    ensures actions != [] && actions[|actions| - 1].Connect?
  {
    assert |actions| >= 2 ==> actions[|actions| - 2..][1] == actions[|actions| - 1];
  }

  lemma AuthEndsInSuccess(cfg: Config, actions: seq<Action>)
    requires AuthSucceeded(cfg, actions)
    ensures actions != [] && actions[|actions| - 1] == Write([0x05, 0x00])
    ensures actions != [Write([0x05, 0x02])] && actions != [Write([0x05, 0xDA])]
  {
    assert [0x05, 0x00][1] != [0x05, 0x02][1] && [0x05, 0x00][1] != [0x05, 0xDA][1];
  }

  predicate Ended(actions: seq<Action>) {
    actions != [] && (actions[|actions| - 1].Finish? || actions[|actions| - 1].Drop?)
  }

  lemma {:induction false} DrainKeepsEnding(cfg: Config, s: Socket)
    requires Script(cfg, s) && (s.state.Closed? ==> Ended(s.actions))
    ensures Drain(cfg, s).state.Closed? ==> Ended(Drain(cfg, s).actions)
    decreases |s.buffer|
  {
    if Advance(cfg, s).Some? {
      hide DottedQuad, Ipv6Text, FromAscii, Ascii, IndexOf, Select;
      AdvanceKeepsScript(cfg, s);
      DrainKeepsEnding(cfg, Advance(cfg, s).value);
    }
  }

  // ---- The loops, in place ---------------------------------------------------------------------

  lemma BeforeNull(buffers: seq<Bytes>, data: Bytes, end: nat)
    requires end < |data| && data[end] == 0
    ensures Flatten(buffers + [data[..end]]) == Flatten(buffers) + data[..end]
    ensures Flatten(buffers + [data]) == Flatten(buffers + [data[..end]]) + ([0] + data[end + 1..])
  {
    hide Flatten;
    FlattenSnoc(buffers, data[..end]);
    FlattenSnoc(buffers, data);
    assert data == data[..end] + ([0] + data[end + 1..]);
  }

  /**
   * readUntilNullByte over the buffers that successive reads return: everything before the first null
   * byte, with what follows it in that last buffer put back; None while no null byte has come.
   */
  method ReadUntilNullByte(results: seq<Bytes>) returns (data: Option<Bytes>, taken: nat, unshifted: Bytes)
    ensures data.None? ==> 0 !in Flatten(results)
    ensures data.Some? ==>
      && 0 !in data.value && 0 < taken <= |results|
      && Flatten(results[..taken]) == data.value + ([0] + unshifted)
      && 0 !in Flatten(results[..taken - 1])
  {
    var buffers: seq<Bytes> := [];
    assert Flatten(buffers) == [];
    hide Flatten, IndexOf;
    for i := 0 to |results|
      invariant buffers == results[..i] && 0 !in Flatten(buffers)
    {
      var end := IndexOf(results[i], 0);
      assert results[..i + 1] == results[..i] + [results[i]];
      if end.Some? {
        var before, after := results[i][..end.value], results[i][end.value + 1..];
        BeforeNull(buffers, results[i], end.value);
        return Some(Flatten(buffers + [before])), i + 1, after;
      }
      FlattenSnoc(buffers, results[i]);
      buffers := buffers + [results[i]];
    }
    assert results[..|results|] == results;
    return None, |results|, [];
  }

  /** The loop over pairs of bytes that prints an IPv6 address. */
  method PrintIpv6(bytes: Bytes) returns (ip: string)
    requires |bytes| == 16
    ensures ip == Ipv6Text(bytes)
  {
    var hextets: seq<string> := [];
    var i := 0;
    while i < 16
      invariant 0 <= i <= 16 && i % 2 == 0
      invariant |hextets| == i / 2 && forall k :: 0 <= k < i / 2 ==> hextets[k] == Hex(Hextet(bytes, k))
      decreases 16 - i
    {
      hextets := hextets + [Hex((bytes[i] as int) * 256 + bytes[i + 1] as int)];
      i := i + 2;
    }
    assert hextets == Hextets(bytes);
    ip := Join(hextets, ":");
  }

  class SocksConnection {
    const cfg: Config
    var state: State
    var buffer: Bytes
    var actions: seq<Action>

    function Value(): Socket
      reads this
    {
      Socket(state, buffer, actions)
    }

    constructor (cfg: Config)
      ensures this.cfg == cfg && Value() == Opened
    {
      this.cfg, state, buffer, actions := cfg, Version, [], [];
    }

    /** A chunk arrives: the handler resumes for as long as its reads can be met. */
    method OnReadable(chunk: Bytes)
      modifies this
      ensures Value() == Arrive(cfg, old(Value()), chunk)
    {
      buffer := buffer + chunk;
      var next := Advance(cfg, Value());
      while next.Some?
        invariant next == Advance(cfg, Value())
        invariant Drain(cfg, Value()) == Arrive(cfg, old(Value()), chunk)
        decreases |buffer|
      {
        state, buffer, actions := next.value.state, next.value.buffer, next.value.actions;
        next := Advance(cfg, Value());
      }
    }

    method OnClosed()
      modifies this
      ensures Value() == OnClose(old(Value()))
    {
      if !state.Connected? && !state.Closed? {
        actions := actions + [if Authenticating(state) then Finish([0x05, 0x01]) else Drop];
        state := Closed;
      }
    }
  }
}
