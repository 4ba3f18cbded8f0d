/**
 * Upstream agents pooled per downstream connection (src/rules/http-agents.ts): concurrent getAgent
 * calls with two await points each, racing against the connection being destroyed and closed.
 */
module AgentPool {
  import opened Prelude

  /** The key of an agent: proxy:<settings>, http2:, or a protocol. */
  datatype Key = Proxy(settings: nat) | Http | Https | Http2

  datatype Kind = ProxyAgent(settings: nat) | HttpAgent | HttpsAgent | Http2Agent

  function KindOf(k: Key): Kind {
    match k
    case Proxy(s) => ProxyAgent(s)
    case Http => HttpAgent
    case Https => HttpsAgent
    case Http2 => Http2Agent
  }

  datatype Agent = Agent(id: nat, kind: Kind)

  /** A socket, tunnel stream or H2 session. `agents` is the map hung on it, None before the first use. */
  datatype Connection = Connection(destroyed: bool, closed: bool, agents: Option<map<Key, Agent>>)

  /** What a getAgent call has been asked for. */
  datatype Protocol = HttpP | HttpsP | WsP | WssP | Unspecified

  datatype Request = Request(connection: nat, protocol: Protocol, tryHttp2: bool)

  datatype Outcome =
    | Aborted
    | NoAgent                               // false: websockets are not pooled
    | One(agent: Agent)
    | Both(https: Agent, http2: Agent)      // the pair for protocol negotiation

  datatype Call =
    | AwaitingProxy(request: Request)                   // await getProxySetting
    | AwaitingCerts(request: Request, settings: nat)    // await getTrustedCAs
    | Returned(request: Request, proxy: Option<nat>, outcome: Outcome)

  /** An agent that was built, with the connection and key it was built for. */
  datatype Built = Built(connection: nat, key: Key, agent: Agent)

  datatype World = World(
    connections: seq<Connection>,
    calls: seq<Call>,
    built: seq<Built>,
    destroyedAgents: set<Agent>)

  // ---- The steps -------------------------------------------------------------------------------

  function Agents(c: Connection): map<Key, Agent> { if c.agents.Some? then c.agents.value else map[] }

  /** getOrCreateConnectionAgent. The new agent's identity is the number of agents built before. */
  function Obtain(w: World, c: nat, key: Key): (World, Agent)
    requires c < |w.connections|
  {
    var connection := w.connections[c];
    var agents := Agents(connection);
    if key in agents then (w.(connections := w.connections[c := connection.(agents := Some(agents))]), agents[key])
    else
      var agent := Agent(|w.built|, KindOf(key));
      (w.(connections := w.connections[c := connection.(agents := Some(agents[key := agent]))],
          built := w.built + [Built(c, key, agent)]), agent)
  }

  /** After the proxy setting is known: the proxy that applies to the host, if one does. */
  function ResumeWithProxy(w: World, r: Request, proxy: Option<nat>): (World, Call)
    requires r.connection < |w.connections|
  {
    var c := r.connection;
    if w.connections[c].destroyed then (w, Returned(r, proxy, Aborted))
    else if proxy.Some? then
      var existing := Agents(w.connections[c]);
      if Proxy(proxy.value) in existing then (w, Returned(r, proxy, One(existing[Proxy(proxy.value)])))
      else (w, AwaitingCerts(r, proxy.value))
    else if r.protocol.WsP? || r.protocol.WssP? then (w, Returned(r, None, NoAgent))
    else if r.tryHttp2 && r.protocol.HttpsP? then
      var (w1, https) := Obtain(w, c, Https);
      var (w2, http2) := Obtain(w1, c, Http2);
      (w2, Returned(r, None, Both(https, http2)))
    else
      var (w1, agent) := Obtain(w, c, if r.protocol.HttpsP? then Https else Http);
      (w1, Returned(r, None, One(agent)))
  }

  function ResumeWithCerts(w: World, r: Request, settings: nat): (World, Call)
    requires r.connection < |w.connections|
  {
    if w.connections[r.connection].destroyed then (w, Returned(r, Some(settings), Aborted))
    else
      var (w1, agent) := Obtain(w, r.connection, Proxy(settings));
      (w1, Returned(r, Some(settings), One(agent)))
  }

  /** The connection's close event, with the listener bound when its map was created. */
  function Close(w: World, c: nat): World
    requires c < |w.connections|
  {
    var connection := w.connections[c];
    if connection.agents.None? then w.(connections := w.connections[c := connection.(closed := true)])
    else
      w.(connections := w.connections[c := Connection(connection.destroyed, true, Some(map[]))],
         destroyedAgents := w.destroyedAgents + connection.agents.value.Values)
  }

  datatype Event =
    | Connect
    | GetAgent(request: Request)
    | ProxyResolved(call: nat, proxy: Option<nat>)
    | CertsResolved(call: nat)
    | Destroy(connection: nat)
    | CloseEvent(connection: nat)

  /** A connection is destroyed before its single close event. */
  predicate Enabled(w: World, e: Event) {
    match e
    case Connect => true
    case GetAgent(r) => r.connection < |w.connections|
    case ProxyResolved(k, _) => k < |w.calls| && w.calls[k].AwaitingProxy?
    case CertsResolved(k) => k < |w.calls| && w.calls[k].AwaitingCerts?
    case Destroy(c) => c < |w.connections|
    case CloseEvent(c) => c < |w.connections| && w.connections[c].destroyed && !w.connections[c].closed
  }

  predicate WellFormed(w: World) {
    forall k :: 0 <= k < |w.calls| ==> w.calls[k].request.connection < |w.connections|
  }

  function SetCall(result: (World, Call), k: nat): World
    requires k < |result.0.calls|
  {
    result.0.(calls := result.0.calls[k := result.1])
  }

  function Step(w: World, e: Event): World
    requires WellFormed(w) && Enabled(w, e)
  {
    match e
    case Connect => w.(connections := w.connections + [Connection(false, false, None)])
    case GetAgent(r) => w.(calls := w.calls + [AwaitingProxy(r)])
    case ProxyResolved(k, proxy) =>
      SetCall(ResumeWithProxy(w, w.calls[k].request, proxy), k)
    case CertsResolved(k) =>
      SetCall(ResumeWithCerts(w, w.calls[k].request, w.calls[k].settings), k)
    case Destroy(c) => w.(connections := w.connections[c := w.connections[c].(destroyed := true)])
    case CloseEvent(c) => Close(w, c)
  }

  // ---- What every interleaving keeps -----------------------------------------------------------

  /** No two agents are ever built for one connection and key. */
  predicate OnePerKey(built: seq<Built>) {
    forall i, j :: 0 <= i < j < |built| ==> built[i].connection != built[j].connection || built[i].key != built[j].key
  }

  /** Every agent built is in its connection's map, or destroyed once that connection has closed. */
  predicate EveryBuiltIsPooled(connections: seq<Connection>, built: seq<Built>, gone: set<Agent>) {
    forall i :: 0 <= i < |built| ==> BuiltIsPooled(connections, built[i], i, gone)
  }

  predicate BuiltIsPooled(connections: seq<Connection>, b: Built, id: nat, gone: set<Agent>) {
    && b.connection < |connections| && b.agent == Agent(id, KindOf(b.key))
    && var c := connections[b.connection];
       if c.closed then b.agent in gone else b.key in Agents(c) && Agents(c)[b.key] == b.agent && b.agent !in gone
  }

  /** Nothing is destroyed that was not built here. */
  predicate EveryGoneIsBuilt(built: seq<Built>, gone: set<Agent>) {
    forall a :: a in gone ==> a.id < |built| && built[a.id].agent == a
  }

  /** Nothing is in a map but an agent built for that connection and key. */
  predicate EveryPooledIsBuilt(connections: seq<Connection>, built: seq<Built>) {
    forall c :: 0 <= c < |connections| ==> PoolIsBuilt(connections[c], c, built)
  }

  predicate PoolIsBuilt(connection: Connection, c: nat, built: seq<Built>) {
    forall key :: key in Agents(connection) ==>
      var a := Agents(connection)[key]; a.id < |built| && built[a.id] == Built(c, key, a)
  }

  predicate Lifecycle(connections: seq<Connection>) {
    forall c :: 0 <= c < |connections| && connections[c].closed ==>
      connections[c].destroyed && Agents(connections[c]) == map[]
  }

  predicate Pooled(connections: seq<Connection>, built: seq<Built>, gone: set<Agent>) {
    && OnePerKey(built) && EveryBuiltIsPooled(connections, built, gone)
    && EveryPooledIsBuilt(connections, built) && EveryGoneIsBuilt(built, gone) && Lifecycle(connections)
  }

  predicate PooledWorld(w: World) { Pooled(w.connections, w.built, w.destroyedAgents) }

  predicate Owns(w: World, c: nat, a: Agent) {
    a.id < |w.built| && w.built[a.id].connection == c && w.built[a.id].agent == a
  }

  /** The kind of agent that a call which gets just one is asking for. */
  function KindFor(r: Request, proxy: Option<nat>): Kind {
    if proxy.Some? then ProxyAgent(proxy.value) else if r.protocol.HttpsP? then HttpsAgent else HttpAgent
  }

  /** What a call returned: agents of its own connection, of exactly the kinds it asked for. */
  predicate OutcomeOwned(w: World, call: Call) {
    call.Returned? ==>
      var r := call.request;
      var plain := call.proxy.None? && !r.protocol.WsP? && !r.protocol.WssP?;
      match call.outcome
      case One(a) =>
        && Owns(w, r.connection, a) && a.kind == KindFor(r, call.proxy)
        && (call.proxy.Some? || (plain && !(r.tryHttp2 && r.protocol.HttpsP?)))
      case Both(s, h) =>
        && Owns(w, r.connection, s) && s.kind == HttpsAgent
        && Owns(w, r.connection, h) && h.kind == Http2Agent
        && plain && r.tryHttp2 && r.protocol.HttpsP?
      case NoAgent => call.proxy.None? && (r.protocol.WsP? || r.protocol.WssP?)
      case Aborted => r.connection < |w.connections| && w.connections[r.connection].destroyed
  }

  predicate Inv(w: World) {
    && WellFormed(w) && PooledWorld(w)
    && forall k :: 0 <= k < |w.calls| ==> OutcomeOwned(w, w.calls[k])
  }

  lemma NewAgentKeepsPool(connections: seq<Connection>, built: seq<Built>, gone: set<Agent>, c: nat, key: Key)
    requires c < |connections| && !connections[c].destroyed && key !in Agents(connections[c])
    requires Pooled(connections, built, gone)
    ensures var agent := Agent(|built|, KindOf(key));
      var connection := connections[c].(agents := Some(Agents(connections[c])[key := agent]));
      Pooled(connections[c := connection], built + [Built(c, key, agent)], gone)
  {
  }

  /** Replacing a connection by one with the same agents and no later in its life keeps the pool. */
  lemma SameAgentsKeepPool(connections: seq<Connection>, built: seq<Built>, gone: set<Agent>, c: nat, now: Connection)
    requires c < |connections| && Pooled(connections, built, gone)
    requires Agents(now) == Agents(connections[c]) && now.closed == connections[c].closed
    requires connections[c].destroyed ==> now.destroyed
    ensures Pooled(connections[c := now], built, gone)
  {
  }

  predicate DestroyedStay(w: World, n: World) {
    && |w.connections| <= |n.connections|
    && forall c :: 0 <= c < |w.connections| ==>
         && (w.connections[c].destroyed ==> n.connections[c].destroyed)
         && (w.connections[c].closed ==> n.connections[c].closed)
  }

  /** getOrCreateConnectionAgent on a live connection keeps the pool and only ever adds to it. */
  lemma ObtainKeepsPool(w: World, c: nat, key: Key)
    requires c < |w.connections| && PooledWorld(w) && !w.connections[c].destroyed
    ensures var (n, a) := Obtain(w, c, key);
      && PooledWorld(n) && w.built <= n.built && Owns(n, c, a) && a.kind == KindOf(key)
      && |n.connections| == |w.connections| && !n.connections[c].destroyed && n.calls == w.calls
      && DestroyedStay(w, n)
  {
    hide Pooled;
    var connection := w.connections[c];
    if key in Agents(connection) {
      SameAgentsKeepPool(w.connections, w.built, w.destroyedAgents, c, connection.(agents := Some(Agents(connection))));
      PooledAgentIsOwned(w, c, key);
    } else {
      NewAgentKeepsPool(w.connections, w.built, w.destroyedAgents, c, key);
    }
  }

  predicate Extends(w: World, n: World) {
    && w.built <= n.built && w.calls == n.calls && |w.connections| == |n.connections| && PooledWorld(n)
    && DestroyedStay(w, n)
  }

  lemma PooledAgentIsOwned(w: World, c: nat, key: Key)
    requires PooledWorld(w) && c < |w.connections| && key in Agents(w.connections[c])
    ensures Owns(w, c, Agents(w.connections[c])[key]) && Agents(w.connections[c])[key].kind == KindOf(key)
  {
  }

  lemma ResumeWithProxyKeepsPool(w: World, r: Request, proxy: Option<nat>)
    requires Inv(w) && r.connection < |w.connections|
    ensures var (n, call) := ResumeWithProxy(w, r, proxy);
      Extends(w, n) && OutcomeOwned(n, call) && call.request == r
  {
    hide Obtain, Pooled;
    var c := r.connection;
    if !w.connections[c].destroyed && proxy.Some? && Proxy(proxy.value) in Agents(w.connections[c]) {
      PooledAgentIsOwned(w, c, Proxy(proxy.value));
    }
    if !w.connections[c].destroyed && proxy.None? {
      if r.tryHttp2 && r.protocol.HttpsP? {
        ObtainKeepsPool(w, c, Https);
        ObtainKeepsPool(Obtain(w, c, Https).0, c, Http2);
      } else if !r.protocol.WsP? && !r.protocol.WssP? {
        ObtainKeepsPool(w, c, if r.protocol.HttpsP? then Https else Http);
      }
    }
  }

  lemma ResumeWithCertsKeepsPool(w: World, r: Request, settings: nat)
    requires Inv(w) && r.connection < |w.connections|
    ensures var (n, call) := ResumeWithCerts(w, r, settings);
      Extends(w, n) && OutcomeOwned(n, call) && call.request == r
  {
    if !w.connections[r.connection].destroyed {
      ObtainKeepsPool(w, r.connection, Proxy(settings));
    }
  }

  lemma CloseKeepsInv(w: World, c: nat)
    requires Inv(w) && Enabled(w, CloseEvent(c))
    ensures Inv(Close(w, c))
  {
    var n := Close(w, c);
    var agents := Agents(w.connections[c]);
    forall i | 0 <= i < |n.built|
      ensures BuiltIsPooled(n.connections, n.built[i], i, n.destroyedAgents)
    {
      assert BuiltIsPooled(w.connections, w.built[i], i, w.destroyedAgents);
      if n.built[i].connection == c { assert agents[n.built[i].key] in agents.Values; }
    }
    forall d | 0 <= d < |n.connections|
      ensures PoolIsBuilt(n.connections[d], d, n.built)
    {
      assert PoolIsBuilt(w.connections[d], d, w.built);
    }
  }

  lemma DestroyKeepsInv(w: World, c: nat)
    requires Inv(w) && c < |w.connections|
    ensures Inv(Step(w, Destroy(c)))
  {
    hide Pooled;
    var connection := w.connections[c];
    SameAgentsKeepPool(w.connections, w.built, w.destroyedAgents, c, connection.(destroyed := true));
  }

  lemma ConnectKeepsInv(w: World)
    requires Inv(w)
    ensures Inv(Step(w, Connect))
  {
  }

  lemma CallKeepsInv(w: World, r: Request)
    requires Inv(w) && r.connection < |w.connections|
    ensures Inv(Step(w, GetAgent(r)))
  {
  }

  lemma StepKeepsInv(w: World, e: Event)
    requires Inv(w) && Enabled(w, e)
    ensures Inv(Step(w, e))
  {
    hide Pooled, Obtain;
    match e
    case ProxyResolved(k, proxy) =>
      var r := w.calls[k].request;
      ResumeWithProxyKeepsPool(w, r, proxy);
      var (n, call) := ResumeWithProxy(w, r, proxy);
    case CertsResolved(k) =>
      var r := w.calls[k].request;
      ResumeWithCertsKeepsPool(w, r, w.calls[k].settings);
      var (n, call) := ResumeWithCerts(w, r, w.calls[k].settings);
    case CloseEvent(c) => CloseKeepsInv(w, c);
    case Destroy(c) => DestroyKeepsInv(w, c);
    case Connect => ConnectKeepsInv(w);
    case GetAgent(r) => CallKeepsInv(w, r);
  }

  // ---- Whole runs ------------------------------------------------------------------------------

  const Empty := World([], [], [], {})

  predicate Possible(w: World, es: seq<Event>)
    decreases |es|
  {
    es == [] || (WellFormed(w) && Enabled(w, es[0]) && Possible(Step(w, es[0]), es[1..]))
  }

  function Run(w: World, es: seq<Event>): World
    requires Possible(w, es)
    decreases |es|
  {
    if es == [] then w else Run(Step(w, es[0]), es[1..])
  }

  lemma {:induction false} RunKeepsInv(w: World, es: seq<Event>)
    requires Inv(w) && Possible(w, es)
    ensures Inv(Run(w, es))
    decreases |es|
  {
    if es != [] {
      StepKeepsInv(w, es[0]);
      RunKeepsInv(Step(w, es[0]), es[1..]);
    }
  }

  /**
   * Every interleaving of calls, their awaits, destruction and close: an agent belongs to one
   * connection, at most one is ever built for a connection and key, every call gets an agent of its
   * own connection (and of the kind it asked for), and once a connection has closed every agent ever
   * built for it has been destroyed and its map is empty.
   */
  lemma PoolIsSafe(es: seq<Event>)
    requires Possible(Empty, es)
    ensures var w := Run(Empty, es);
      && Inv(w) && OnePerKey(w.built)
      && (forall i, j :: 0 <= i < j < |w.built| ==> w.built[i].agent != w.built[j].agent)
      && (forall k :: 0 <= k < |w.calls| ==> OutcomeOwned(w, w.calls[k]))
      && (forall i :: 0 <= i < |w.built| ==> w.built[i].connection < |w.connections|)
      && (forall i :: 0 <= i < |w.built| && w.connections[w.built[i].connection].closed ==>
            w.built[i].agent in w.destroyedAgents)
      && (forall c :: 0 <= c < |w.connections| && w.connections[c].closed ==> Agents(w.connections[c]) == map[])
      && (forall i :: 0 <= i < |w.built| && w.built[i].agent in w.destroyedAgents ==>
            w.connections[w.built[i].connection].closed)
  {
    RunKeepsInv(Empty, es);
    var w := Run(Empty, es);
    forall i | 0 <= i < |w.built|
      ensures BuiltIsPooled(w.connections, w.built[i], i, w.destroyedAgents)
    {
    }
  }

  /** No step builds an agent for a connection that has been destroyed. */
  lemma NothingBuiltWhenDestroyed(w: World, e: Event)
    requires Inv(w) && Enabled(w, e)
    ensures var n := Step(w, e);
      && w.built <= n.built
      && forall i :: |w.built| <= i < |n.built| ==>
           n.built[i].connection < |w.connections| && !w.connections[n.built[i].connection].destroyed
  {
  }

  /** What a call comes to on a connection that is alive or not, with this proxy and these agents there. */
  predicate Answers(call: Call, r: Request, proxy: Option<nat>, c: Connection, certsKnown: bool) {
    if c.destroyed then call == Returned(r, proxy, Aborted)
    else if proxy.Some? && !certsKnown && Proxy(proxy.value) !in Agents(c) then call == AwaitingCerts(r, proxy.value)
    else
      && call.Returned? && call.request == r && call.proxy == proxy
      && match call.outcome
         case Aborted => false
         case NoAgent => proxy.None? && (r.protocol.WsP? || r.protocol.WssP?)
         case One(a) => a.kind == KindFor(r, proxy)
         case Both(_, _) => proxy.None? && r.tryHttp2 && r.protocol.HttpsP?
  }

  /**
   * Every await that comes back takes its call on, in every run: on a destroyed connection it aborts;
   * on a live one it waits for certificates exactly if the proxy that applies has no agent there yet,
   * and otherwise returns what its protocol asks for, an agent already pooled there under its key or a
   * new one. No other call changes.
   */
  lemma CallsAreAnswered(es: seq<Event>, k: nat, proxy: Option<nat>)
    requires Possible(Empty, es)
    ensures var w := Run(Empty, es);
      Inv(w) &&
      (Enabled(w, ProxyResolved(k, proxy)) ==>
        var n, r := Step(w, ProxyResolved(k, proxy)), w.calls[k].request;
        Answers(n.calls[k], r, proxy, w.connections[r.connection], false) && n.calls == w.calls[k := n.calls[k]]) &&
      (Enabled(w, CertsResolved(k)) ==>
        var n, r := Step(w, CertsResolved(k)), w.calls[k].request;
        && Answers(n.calls[k], r, Some(w.calls[k].settings), w.connections[r.connection], true)
        && n.calls == w.calls[k := n.calls[k]])
  {
    hide Obtain, Pooled;
    RunKeepsInv(Empty, es);
    var w := Run(Empty, es);
    if Enabled(w, ProxyResolved(k, proxy)) {
      ResumeWithProxyKeepsPool(w, w.calls[k].request, proxy);
    }
    if Enabled(w, CertsResolved(k)) {
      var r := w.calls[k].request;
      ResumeWithCertsKeepsPool(w, r, w.calls[k].settings);
    }
  }

  /**
   * After a connection's close event in any run, every agent ever built for it is destroyed and its map
   * is empty and stays so; nothing else changes.
   */
  lemma CloseDestroysAll(es: seq<Event>, c: nat)
    requires Possible(Empty, es) && Enabled(Run(Empty, es), CloseEvent(c))
    ensures Inv(Run(Empty, es))
    ensures var w := Run(Empty, es); var n := Step(w, CloseEvent(c));
      && n.connections[c].closed && n.connections[c].destroyed && Agents(n.connections[c]) == map[]
      && (forall i :: 0 <= i < |w.built| && w.built[i].connection == c ==> w.built[i].agent in n.destroyedAgents)
      && n.built == w.built && n.calls == w.calls
      && n.connections == w.connections[c := n.connections[c]]
  {
    RunKeepsInv(Empty, es);
    var w := Run(Empty, es);
    CloseKeepsInv(w, c);
    var n := Step(w, CloseEvent(c));
    forall i | 0 <= i < |w.built| && w.built[i].connection == c
      ensures w.built[i].agent in n.destroyedAgents
    {
      assert BuiltIsPooled(n.connections, n.built[i], i, n.destroyedAgents);
    }
  }

  /** A destroyed or closed connection stays so, and calls are only ever added to. */
  lemma {:induction false} RunKeepsDestroyed(w: World, es: seq<Event>)
    requires Inv(w) && Possible(w, es)
    ensures var n := Run(w, es);
      && |w.calls| <= |n.calls| && DestroyedStay(w, n)
      && (forall k :: 0 <= k < |w.calls| ==> n.calls[k].request == w.calls[k].request)
      && (forall k :: 0 <= k < |w.calls| && w.calls[k].Returned? ==> n.calls[k] == w.calls[k])
    decreases |es|
  {
    hide Inv, Step;
    if es != [] {
      StepKeepsDestroyed(w, es[0]);
      StepKeepsInv(w, es[0]);
      RunKeepsDestroyed(Step(w, es[0]), es[1..]);
    }
  }

  lemma StepKeepsDestroyed(w: World, e: Event)
    requires Inv(w) && Enabled(w, e)
    ensures var n := Step(w, e);
      && |w.calls| <= |n.calls| && DestroyedStay(w, n)
      && (forall k :: 0 <= k < |w.calls| ==> n.calls[k].request == w.calls[k].request)
      && (forall k :: 0 <= k < |w.calls| && w.calls[k].Returned? ==> n.calls[k] == w.calls[k])
    ensures e.Connect? ==> Step(w, e).connections == w.connections + [Connection(false, false, None)]
    ensures e.GetAgent? ==> Step(w, e).calls == w.calls + [AwaitingProxy(e.request)]
    ensures e.Destroy? ==> Step(w, e).connections[e.connection].destroyed
  {
    hide Obtain, Pooled, OutcomeOwned;
    match e
    case ProxyResolved(k, proxy) => ResumeWithProxyKeepsPool(w, w.calls[k].request, proxy);
    case CertsResolved(k) => ResumeWithCertsKeepsPool(w, w.calls[k].request, w.calls[k].settings);
    case _ =>
  }

  /** The call returned this agent, by itself or as one of a pair. */
  predicate Gets(call: Call, a: Agent) {
    call.Returned? && match call.outcome
      case One(only) => a == only
      case Both(https, http2) => a == https || a == http2
      case _ => false
  }

  /** An agent got by two calls in any run was got on one connection, the one it was built for. */
  lemma AgentsAreNeverShared(es: seq<Event>, j: nat, k: nat, a: Agent)
    requires Possible(Empty, es)
    requires var w := Run(Empty, es); j < |w.calls| && k < |w.calls| && Gets(w.calls[j], a) && Gets(w.calls[k], a)
    ensures var w := Run(Empty, es);
      && w.calls[j].request.connection == w.calls[k].request.connection
      && a.id < |w.built| && w.built[a.id].agent == a
      && w.built[a.id].connection == w.calls[j].request.connection
  {
    RunKeepsInv(Empty, es);
    var w := Run(Empty, es);
    assert OutcomeOwned(w, w.calls[j]) && OutcomeOwned(w, w.calls[k]);
  }

  // ---- The map on the connection, updated in place ---------------------------------------------

  /** One downstream connection as an object; `made` numbers the agents built so far everywhere. */
  class Downstream {
    var destroyed: bool
    var closed: bool
    var agents: Option<map<Key, Agent>>

    function View(): Connection
      reads this
    {
      Connection(destroyed, closed, agents)
    }

    constructor ()
      ensures View() == Connection(false, false, None)
    {
      destroyed, closed, agents := false, false, None;
    }

    /** getConnectionAgents: create the map on first use. */
    method GetConnectionAgents() returns (current: map<Key, Agent>)
      modifies this`agents
      ensures current == Agents(old(View())) && View() == old(View()).(agents := Some(current))
    {
      if agents.None? {
        agents := Some(map[]);
      }
      current := agents.value;
    }

    method GetOrCreateConnectionAgent(key: Key, made: nat) returns (agent: Agent, isNew: bool)
      modifies this`agents
      ensures isNew <==> key !in Agents(old(View()))
      ensures agent == if isNew then Agent(made, KindOf(key)) else Agents(old(View()))[key]
      ensures View() == old(View()).(agents := Some(Agents(old(View()))[key := agent]))
    {
      var current := GetConnectionAgents();
      isNew := key !in current;
      if isNew {
        agent := Agent(made, KindOf(key));
        agents := Some(current[key := agent]);
      } else {
        agent := current[key];
        assert current[key := agent] == current;
      }
    }

    /** The close listener: destroy every agent, then clear the map. */
    method OnClose() returns (destroyedNow: set<Agent>)
      modifies this
      ensures destroyedNow == Agents(old(View())).Values
      ensures Agents(View()) == map[] && closed && destroyed == old(destroyed)
    {
      destroyedNow := {};
      closed := true;
      if agents.Some? {
        var current := agents.value;
        var keys := current.Keys;
        while keys != {}
          invariant keys <= current.Keys
          invariant forall k :: k in current && k !in keys ==> current[k] in destroyedNow
          invariant destroyedNow <= current.Values
          decreases |keys|
        {
          var k :| k in keys;
          destroyedNow := destroyedNow + {current[k]};
          keys := keys - {k};
        }
        agents := Some(map[]);
      }
    }
  }
}
