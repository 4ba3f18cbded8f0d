/**
 * ClientServerChannel (src/serialization/serialization.ts): many topics multiplexed over one pair of
 * raw streams, each topic a channel with one end on the requesting side and one on the handling side.
 *
 * Messages are JSON lines; here they are values. A request is on the raw stream at once, but its own
 * listener is only attached by the callback of that write. Request ids are fresh, and one end requests
 * while the other handles.
 */
module Channel {
  import opened Prelude

  datatype Reply = Data(data: nat) | Error(error: nat)

  datatype Message =
    | Request(topic: nat, id: nat, action: nat, payload: nat)
    | Response(topic: nat, id: nat, reply: Reply)
    | Dispose(topic: nat)

  /** One direction of the raw stream: everything ever written to it, and how much has been delivered. */
  datatype Pipe = Pipe(sent: seq<Message>, delivered: nat) {
    predicate Valid() { delivered <= |sent| }
  }

  /**
   * The requesting end: whether it is open, the requests whose write has not called back yet, those it
   * listens for, and the messages pushed to it.
   */
  datatype Client = Client(open: bool, writing: set<nat>, waiting: set<nat>, seen: seq<Message>)

  datatype Job = Job(id: nat, action: nat, payload: nat)

  /** The handling end: the actions it handles and the handler calls in progress. */
  datatype Server = Server(open: bool, actions: set<nat>, running: set<Job>, seen: seq<Message>)

  datatype Result = Replied(reply: Reply) | WriteFailed

  datatype Settlement = Settlement(topic: nat, id: nat, result: Result)

  datatype World = World(
    up: Pipe,                    // client to server
    down: Pipe,                  // server to client
    clients: seq<Client>,        // by topic
    servers: seq<Server>,
    settled: seq<Settlement>,    // promises settled, in order
    answers: seq<Settlement>,    // handler results, in order
    missed: set<nat>)            // requests whose response was read before they were listened for

  // ---- The steps -------------------------------------------------------------------------------

  function Write(p: Pipe, m: Message): Pipe { p.(sent := p.sent + [m]) }

  function Pop(p: Pipe): Pipe { p.(delivered := p.delivered + 1) }

  /** request(): write the message. */
  function Call(w: World, t: nat, id: nat, action: nat, payload: nat): World
    requires t < |w.clients|
  {
    var c := w.clients[t];
    if !c.open then w.(settled := w.settled + [Settlement(t, id, WriteFailed)])
    else w.(up := Write(w.up, Request(t, id, action, payload)),
            clients := w.clients[t := c.(writing := c.writing + {id})])
  }

  /** The callback of the write: listen for the id. */
  function Confirm(c: Client, id: nat): Client {
    c.(writing := c.writing - {id}, waiting := c.waiting + {id})
  }

  /** A message pushed to the handling end. dispose(true) answers with nothing. */
  function Handle(s: Server, m: Message): Server {
    if !s.open then s
    else
      var s := s.(seen := s.seen + [m]);
      match m
      case Request(_, id, action, payload) =>
        if action in s.actions then s.(running := s.running + {Job(id, action, payload)}) else s
      case Dispose(_) => s.(open := false)
      case Response(_, _, _) => s
  }

  function DeliverUp(w: World): World
    requires w.up.delivered < |w.up.sent|
  {
    var m := w.up.sent[w.up.delivered];
    var servers := if m.topic < |w.servers| then w.servers[m.topic := Handle(w.servers[m.topic], m)] else w.servers;
    w.(up := Pop(w.up), servers := servers)
  }

  /** A handler finishes, with a result or an error; if the channel is gone the response is dropped. */
  function Answer(w: World, t: nat, job: Job, reply: Reply): World
    requires t < |w.servers|
  {
    var s := w.servers[t];
    w.(servers := w.servers[t := s.(running := s.running - {job})],
       answers := w.answers + [Settlement(t, job.id, Replied(reply))],
       down := if s.open then Write(w.down, Response(t, job.id, reply)) else w.down)
  }

  /** A message pushed to the requesting end. */
  function Hear(c: Client, m: Message): Client {
    if !c.open then c
    else
      var c := c.(seen := c.seen + [m]);
      match m
      case Response(_, id, _) => c.(waiting := c.waiting - {id})
      case Dispose(_) => c.(open := false, writing := {}, waiting := {})
      case Request(_, _, _, _) => c
  }

  predicate Misses(c: Client, m: Message) { c.open && m.Response? && m.id in c.writing }

  predicate Settles(c: Client, m: Message) { c.open && m.Response? && m.id in c.waiting }

  function DeliverDown(w: World): World
    requires w.down.delivered < |w.down.sent|
  {
    var m := w.down.sent[w.down.delivered];
    if m.topic < |w.clients| then
      var c := w.clients[m.topic];
      w.(down := Pop(w.down), clients := w.clients[m.topic := Hear(c, m)],
         settled := if Settles(c, m) then w.settled + [Settlement(m.topic, m.id, Replied(m.reply))] else w.settled,
         missed := if Misses(c, m) then w.missed + {m.id} else w.missed)
    else w.(down := Pop(w.down))
  }

  /** dispose() on one end: the first call says goodbye; nothing follows it. */
  function DisposeClient(w: World, t: nat): World
    requires t < |w.clients|
  {
    var c := w.clients[t];
    if !c.open then w
    else w.(up := Write(w.up, Dispose(t)), clients := w.clients[t := c.(open := false, writing := {}, waiting := {})])
  }

  function DisposeServer(w: World, t: nat): World
    requires t < |w.servers|
  {
    var s := w.servers[t];
    if !s.open then w
    else w.(down := Write(w.down, Dispose(t)), servers := w.servers[t := s.(open := false)])
  }

  datatype Event =
    | Calls(topic: nat, id: nat, action: nat, payload: nat)
    | Written(topic: nat, id: nat)
    | ServerReads
    | Answers(topic: nat, job: Job, reply: Reply)
    | ClientReads
    | ClientDisposes(topic: nat)
    | ServerDisposes(topic: nat)

  predicate Fresh(w: World, id: nat) {
    && (forall i :: 0 <= i < |w.up.sent| && w.up.sent[i].Request? ==> w.up.sent[i].id != id)
    && (forall i :: 0 <= i < |w.settled| ==> w.settled[i].id != id)
  }

  predicate Enabled(w: World, e: Event) {
    match e
    case Calls(t, id, _, _) => t < |w.clients| && Fresh(w, id)
    case Written(t, id) => t < |w.clients| && id in w.clients[t].writing
    case ServerReads => w.up.delivered < |w.up.sent|
    case Answers(t, job, _) => t < |w.servers| && job in w.servers[t].running
    case ClientReads => w.down.delivered < |w.down.sent|
    case ClientDisposes(t) => t < |w.clients|
    case ServerDisposes(t) => t < |w.servers|
  }

  function Step(w: World, e: Event): World
    requires Enabled(w, e)
  {
    match e
    case Calls(t, id, action, payload) => Call(w, t, id, action, payload)
    case Written(t, id) => w.(clients := w.clients[t := Confirm(w.clients[t], id)])
    case ServerReads => DeliverUp(w)
    case Answers(t, job, reply) => Answer(w, t, job, reply)
    case ClientReads => DeliverDown(w)
    case ClientDisposes(t) => DisposeClient(w, t)
    case ServerDisposes(t) => DisposeServer(w, t)
  }

  predicate Possible(w: World, es: seq<Event>)
    decreases |es|
  {
    es == [] || (Enabled(w, es[0]) && Possible(Step(w, es[0]), es[1..]))
  }

  function Run(w: World, es: seq<Event>): World
    requires Possible(w, es)
    decreases |es|
  {
    if es == [] then w else Run(Step(w, es[0]), es[1..])
  }

  /** Topics with the given handlers, all open, nothing sent. */
  function Start(handlers: seq<set<nat>>): World {
    World(Pipe([], 0), Pipe([], 0),
          seq(|handlers|, i requires 0 <= i < |handlers| => Client(true, {}, {}, [])),
          seq(|handlers|, i requires 0 <= i < |handlers| => Server(true, handlers[i], {}, [])), [], [], {})
  }

  // ---- Correlation -----------------------------------------------------------------------------

  predicate DistinctRequests(sent: seq<Message>) {
    forall i, j :: 0 <= i < j < |sent| && sent[i].Request? && sent[j].Request? ==> sent[i].id != sent[j].id
  }

  predicate DistinctIds(log: seq<Settlement>) { forall i, j :: 0 <= i < j < |log| ==> log[i].id != log[j].id }

  predicate Settled(settled: seq<Settlement>, id: nat) { exists i :: 0 <= i < |settled| && settled[i].id == id }

  /** The request with this id was sent on this topic, and has been delivered. */
  predicate Delivered(up: Pipe, t: nat, id: nat) {
    exists i :: 0 <= i < up.delivered <= |up.sent|
             && up.sent[i].Request? && up.sent[i].topic == t && up.sent[i].id == id
  }

  predicate Sent(up: Pipe, t: nat, id: nat) {
    exists i :: 0 <= i < |up.sent| && up.sent[i].Request? && up.sent[i].topic == t && up.sent[i].id == id
  }

  /** Whoever waits, or will, has sent and has not been settled; a closed end listens for nothing. */
  predicate WaitingIsPending(up: Pipe, c: Client, t: nat, settled: seq<Settlement>) {
    && c.writing !! c.waiting && (!c.open ==> c.writing == {} && c.waiting == {})
    && (forall id :: id in c.writing ==> Sent(up, t, id) && !Settled(settled, id))
    && (forall id :: id in c.waiting ==> Sent(up, t, id) && !Settled(settled, id))
  }

  /** Each job runs the delivered request of its id with its own data, for an action handled, and is unanswered. */
  predicate RunningIsDelivered(up: Pipe, s: Server, t: nat, answers: seq<Settlement>) {
    forall job :: job in s.running ==>
      && Delivered(up, t, job.id) && Request(t, job.id, job.action, job.payload) in up.sent && job.action in s.actions
      && !Settled(answers, job.id)
  }

  predicate Calling(w: World) {
    && w.up.Valid() && w.down.Valid() && |w.clients| == |w.servers|
    && DistinctRequests(w.up.sent) && DistinctIds(w.settled)
    && (forall t :: 0 <= t < |w.clients| ==> WaitingIsPending(w.up, w.clients[t], t, w.settled))
    && (forall i :: 0 <= i < |w.settled| ==> SettledByAnswer(w.settled[i], w.answers))
  }

  predicate Answering(w: World) {
    && DistinctIds(w.answers)
    && (forall i :: 0 <= i < |w.answers| ==> Delivered(w.up, w.answers[i].topic, w.answers[i].id))
    && (forall t :: 0 <= t < |w.servers| ==> RunningIsDelivered(w.up, w.servers[t], t, w.answers))
    && (forall i :: 0 <= i < |w.down.sent| && w.down.sent[i].Response? ==>
          Settlement(w.down.sent[i].topic, w.down.sent[i].id, Replied(w.down.sent[i].reply)) in w.answers)
  }

  /** A promise settled by a reply was settled by its own handler's answer. */
  predicate SettledByAnswer(s: Settlement, answers: seq<Settlement>) { s.result.Replied? ==> s in answers }

  predicate Correlated(w: World) { Calling(w) && Answering(w) }

  lemma CallKeepsCorrelation(w: World, t: nat, id: nat, action: nat, payload: nat)
    requires Correlated(w) && t < |w.clients| && Fresh(w, id)
    ensures Correlated(Call(w, t, id, action, payload))
  {
    var n := Call(w, t, id, action, payload);
    assert forall m :: m in w.up.sent ==> m in n.up.sent;
    SentGrows(w.up, n.up);
    if w.clients[t].open {
      assert n.up.sent[|w.up.sent|] == Request(t, id, action, payload);
      forall u | 0 <= u < |n.clients|
        ensures WaitingIsPending(n.up, n.clients[u], u, n.settled)
      {
        assert WaitingIsPending(w.up, w.clients[u], u, w.settled);
      }
    } else {
      forall u | 0 <= u < |n.clients|
        ensures WaitingIsPending(n.up, n.clients[u], u, n.settled)
      {
        assert WaitingIsPending(w.up, w.clients[u], u, w.settled);
      }
    }
    forall u | 0 <= u < |n.servers|
      ensures RunningIsDelivered(n.up, n.servers[u], u, n.answers)
    {
      assert RunningIsDelivered(w.up, w.servers[u], u, w.answers);
    }
  }

  /** Writing more, or delivering more, keeps what was sent and delivered. */
  lemma SentGrows(p: Pipe, q: Pipe)
    requires p.sent <= q.sent && p.delivered <= q.delivered <= |q.sent| && p.Valid()
    ensures forall t, id :: Sent(p, t, id) ==> Sent(q, t, id)
    ensures forall t, id :: Delivered(p, t, id) ==> Delivered(q, t, id)
  {
  }

  /** A request being delivered now was not delivered before, so it has no job and no answer yet. */
  lemma DeliverUpKeepsCorrelation(w: World)
    requires Correlated(w) && w.up.delivered < |w.up.sent|
    ensures Correlated(DeliverUp(w))
  {
    var n := DeliverUp(w);
    var m := w.up.sent[w.up.delivered];
    SentGrows(w.up, n.up);
    forall u | 0 <= u < |n.clients|
      ensures WaitingIsPending(n.up, n.clients[u], u, n.settled)
    {
      assert WaitingIsPending(w.up, w.clients[u], u, w.settled);
    }
    forall u | 0 <= u < |n.servers|
      ensures RunningIsDelivered(n.up, n.servers[u], u, n.answers)
    {
      assert RunningIsDelivered(w.up, w.servers[u], u, w.answers);
      if m.Request? && u == m.topic {
        assert n.up.sent[w.up.delivered] == m && Delivered(n.up, u, m.id);
        NotYetAnswered(w, m);
      }
    }
  }

  lemma NotYetAnswered(w: World, m: Message)
    requires Correlated(w) && w.up.delivered < |w.up.sent| && m == w.up.sent[w.up.delivered] && m.Request?
    ensures !Settled(w.answers, m.id)
  {
  }

  lemma SameIdSameRequest(sent: seq<Message>, a: Message, b: Message)
    requires DistinctRequests(sent) && a in sent && b in sent && a.Request? && b.Request?
    ensures a.id == b.id ==> a == b
  {
  }

  lemma AnswerKeepsCorrelation(w: World, t: nat, job: Job, reply: Reply)
    requires Correlated(w) && t < |w.servers| && job in w.servers[t].running
    ensures Correlated(Answer(w, t, job, reply))
  {
    var n := Answer(w, t, job, reply);
    var answer := Settlement(t, job.id, Replied(reply));
    assert RunningIsDelivered(w.up, w.servers[t], t, w.answers);
    assert forall a :: a in w.answers ==> a in n.answers;
    assert answer in n.answers by { assert n.answers[|w.answers|] == answer; }
    forall u | 0 <= u < |n.servers|
      ensures RunningIsDelivered(n.up, n.servers[u], u, n.answers)
    {
      assert RunningIsDelivered(w.up, w.servers[u], u, w.answers);
      forall other | other in n.servers[u].running
        ensures !Settled(n.answers, other.id)
      {
        SameIdSameRequest(w.up.sent, Request(t, job.id, job.action, job.payload),
                          Request(u, other.id, other.action, other.payload));
      }
    }
    forall i | 0 <= i < |n.answers|
      ensures Delivered(n.up, n.answers[i].topic, n.answers[i].id)
    {
      assert i < |w.answers| ==> Delivered(w.up, w.answers[i].topic, w.answers[i].id);
    }
  }

  /** A reply that settles a promise was its handler's answer, and the promise was still open. */
  lemma DeliverDownKeepsCorrelation(w: World)
    requires Correlated(w) && w.down.delivered < |w.down.sent|
    ensures Correlated(DeliverDown(w))
  {
    var n := DeliverDown(w);
    var m := w.down.sent[w.down.delivered];
    forall u | 0 <= u < |n.clients|
      ensures WaitingIsPending(n.up, n.clients[u], u, n.settled)
    {
      assert WaitingIsPending(w.up, w.clients[u], u, w.settled);
      if m.topic < |w.clients| && Settles(w.clients[m.topic], m) && u != m.topic {
        WaitsOnOneTopic(w, u, m.topic, m.id);
      }
    }
    if m.topic < |w.clients| && Settles(w.clients[m.topic], m) {
      assert WaitingIsPending(w.up, w.clients[m.topic], m.topic, w.settled);
    }
  }

  lemma WaitsOnOneTopic(w: World, t: nat, u: nat, id: nat)
    requires Correlated(w) && t < |w.clients| && u < |w.clients| && t != u && id in w.clients[u].waiting
    ensures id !in w.clients[t].waiting && id !in w.clients[t].writing
  {
    assert WaitingIsPending(w.up, w.clients[t], t, w.settled) && WaitingIsPending(w.up, w.clients[u], u, w.settled);
  }

  lemma DisposeClientKeepsCorrelation(w: World, t: nat)
    requires Correlated(w) && t < |w.clients|
    ensures Correlated(DisposeClient(w, t))
  {
    var n := DisposeClient(w, t);
    SentGrows(w.up, n.up);
    assert forall m :: m in w.up.sent ==> m in n.up.sent;
    forall u | 0 <= u < |n.clients|
      ensures WaitingIsPending(n.up, n.clients[u], u, n.settled)
    {
      assert WaitingIsPending(w.up, w.clients[u], u, w.settled);
    }
    forall u | 0 <= u < |n.servers|
      ensures RunningIsDelivered(n.up, n.servers[u], u, n.answers)
    {
      assert RunningIsDelivered(w.up, w.servers[u], u, w.answers);
    }
  }

  lemma DisposeServerKeepsCorrelation(w: World, t: nat)
    requires Correlated(w) && t < |w.servers|
    ensures Correlated(DisposeServer(w, t))
  {
  }

  lemma ConfirmKeepsCorrelation(w: World, t: nat, id: nat)
    requires Correlated(w) && Enabled(w, Written(t, id))
    ensures Correlated(Step(w, Written(t, id)))
  {
    var n := Step(w, Written(t, id));
    forall u | 0 <= u < |n.clients|
      ensures WaitingIsPending(n.up, n.clients[u], u, n.settled)
    {
      assert WaitingIsPending(w.up, w.clients[u], u, w.settled);
    }
  }

  lemma StepKeepsCorrelation(w: World, e: Event)
    requires Correlated(w) && Enabled(w, e)
    ensures Correlated(Step(w, e))
  {
    hide Correlated, Call, DeliverUp, Answer, DeliverDown, DisposeClient, DisposeServer;
    match e
    case Calls(t, id, action, payload) => CallKeepsCorrelation(w, t, id, action, payload);
    case Written(t, id) => ConfirmKeepsCorrelation(w, t, id);
    case ServerReads => DeliverUpKeepsCorrelation(w);
    case Answers(t, job, reply) => AnswerKeepsCorrelation(w, t, job, reply);
    case ClientReads => DeliverDownKeepsCorrelation(w);
    case ClientDisposes(t) => DisposeClientKeepsCorrelation(w, t);
    case ServerDisposes(t) => DisposeServerKeepsCorrelation(w, t);
  }

  lemma {:induction false} RunKeepsCorrelation(w: World, es: seq<Event>)
    requires Correlated(w) && Possible(w, es)
    ensures Correlated(Run(w, es))
    decreases |es|
  {
    hide Correlated;
    if es != [] {
      StepKeepsCorrelation(w, es[0]);
      RunKeepsCorrelation(Step(w, es[0]), es[1..]);
    }
  }

  /**
   * Correlation, over every interleaving of calls on any topics, deliveries, handler completions in any
   * order and disposals: each request settles at most once, and one settled by a reply is settled with
   * the one answer that its own handler call gave, on its own topic.
   */
  lemma EachRequestSettlesOnceWithItsAnswer(handlers: seq<set<nat>>, es: seq<Event>)
    requires Possible(Start(handlers), es)
    ensures var w := Run(Start(handlers), es);
      && DistinctIds(w.settled) && DistinctIds(w.answers)
      && (forall i :: 0 <= i < |w.settled| && w.settled[i].result.Replied? ==> w.settled[i] in w.answers)
      && (forall i :: 0 <= i < |w.answers| ==> Delivered(w.up, w.answers[i].topic, w.answers[i].id))
      && (forall t, job :: 0 <= t < |w.servers| && job in w.servers[t].running ==>
            Request(t, job.id, job.action, job.payload) in w.up.sent && job.action in w.servers[t].actions)
  {
    RunKeepsCorrelation(Start(handlers), es);
    var w := Run(Start(handlers), es);
    forall i | 0 <= i < |w.settled|
      ensures SettledByAnswer(w.settled[i], w.answers)
    {
    }
    forall t | 0 <= t < |w.servers|
      ensures RunningIsDelivered(w.up, w.servers[t], t, w.answers)
    {
    }
  }

  // ---- One requesting end, updating its fields in place ----------------------------------------

  /** The messages of one data event, each given to the channel of its own topic. */
  function HearAll(c: Client, t: nat, lines: seq<Message>): Client {
    if lines == [] then c
    else
      var before := HearAll(c, t, lines[..|lines| - 1]);
      if lines[|lines| - 1].topic == t then Hear(before, lines[|lines| - 1]) else before
  }

  class ClientServerChannel {
    const topicId: nat
    var writable: bool
    var writing: set<nat>   // requests whose write has not called back
    var listeners: set<nat>
    var received: seq<Message>
    var written: seq<Message>

    function View(): Client
      reads this
    {
      Client(writable, writing, listeners, received)
    }

    constructor (topicId: nat)
      ensures this.topicId == topicId && View() == Client(true, {}, {}, []) && written == []
    {
      this.topicId, writable, writing, listeners, received, written := topicId, true, {}, {}, [], [];
    }

    method Ask(id: nat, action: nat, payload: nat) returns (failed: bool)
      modifies this
      ensures failed == !old(writable)
      ensures View() == if failed then old(View()) else old(View()).(writing := old(writing) + {id})
      ensures written == if failed then old(written) else old(written) + [Request(topicId, id, action, payload)]
    {
      failed := !writable;
      if !failed {
        written := written + [Request(topicId, id, action, payload)];
        writing := writing + {id};
      }
    }

    /** The callback given to write: only now is the response listened for. */
    method OnWritten(id: nat)
      modifies this
      ensures View() == Confirm(old(View()), id) && written == old(written)
    {
      writing := writing - {id};
      listeners := listeners + {id};
    }

    method DisposeChannel(disposeReceived: bool)
      modifies this
      ensures View() == Client(false, {}, {}, old(received))
      ensures written == if old(writable) && !disposeReceived then old(written) + [Dispose(topicId)] else old(written)
    {
      if writable && !disposeReceived {
        written := written + [Dispose(topicId)];
      }
      writable := false;
      writing := {};
      listeners := {};
    }

    /** _readFromRawStream: filter by topic, obey a dispose, push the rest to the listeners. */
    method ReadFromRawStream(lines: seq<Message>)
      modifies this
      ensures View() == HearAll(old(View()), topicId, lines) && written == old(written)
    {
      for i := 0 to |lines|
        invariant View() == HearAll(old(View()), topicId, lines[..i]) && written == old(written)
      {
        var data := lines[i];
        assert lines[..i + 1][..i] == lines[..i];
        if data.topic == topicId && writable {
          received := received + [data];
          if data.Dispose? {
            DisposeChannel(true);
          } else if data.Response? {
            listeners := listeners - {data.id};
          }
        }
      }
      assert lines[..|lines|] == lines;
    }
  }
}
