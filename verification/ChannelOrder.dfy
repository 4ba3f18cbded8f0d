/**
 * Topics that share a stream: each end sees its own topic's messages in order, says goodbye at most once,
 * as the last thing it says, and is closed exactly once a goodbye was said or read.
 */
module ChannelOrder {
  import opened Prelude
  import opened Channel

  /** The messages of one topic, in order. */
  function OnTopic(sent: seq<Message>, t: nat): seq<Message> {
    if sent == [] then []
    else
      OnTopic(sent[..|sent| - 1], t) + (if sent[|sent| - 1].topic == t then [sent[|sent| - 1]] else [])
  }

  /** What an end has seen of its topic: everything delivered while it is open, a prefix of it once not. */
  predicate InOrder(p: Pipe, t: nat, open: bool, seen: seq<Message>) {
    p.Valid() && if open then seen == OnTopic(p.sent[..p.delivered], t) else seen <= OnTopic(p.sent[..p.delivered], t)
  }

  /** An end that is open has not said goodbye; a goodbye is the last thing an end says. */
  predicate SaysGoodbyeOnce(sent: seq<Message>, t: nat, open: bool) {
    && (open ==> Dispose(t) !in sent)
    && (forall i, j :: 0 <= i < j < |sent| && sent[i] == Dispose(t) ==> sent[j].topic != t)
  }

  /** An end is open exactly as long as it has neither read a goodbye nor said one. */
  predicate OpenUntilGoodbye(inbound: Pipe, outbound: Pipe, t: nat, open: bool) {
    && inbound.Valid()
    && (open <==> Dispose(t) !in inbound.sent[..inbound.delivered] && Dispose(t) !in outbound.sent)
  }

  predicate Orderly(w: World) {
    && |w.clients| == |w.servers|
    && forall t :: 0 <= t < |w.clients| ==> OrderlyTopic(w, t)
  }

  predicate OrderlyTopic(w: World, t: nat)
    requires t < |w.clients| && t < |w.servers|
  {
    && OrderOnTopic(w, t)
    && OpenUntilGoodbye(w.up, w.down, t, w.servers[t].open)
    && OpenUntilGoodbye(w.down, w.up, t, w.clients[t].open)
  }

  predicate OrderOnTopic(w: World, t: nat)
    requires t < |w.clients| && t < |w.servers|
  {
    && InOrder(w.up, t, w.servers[t].open, w.servers[t].seen)
    && InOrder(w.down, t, w.clients[t].open, w.clients[t].seen)
    && SaysGoodbyeOnce(w.up.sent, t, w.clients[t].open)
    && SaysGoodbyeOnce(w.down.sent, t, w.servers[t].open)
  }

  lemma WritePreservesOrder(p: Pipe, m: Message, t: nat, open: bool, seen: seq<Message>)
    requires InOrder(p, t, open, seen)
    ensures InOrder(Write(p, m), t, open, seen)
  {
    assert Write(p, m).sent[..p.delivered] == p.sent[..p.delivered];
  }

  /** Delivering a message: the end of its topic sees it if it is open, no other end notices. */
  lemma PopPreservesOrder(p: Pipe, t: nat, open: bool, seen: seq<Message>)
    requires InOrder(p, t, open, seen) && p.delivered < |p.sent|
    ensures var m := p.sent[p.delivered];
      && InOrder(Pop(p), t, open, if open && m.topic == t then seen + [m] else seen)
      && InOrder(Pop(p), t, false, if open && m.topic == t then seen + [m] else seen)
  {
    var m := p.sent[p.delivered];
    assert p.sent[..p.delivered + 1] == p.sent[..p.delivered] + [m];
  }

  lemma SnocIn(sent: seq<Message>, m: Message, x: Message)
    ensures x in sent + [m] <==> x in sent || x == m
  {
  }

  lemma WriteKeepsRead(p: Pipe, m: Message)
    requires p.Valid()
    ensures Write(p, m).sent[..p.delivered] == p.sent[..p.delivered] && Write(p, m).Valid()
  {
  }

  lemma PopReads(p: Pipe)
    requires p.delivered < |p.sent|
    ensures Pop(p).sent[..p.delivered + 1] == p.sent[..p.delivered] + [p.sent[p.delivered]]
  {
  }

  /** Writing anything else than this goodbye changes nothing for the two ends. */
  lemma WriteKeepsOpen(inbound: Pipe, outbound: Pipe, t: nat, open: bool, m: Message)
    requires OpenUntilGoodbye(inbound, outbound, t, open)
    ensures OpenUntilGoodbye(Write(inbound, m), outbound, t, open)
    ensures OpenUntilGoodbye(inbound, Write(outbound, m), t, open && m != Dispose(t))
  {
    WriteKeepsRead(inbound, m);
    SnocIn(outbound.sent, m, Dispose(t));
  }

  lemma PopKeepsOpen(inbound: Pipe, outbound: Pipe, t: nat, open: bool)
    requires OpenUntilGoodbye(inbound, outbound, t, open) && inbound.delivered < |inbound.sent|
    ensures OpenUntilGoodbye(Pop(inbound), outbound, t, open && inbound.sent[inbound.delivered] != Dispose(t))
  {
    PopReads(inbound);
    SnocIn(inbound.sent[..inbound.delivered], inbound.sent[inbound.delivered], Dispose(t));
  }

  lemma PopKeepsOutbound(inbound: Pipe, outbound: Pipe, t: nat, open: bool)
    requires OpenUntilGoodbye(inbound, outbound, t, open)
    ensures OpenUntilGoodbye(inbound, Pop(outbound), t, open)
  {
  }

  /** What one step does to the pipes and to whether this topic's ends are open. */
  lemma StepKeepsOpenUntilGoodbye(w: World, e: Event, t: nat)
    requires Enabled(w, e) && t < |w.clients| == |w.servers|
    requires OpenUntilGoodbye(w.up, w.down, t, w.servers[t].open)
    requires OpenUntilGoodbye(w.down, w.up, t, w.clients[t].open)
    ensures |Step(w, e).clients| == |Step(w, e).servers| == |w.clients|
    ensures OpenUntilGoodbye(Step(w, e).up, Step(w, e).down, t, Step(w, e).servers[t].open)
    ensures OpenUntilGoodbye(Step(w, e).down, Step(w, e).up, t, Step(w, e).clients[t].open)
  {
    hide OpenUntilGoodbye, Write, Pop;
    var c, s := w.clients[t].open, w.servers[t].open;
    match e
    case Calls(u, id, action, payload) =>
      WriteKeepsOpen(w.up, w.down, t, s, Request(u, id, action, payload));
      WriteKeepsOpen(w.down, w.up, t, c, Request(u, id, action, payload));
    case Answers(u, job, reply) =>
      WriteKeepsOpen(w.up, w.down, t, s, Response(u, job.id, reply));
      WriteKeepsOpen(w.down, w.up, t, c, Response(u, job.id, reply));
    case ServerReads =>
      PopKeepsOpen(w.up, w.down, t, s);
      PopKeepsOutbound(w.down, w.up, t, c);
    case ClientReads =>
      PopKeepsOpen(w.down, w.up, t, c);
      PopKeepsOutbound(w.up, w.down, t, s);
    case ClientDisposes(u) =>
      WriteKeepsOpen(w.up, w.down, t, s, Dispose(u));
      WriteKeepsOpen(w.down, w.up, t, c, Dispose(u));
    case ServerDisposes(u) =>
      WriteKeepsOpen(w.up, w.down, t, s, Dispose(u));
      WriteKeepsOpen(w.down, w.up, t, c, Dispose(u));
    case Written(_, _) =>
  }

  lemma StepKeepsOrderlyTopic(w: World, e: Event, t: nat)
    requires Orderly(w) && Enabled(w, e) && t < |w.clients|
    ensures |Step(w, e).clients| == |Step(w, e).servers| == |w.clients|
    ensures OrderlyTopic(Step(w, e), t)
  {
    hide OrderOnTopic, OpenUntilGoodbye, Step;
    assert OrderlyTopic(w, t);
    StepKeepsOpenUntilGoodbye(w, e, t);
    StepKeepsOrderOnTopic(w, e, t);
  }

  lemma StepKeepsOrderOnTopic(w: World, e: Event, t: nat)
    requires Enabled(w, e) && t < |w.clients| == |w.servers| && OrderOnTopic(w, t)
    ensures |Step(w, e).clients| == |Step(w, e).servers| == |w.clients|
    ensures OrderOnTopic(Step(w, e), t)
  {
    hide OnTopic, InOrder;
    var c, s := w.clients[t], w.servers[t];
    match e
    case Calls(u, id, action, payload) =>
      WritePreservesOrder(w.up, Request(u, id, action, payload), t, s.open, s.seen);
    case Written(_, _) =>
    case ServerReads => PopPreservesOrder(w.up, t, s.open, s.seen);
    case Answers(u, job, reply) => WritePreservesOrder(w.down, Response(u, job.id, reply), t, c.open, c.seen);
    case ClientReads => PopPreservesOrder(w.down, t, c.open, c.seen);
    case ClientDisposes(u) =>
      WritePreservesOrder(w.up, Dispose(u), t, s.open, s.seen);
      ClosingKeepsOrder(w.down, t, c.open, c.seen);
    case ServerDisposes(u) =>
      WritePreservesOrder(w.down, Dispose(u), t, c.open, c.seen);
      ClosingKeepsOrder(w.up, t, s.open, s.seen);
  }

  lemma ClosingKeepsOrder(p: Pipe, t: nat, open: bool, seen: seq<Message>)
    requires InOrder(p, t, open, seen)
    ensures InOrder(p, t, false, seen)
  {
  }

  lemma {:induction false} RunKeepsOrderly(w: World, es: seq<Event>)
    requires Orderly(w) && Possible(w, es)
    ensures Orderly(Run(w, es)) && |Run(w, es).clients| == |w.clients|
    decreases |es|
  {
    hide OrderlyTopic, Step;
    if es != [] {
      forall t | 0 <= t < |w.clients|
        ensures |Step(w, es[0]).clients| == |Step(w, es[0]).servers| == |w.clients| && OrderlyTopic(Step(w, es[0]), t)
      {
        StepKeepsOrderlyTopic(w, es[0], t);
      }
      StepKeepsTopics(w, es[0]);
      RunKeepsOrderly(Step(w, es[0]), es[1..]);
    }
  }

  lemma StepKeepsTopics(w: World, e: Event)
    requires Enabled(w, e)
    ensures |Step(w, e).clients| == |w.clients| && |Step(w, e).servers| == |w.servers|
  {
  }

  /**
   * Order and disposal, over every run: each end of each topic sees exactly that topic's messages, in
   * the order they were sent (all delivered so far while it is open, a prefix once it has closed); each
   * end is open exactly until it says or reads a goodbye, and says at most one and nothing after it, so
   * disposing closes both ends and never echoes back and forth.
   */
  lemma TopicsAreSeparateAndOrdered(handlers: seq<set<nat>>, es: seq<Event>)
    requires Possible(Start(handlers), es)
    ensures var w := Run(Start(handlers), es);
      |w.clients| == |handlers| && Orderly(w)
  {
    var w := Start(handlers);
    forall t | 0 <= t < |handlers|
      ensures OrderlyTopic(w, t)
    {
      assert w.up.sent[..0] == [];
    }
    RunKeepsOrderly(w, es);
  }

  lemma ClosedStepSaysNothing(w: World, e: Event, t: nat)
    requires Enabled(w, e) && t < |w.clients| == |w.servers|
    ensures var n := Step(w, e);
      && t < |n.clients| == |n.servers|
      && (!w.clients[t].open ==> !n.clients[t].open && OnTopic(n.up.sent, t) == OnTopic(w.up.sent, t))
      && (!w.servers[t].open ==> !n.servers[t].open && OnTopic(n.down.sent, t) == OnTopic(w.down.sent, t))
  {
    hide OnTopic;
    match e
    case Calls(u, id, action, payload) => OnTopicSnoc(w.up.sent, Request(u, id, action, payload), t);
    case Answers(u, job, reply) => OnTopicSnoc(w.down.sent, Response(u, job.id, reply), t);
    case ClientDisposes(u) => OnTopicSnoc(w.up.sent, Dispose(u), t);
    case ServerDisposes(u) => OnTopicSnoc(w.down.sent, Dispose(u), t);
    case _ =>
  }

  lemma OnTopicSnoc(sent: seq<Message>, m: Message, t: nat)
    ensures OnTopic(sent + [m], t) == if m.topic == t then OnTopic(sent, t) + [m] else OnTopic(sent, t)
  {
    assert (sent + [m])[..|sent|] == sent;
  }

  lemma {:induction false} ClosedSaysNothing(w: World, es: seq<Event>, t: nat)
    requires Possible(w, es) && t < |w.clients| == |w.servers|
    ensures var n := Run(w, es);
      && t < |n.clients| == |n.servers|
      && (!w.clients[t].open ==> !n.clients[t].open && OnTopic(n.up.sent, t) == OnTopic(w.up.sent, t))
      && (!w.servers[t].open ==> !n.servers[t].open && OnTopic(n.down.sent, t) == OnTopic(w.down.sent, t))
    decreases |es|
  {
    hide OnTopic, Step, Enabled;
    if es != [] {
      ClosedStepSaysNothing(w, es[0], t);
      ClosedSaysNothing(Step(w, es[0]), es[1..], t);
    }
  }

  /** An end that has read the other's goodbye says nothing more on its topic, not even a goodbye. */
  lemma GoodbyeSilences(handlers: seq<set<nat>>, before: seq<Event>, after: seq<Event>, t: nat)
    requires Possible(Start(handlers), before) && Possible(Run(Start(handlers), before), after) && t < |handlers|
    ensures var w := Run(Start(handlers), before); var n := Run(w, after);
      && w.up.Valid() && w.down.Valid()
      && (Dispose(t) in w.up.sent[..w.up.delivered] ==> OnTopic(n.down.sent, t) == OnTopic(w.down.sent, t))
      && (Dispose(t) in w.down.sent[..w.down.delivered] ==> OnTopic(n.up.sent, t) == OnTopic(w.up.sent, t))
  {
    hide OnTopic;
    TopicsAreSeparateAndOrdered(handlers, before);
    var w := Run(Start(handlers), before);
    assert OrderlyTopic(w, t);
    ClosedSaysNothing(w, after, t);
  }

  /**
   * In every run a call is written, with its own action and data, exactly if its end has neither said nor
   * read a goodbye, and fails otherwise; a handler's reply is written under the same condition, and so is
   * the goodbye of an end that is disposed, which closes it in any case. Once the write of a call has
   * called back its response is listened for.
   */
  lemma SaysUntilGoodbye(handlers: seq<set<nat>>, es: seq<Event>, e: Event, t: nat)
    requires Possible(Start(handlers), es) && Enabled(Run(Start(handlers), es), e) && t < |handlers|
    ensures var w := Run(Start(handlers), es); var n := Step(w, e);
      && w.up.Valid() && w.down.Valid() && t < |n.clients| == |n.servers|
      && (e.Calls? && e.topic == t ==>
            if Dispose(t) in w.up.sent || Dispose(t) in w.down.sent[..w.down.delivered]
            then n.up == w.up && n.settled == w.settled + [Settlement(t, e.id, WriteFailed)]
            else n.up.sent == w.up.sent + [Request(t, e.id, e.action, e.payload)] && n.settled == w.settled)
      && (e.Answers? && e.topic == t ==>
            && n.answers == w.answers + [Settlement(t, e.job.id, Replied(e.reply))]
            && if Dispose(t) in w.down.sent || Dispose(t) in w.up.sent[..w.up.delivered] then n.down == w.down
               else n.down.sent == w.down.sent + [Response(t, e.job.id, e.reply)])
      && (e.Written? && e.topic == t ==>
            e.id in n.clients[t].waiting && e.id !in n.clients[t].writing && n.up == w.up && n.down == w.down)
      && (e.ClientDisposes? && e.topic == t ==>
            && !n.clients[t].open && n.down == w.down && n.settled == w.settled
            && n.up.sent
              == if Dispose(t) in w.up.sent || Dispose(t) in w.down.sent[..w.down.delivered] then w.up.sent
                 else w.up.sent + [Dispose(t)])
      && (e.ServerDisposes? && e.topic == t ==>
            && !n.servers[t].open && n.up == w.up && n.settled == w.settled
            && n.down.sent
              == if Dispose(t) in w.down.sent || Dispose(t) in w.up.sent[..w.up.delivered] then w.down.sent
                 else w.down.sent + [Dispose(t)])
  {
    hide OnTopic;
    TopicsAreSeparateAndOrdered(handlers, es);
    assert OrderlyTopic(Run(Start(handlers), es), t);
  }

  /** Reading a goodbye writes nothing: the reply to a disposal is silence. */
  lemma GoodbyeIsNotAnswered(w: World)
    ensures w.up.delivered < |w.up.sent| ==> DeliverUp(w).down == w.down && DeliverUp(w).up.sent == w.up.sent
    ensures w.down.delivered < |w.down.sent| ==> DeliverDown(w).up == w.up && DeliverDown(w).down.sent == w.down.sent
  {
  }

  function Reads(n: nat): seq<Event> { if n == 0 then [] else Reads(n - 1) + [ClientReads] }

  lemma {:induction false} RunSnoc(w: World, es: seq<Event>, e: Event)
    requires Possible(w, es) && Enabled(Run(w, es), e)
    ensures Possible(w, es + [e]) && Run(w, es + [e]) == Step(Run(w, es), e)
    decreases |es|
  {
    hide Step, Enabled;
    if es == [] {
      assert [] + [e] == [e] && [e][1..] == [];
    } else {
      assert (es + [e])[1..] == es[1..] + [e] && (es + [e])[0] == es[0];
      RunSnoc(Step(w, es[0]), es[1..], e);
    }
  }

  lemma DeliveryHears(w: World, t: nat)
    requires w.down.delivered < |w.down.sent| && t < |w.clients|
    ensures var m, n := w.down.sent[w.down.delivered], DeliverDown(w);
      && n.clients[t] == (if m.topic == t then Hear(w.clients[t], m) else w.clients[t])
      && |n.clients| == |w.clients| && n.up == w.up && n.down == Pop(w.down)
  {
  }

  lemma NoEvents(w: World, t: nat)
    requires t < |w.clients|
    ensures Possible(w, []) && Run(w, []) == w && HearAll(w.clients[t], t, []) == w.clients[t]
  {
  }

  lemma HearAllSnoc(c: Client, t: nat, lines: seq<Message>, m: Message)
    ensures HearAll(c, t, lines + [m]) == if m.topic == t then Hear(HearAll(c, t, lines), m) else HearAll(c, t, lines)
  {
    assert (lines + [m])[..|lines|] == lines;
  }

  /** One data event that holds so many lines is, for each channel, as many messages delivered one by one. */
  lemma {:induction false} DataEventIsDelivery(w: World, n: nat, t: nat)
    requires w.down.delivered + n <= |w.down.sent| && t < |w.clients|
    ensures Possible(w, Reads(n))
    ensures var r := Run(w, Reads(n));
      && r.down == w.down.(delivered := w.down.delivered + n) && r.up == w.up && |r.clients| == |w.clients|
      && r.clients[t] == HearAll(w.clients[t], t, w.down.sent[w.down.delivered..w.down.delivered + n])
  {
    hide Hear, HearAll, DeliverDown, Possible, Run;
    if n == 0 {
      NoEvents(w, t);
      assert w.down.sent[w.down.delivered..w.down.delivered] == [];
    } else {
      DataEventIsDelivery(w, n - 1, t);
      DeliveryHears(Run(w, Reads(n - 1)), t);
      RunSnoc(w, Reads(n - 1), ClientReads);
      var at := w.down.delivered;
      HearAllSnoc(w.clients[t], t, w.down.sent[at..at + n - 1], w.down.sent[at + n - 1]);
      assert w.down.sent[at..at + n] == w.down.sent[at..at + n - 1] + [w.down.sent[at + n - 1]];
    }
  }

  /** Only the lines of its own topic reach a channel. */
  lemma {:induction false} OtherTopicsAreIgnored(c: Client, t: nat, lines: seq<Message>)
    ensures HearAll(c, t, lines) == HearAll(c, t, OnTopic(lines, t))
    decreases |lines|
  {
    if lines != [] {
      var front, last := lines[..|lines| - 1], lines[|lines| - 1];
      OtherTopicsAreIgnored(c, t, front);
      if last.topic == t {
        assert OnTopic(lines, t)[..|OnTopic(front, t)|] == OnTopic(front, t);
      } else {
        assert OnTopic(lines, t) == OnTopic(front, t);
      }
    }
  }
}
