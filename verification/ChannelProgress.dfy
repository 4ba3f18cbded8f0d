/**
 * What becomes of requests: while both ends of a topic are open, every request sent on it is still on its
 * way, with its handler, on its way back, settled, or missed because its response was read too early;
 * and which requests are never settled.
 */
module ChannelProgress {
  import opened Prelude
  import opened Channel

  predicate IsRequestOn(w: World, t: nat, i: nat) {
    i < |w.up.sent| && w.up.sent[i].Request? && w.up.sent[i].topic == t
  }

  predicate BothOpen(w: World, t: nat) {
    t < |w.clients| && t < |w.servers| && w.clients[t].open && w.servers[t].open
  }

  /** A response that the requesting end has still to read. */
  predicate ResponsePending(down: Pipe, t: nat, id: nat) {
    exists j :: down.delivered <= j < |down.sent| && IsResponse(down.sent[j], t, id)
  }

  predicate IsResponse(m: Message, t: nat, id: nat) { m.Response? && m.topic == t && m.id == id }

  /** Where the i-th message, a request, has got to. */
  predicate Tracked(w: World, t: nat, i: nat)
    requires BothOpen(w, t) && IsRequestOn(w, t, i)
  {
    var m := w.up.sent[i];
    && (m.id in w.clients[t].writing || m.id in w.clients[t].waiting || Settled(w.settled, m.id))
    && (i < w.up.delivered && m.action in w.servers[t].actions ==>
          Job(m.id, m.action, m.payload) in w.servers[t].running || Settled(w.answers, m.id))
    && (Settled(w.answers, m.id) ==>
          Settled(w.settled, m.id) || ResponsePending(w.down, t, m.id) || m.id in w.missed)
  }

  lemma SettledSnoc(log: seq<Settlement>, s: Settlement, id: nat)
    ensures Settled(log + [s], id) <==> Settled(log, id) || s.id == id
  {
    if Settled(log, id) {
      var i :| 0 <= i < |log| && log[i].id == id;
      assert (log + [s])[i].id == id;
    }
    assert (log + [s])[|log|] == s;
  }

  lemma WriteKeepsPending(p: Pipe, m: Message, t: nat, id: nat)
    requires p.Valid()
    ensures ResponsePending(Write(p, m), t, id) <==> ResponsePending(p, t, id) || IsResponse(m, t, id)
  {
    var q := Write(p, m);
    if ResponsePending(p, t, id) {
      var j :| p.delivered <= j < |p.sent| && IsResponse(p.sent[j], t, id);
      assert IsResponse(q.sent[j], t, id);
    }
    assert q.sent[|p.sent|] == m;
  }

  lemma CallKeepsTracked(w: World, e: Event, t: nat, i: nat)
    requires Correlated(w) && e.Calls? && Enabled(w, e) && BothOpen(w, t) && IsRequestOn(Step(w, e), t, i)
    requires IsRequestOn(w, t, i) ==> Tracked(w, t, i)
    ensures Tracked(Step(w, e), t, i)
  {
    var n := Step(w, e);
    if IsRequestOn(w, t, i) {
      SettledSnoc(w.settled, Settlement(e.topic, e.id, WriteFailed), w.up.sent[i].id);
    } else {
      assert n.up.sent[i] == Request(e.topic, e.id, e.action, e.payload);
      forall k | 0 <= k < |w.answers|
        ensures w.answers[k].id != e.id
      {
        assert Delivered(w.up, w.answers[k].topic, w.answers[k].id);
      }
    }
  }

  lemma AnswerKeepsTracked(w: World, t: nat, i: nat, u: nat, job: Job, reply: Reply)
    requires Correlated(w) && Enabled(w, Answers(u, job, reply)) && BothOpen(w, t) && IsRequestOn(w, t, i)
    requires Tracked(w, t, i)
    ensures Tracked(Answer(w, u, job, reply), t, i)
  {
    hide Correlated;
    var m := w.up.sent[i];
    CorrelatedJobs(w, u, job);
    assert RunningIsDelivered(w.up, w.servers[u], u, w.answers);
    SameIdSameRequest(w.up.sent, Request(u, job.id, job.action, job.payload), m);
    SettledSnoc(w.answers, Settlement(u, job.id, Replied(reply)), m.id);
    if w.servers[u].open { WriteKeepsPending(w.down, Response(u, job.id, reply), t, m.id); }
  }

  lemma CorrelatedJobs(w: World, u: nat, job: Job)
    requires Correlated(w) && u < |w.servers|
    ensures DistinctRequests(w.up.sent) && w.down.Valid() && RunningIsDelivered(w.up, w.servers[u], u, w.answers)
  {
  }

  lemma ClientReadKeepsTracked(w: World, t: nat, i: nat)
    requires Correlated(w) && Enabled(w, ClientReads) && BothOpen(w, t) && BothOpen(DeliverDown(w), t)
    requires IsRequestOn(w, t, i) && Tracked(w, t, i)
    ensures Tracked(DeliverDown(w), t, i)
  {
    hide Correlated;
    var m, r := w.up.sent[i], w.down.sent[w.down.delivered];
    if r.Response? { SettledSnoc(w.settled, Settlement(r.topic, r.id, Replied(r.reply)), m.id); }
  }

  lemma StepKeepsTracked(w: World, e: Event, t: nat, i: nat)
    requires Correlated(w) && Enabled(w, e) && BothOpen(Step(w, e), t) && IsRequestOn(Step(w, e), t, i)
    requires BothOpen(w, t) && IsRequestOn(w, t, i) ==> Tracked(w, t, i)
    ensures Tracked(Step(w, e), t, i)
  {
    hide Correlated, ResponsePending, Settled;
    match e
    case Calls(_, _, _, _) => CallKeepsTracked(w, e, t, i);
    case Written(_, _) =>
    case ServerReads =>
    case Answers(u, job, reply) => AnswerKeepsTracked(w, t, i, u, job, reply);
    case ClientReads => ClientReadKeepsTracked(w, t, i);
    case ClientDisposes(u) =>
    case ServerDisposes(u) =>
      ValidPipes(w);
      WriteKeepsPending(w.down, Dispose(u), t, w.up.sent[i].id);
  }

  lemma ValidPipes(w: World)
    requires Correlated(w)
    ensures w.up.Valid() && w.down.Valid()
  {
  }

  ghost predicate AllTracked(w: World, t: nat) {
    BothOpen(w, t) ==> forall i :: IsRequestOn(w, t, i) ==> Tracked(w, t, i)
  }

  lemma {:induction false} RunKeepsTracked(w: World, es: seq<Event>, t: nat)
    requires Correlated(w) && Possible(w, es) && AllTracked(w, t)
    ensures AllTracked(Run(w, es), t)
    decreases |es|
  {
    hide Correlated, Step, Tracked, IsRequestOn, BothOpen;
    if es != [] {
      var n := Step(w, es[0]);
      StepKeepsCorrelation(w, es[0]);
      forall i | BothOpen(n, t) && IsRequestOn(n, t, i)
        ensures Tracked(n, t, i)
      {
        StepKeepsTracked(w, es[0], t, i);
      }
      RunKeepsTracked(n, es[1..], t);
    }
  }

  // ---- Responses read before they were listened for --------------------------------------------

  predicate DistinctResponses(sent: seq<Message>) {
    forall i, j :: 0 <= i < j < |sent| && sent[i].Response? && sent[j].Response? ==> sent[i].id != sent[j].id
  }

  predicate ResponseRead(down: Pipe, id: nat) {
    exists j :: 0 <= j < down.delivered <= |down.sent| && down.sent[j].Response? && down.sent[j].id == id
  }

  predicate SentAnywhere(up: Pipe, id: nat) {
    exists i :: 0 <= i < |up.sent| && up.sent[i].Request? && up.sent[i].id == id
  }

  /** A request whose one response has gone by. */
  predicate Overlooked(w: World, id: nat) {
    ResponseRead(w.down, id) && SentAnywhere(w.up, id) && !Settled(w.settled, id)
  }

  predicate MissedInv(w: World) {
    DistinctResponses(w.down.sent) && forall id :: id in w.missed ==> Overlooked(w, id)
  }

  lemma PipesGrow(w: World, e: Event)
    requires Enabled(w, e) && w.up.Valid() && w.down.Valid()
    ensures var n := Step(w, e);
      && w.up.sent <= n.up.sent && w.down.sent <= n.down.sent
      && w.down.delivered <= n.down.delivered <= |n.down.sent|
  {
  }

  /** A step settles no request whose response has gone by. */
  lemma StepKeepsOverlooked(w: World, e: Event, id: nat)
    requires Correlated(w) && Enabled(w, e) && DistinctResponses(w.down.sent) && Overlooked(w, id)
    ensures Overlooked(Step(w, e), id)
  {
    var n := Step(w, e);
    ValidPipes(w);
    PipesGrow(w, e);
    match e
    case Calls(u, other, _, _) => SettledSnoc(w.settled, Settlement(u, other, WriteFailed), id);
    case ClientReads =>
      var r := w.down.sent[w.down.delivered];
      if r.Response? { SettledSnoc(w.settled, Settlement(r.topic, r.id, Replied(r.reply)), id); }
    case _ =>
  }

  lemma StepKeepsDistinctResponses(w: World, e: Event)
    requires Correlated(w) && Enabled(w, e) && DistinctResponses(w.down.sent)
    ensures DistinctResponses(Step(w, e).down.sent)
  {
    if e.Answers? {
      assert RunningIsDelivered(w.up, w.servers[e.topic], e.topic, w.answers);
      forall i | 0 <= i < |w.down.sent| && w.down.sent[i].Response?
        ensures w.down.sent[i].id != e.job.id
      {
        var m := w.down.sent[i];
        assert Settlement(m.topic, m.id, Replied(m.reply)) in w.answers;
      }
    }
  }

  /** A response that is missed goes by with its request unsettled. */
  lemma MissedIsOverlooked(w: World)
    requires Correlated(w) && Enabled(w, ClientReads)
    requires var m := w.down.sent[w.down.delivered]; m.topic < |w.clients| && Misses(w.clients[m.topic], m)
    ensures Overlooked(DeliverDown(w), w.down.sent[w.down.delivered].id)
  {
    var m, n := w.down.sent[w.down.delivered], DeliverDown(w);
    ValidPipes(w);
    assert WaitingIsPending(w.up, w.clients[m.topic], m.topic, w.settled);
    assert n.down.sent[w.down.delivered] == m;
    var i :| 0 <= i < |w.up.sent| && w.up.sent[i].Request? && w.up.sent[i].topic == m.topic && w.up.sent[i].id == m.id;
    assert n.up.sent[i].id == m.id;
  }

  lemma StepKeepsMissed(w: World, e: Event)
    requires Correlated(w) && Enabled(w, e) && MissedInv(w)
    ensures MissedInv(Step(w, e)) && w.missed <= Step(w, e).missed
  {
    hide Correlated, Overlooked, DistinctResponses;
    var n := Step(w, e);
    StepKeepsDistinctResponses(w, e);
    forall id | id in n.missed
      ensures Overlooked(n, id)
    {
      if id in w.missed {
        StepKeepsOverlooked(w, e, id);
      } else {
        MissedIsOverlooked(w);
      }
    }
  }

  lemma {:induction false} RunKeepsMissed(w: World, es: seq<Event>)
    requires Correlated(w) && Possible(w, es) && MissedInv(w)
    ensures MissedInv(Run(w, es)) && w.missed <= Run(w, es).missed
    decreases |es|
  {
    hide Correlated, Step, MissedInv;
    if es != [] {
      StepKeepsCorrelation(w, es[0]);
      StepKeepsMissed(w, es[0]);
      RunKeepsMissed(Step(w, es[0]), es[1..]);
    }
  }

  predicate AllRead(w: World) { w.up.delivered == |w.up.sent| && w.down.delivered == |w.down.sent| }

  /**
   * In every run, while both ends of a topic are open: once both streams have been read to their ends and
   * no call of its handler is left running, a request whose action has a handler is settled exactly
   * unless its response was read before the write of the request had called back.
   */
  lemma NoRequestIsLost(handlers: seq<set<nat>>, es: seq<Event>, t: nat, i: nat)
    requires Possible(Start(handlers), es)
    requires var w := Run(Start(handlers), es);
      BothOpen(w, t) && IsRequestOn(w, t, i) && w.up.sent[i].action in w.servers[t].actions
    ensures var w := Run(Start(handlers), es); var m := w.up.sent[i];
      && (m.id in w.clients[t].writing || m.id in w.clients[t].waiting || Settled(w.settled, m.id))
      && (AllRead(w) && Job(m.id, m.action, m.payload) !in w.servers[t].running ==>
            (Settled(w.settled, m.id) <==> m.id !in w.missed))
  {
    RunKeepsTracked(Start(handlers), es, t);
    RunKeepsMissed(Start(handlers), es);
    var w := Run(Start(handlers), es);
    assert Tracked(w, t, i);
    assert w.up.sent[i].id in w.missed ==> Overlooked(w, w.up.sent[i].id);
  }

  /** A request that missed its response is never settled, whatever happens afterwards. */
  lemma MissedIsNeverSettled(handlers: seq<set<nat>>, before: seq<Event>, after: seq<Event>, id: nat)
    requires Possible(Start(handlers), before) && Possible(Run(Start(handlers), before), after)
    requires id in Run(Start(handlers), before).missed
    ensures !Settled(Run(Run(Start(handlers), before), after).settled, id)
  {
    hide Step;
    var w := Run(Start(handlers), before);
    RunKeepsCorrelation(Start(handlers), before);
    RunKeepsMissed(Start(handlers), before);
    RunKeepsMissed(w, after);
    assert Overlooked(Run(w, after), id);
  }

  // ---- Requests that a disposal leaves behind --------------------------------------------------

  lemma StepKeepsUnsettled(w: World, e: Event, t: nat, id: nat)
    requires Correlated(w) && Enabled(w, e) && t < |w.clients| && !w.clients[t].open
    requires Sent(w.up, t, id) && !Settled(w.settled, id)
    ensures var n := Step(w, e);
      t < |n.clients| && !n.clients[t].open && Sent(n.up, t, id) && !Settled(n.settled, id)
  {
    var n := Step(w, e);
    ValidPipes(w);
    SentGrows(w.up, n.up);
    match e
    case Calls(u, other, _, _) => SettledSnoc(w.settled, Settlement(u, other, WriteFailed), id);
    case ClientReads =>
      var r := w.down.sent[w.down.delivered];
      if r.Response? { SettledSnoc(w.settled, Settlement(r.topic, r.id, Replied(r.reply)), id); }
    case _ =>
  }

  lemma {:induction false} RunKeepsUnsettled(w: World, es: seq<Event>, t: nat, id: nat)
    requires Correlated(w) && Possible(w, es) && t < |w.clients| && !w.clients[t].open
    requires Sent(w.up, t, id) && !Settled(w.settled, id)
    ensures !Settled(Run(w, es).settled, id)
    decreases |es|
  {
    hide Correlated, Step, Sent, Settled;
    if es != [] {
      StepKeepsCorrelation(w, es[0]);
      StepKeepsUnsettled(w, es[0], t, id);
      RunKeepsUnsettled(Step(w, es[0]), es[1..], t, id);
    }
  }

  /**
   * In every run, a request that is still open when its own end closes - disposed here or by the other
   * end's goodbye - is never settled, whatever happens afterwards.
   */
  lemma DisposalLeavesRequestsUnsettled(handlers: seq<set<nat>>, before: seq<Event>, closing: Event,
                                        after: seq<Event>, t: nat, id: nat)
    requires Possible(Start(handlers), before)
    requires var w := Run(Start(handlers), before);
      && t < |w.clients| && w.clients[t].open && (id in w.clients[t].writing || id in w.clients[t].waiting)
      && Enabled(w, closing) && !Step(w, closing).clients[t].open && Possible(Step(w, closing), after)
    ensures !Settled(Run(Step(Run(Start(handlers), before), closing), after).settled, id)
  {
    var w := Run(Start(handlers), before);
    RunKeepsCorrelation(Start(handlers), before);
    assert WaitingIsPending(w.up, w.clients[t], t, w.settled);
    ValidPipes(w);
    StepKeepsCorrelation(w, closing);
    SentGrows(w.up, Step(w, closing).up);
    RunKeepsUnsettled(Step(w, closing), after, t, id);
  }
}
