/**
 * Timer-batched body events (emitBodyDataEvents in src/util/request-utils.ts): data is gathered
 * while a timer runs, flushed when it fires, and flushed one last time by error, end or close.
 * Times are abstract naturals; the message's own 'ended' flag belongs to the environment.
 */
module BodyEvents {
  import opened Prelude

  datatype Callback = Callback(timestamp: nat, content: Bytes, isEnded: bool)

  datatype Feed = Feed(
    timestamp: Option<nat>,
    pending: Option<Bytes>,
    timer: bool,
    finished: bool,
    messageEnded: bool,
    emitted: seq<Callback>)

  const Initial := Feed(None, None, false, false, false, [])

  function PendingBytes(s: Feed): Bytes { if s.pending.Some? then s.pending.value else [] }

  /** flushPendingContent. A zero timestamp counts as missing. */
  function Flush(s: Feed, isFinal: bool, now: nat): Feed {
    if s.finished then s
    else
      var finished := s.messageEnded || isFinal;
      var at := if !finished && s.timestamp.Some? && s.timestamp.value != 0 then s.timestamp.value else now;
      Feed(None, None, false, finished, s.messageEnded,
           s.emitted + [Callback(at, PendingBytes(s), s.messageEnded)])
  }

  function Receive(s: Feed, data: Bytes, now: nat): Feed {
    var t := s.(pending := Some(PendingBytes(s) + data));
    if s.timer then t else t.(timestamp := Some(now), timer := true)
  }

  datatype Event = Data(data: Bytes, now: nat) | Timer(now: nat) | MessageEnds | Terminal(now: nat)

  predicate Enabled(s: Feed, e: Event) { e.Timer? ==> s.timer }

  function Step(s: Feed, e: Event): Feed
    requires Enabled(s, e)
  {
    match e
    case Data(data, now) => Receive(s, data, now)
    case Timer(now) => Flush(s, false, now)
    case MessageEnds => s.(messageEnded := true)
    case Terminal(now) => Flush(s, true, now)
  }

  /** A feed, everything received so far, and the part of it that came after the finishing callback. */
  datatype History = History(feed: Feed, received: Bytes, late: Bytes)

  const Start := History(Initial, [], [])

  function Next(h: History, e: Event): History
    requires Enabled(h.feed, e)
  {
    History(Step(h.feed, e),
            if e.Data? then h.received + e.data else h.received,
            if e.Data? && h.feed.finished then h.late + e.data else h.late)
  }

  predicate Possible(h: History, es: seq<Event>)
    decreases |es|
  {
    es == [] || (Enabled(h.feed, es[0]) && Possible(Next(h, es[0]), es[1..]))
  }

  function Run(h: History, es: seq<Event>): History
    requires Possible(h, es)
    decreases |es|
  {
    if es == [] then h else Run(Next(h, es[0]), es[1..])
  }

  function Contents(emitted: seq<Callback>): Bytes {
    if emitted == [] then [] else Contents(emitted[..|emitted| - 1]) + emitted[|emitted| - 1].content
  }

  predicate OnlyLastEnds(emitted: seq<Callback>) {
    forall i :: 0 <= i < |emitted| - 1 ==> !emitted[i].isEnded
  }

  predicate Inv(h: History) {
    var s := h.feed;
    && OnlyLastEnds(s.emitted)
    && if s.finished then s.emitted != [] && Contents(s.emitted) + h.late == h.received
       else
         && (s.pending.Some? <==> s.timer) && (s.timestamp.Some? <==> s.timer) && h.late == []
         && Contents(s.emitted) + PendingBytes(s) == h.received
         && (forall c :: c in s.emitted ==> !c.isEnded)
  }

  lemma NextKeepsInv(h: History, e: Event)
    requires Inv(h) && Enabled(h.feed, e)
    ensures Inv(Next(h, e))
  {
    hide Contents;
    var s, sent := h.feed, Contents(h.feed.emitted);
    match e
    case Data(data, now) =>
      assert sent + (h.late + data) == sent + h.late + data;
      assert sent + (PendingBytes(s) + data) == sent + PendingBytes(s) + data;
    case MessageEnds =>
    case Timer(now) => FlushKeepsInv(h, false, now);
    case Terminal(now) => FlushKeepsInv(h, true, now);
  }

  lemma FlushKeepsInv(h: History, isFinal: bool, now: nat)
    requires Inv(h)
    ensures Inv(h.(feed := Flush(h.feed, isFinal, now)))
  {
  }

  lemma {:induction false} RunKeepsInv(h: History, es: seq<Event>)
    requires Inv(h) && Possible(h, es)
    ensures Inv(Run(h, es))
    decreases |es|
  {
    if es != [] {
      NextKeepsInv(h, es[0]);
      RunKeepsInv(Next(h, es[0]), es[1..]);
    }
  }

  /**
   * Conservation over every run: until the feed finishes, content is pending exactly when a timer is
   * armed, and what was emitted plus what is pending is what was received. A finished feed has emitted
   * everything if and only if no byte came after its finishing callback. isEnded appears at most once
   * and only on the last callback.
   */
  lemma EventsConserveData(es: seq<Event>)
    requires Possible(Start, es)
    ensures var h := Run(Start, es); var s := h.feed;
      && (!s.finished ==> (s.pending.Some? <==> s.timer) && Contents(s.emitted) + PendingBytes(s) == h.received)
      && (s.finished ==> (Contents(s.emitted) == h.received <==> h.late == []))
      && (forall i :: 0 <= i < |s.emitted| && s.emitted[i].isEnded ==> i == |s.emitted| - 1 && s.finished)
  {
    RunKeepsInv(Start, es);
    var h := Run(Start, es);
    if h.feed.finished && Contents(h.feed.emitted) == h.received {
      assert |h.received| == |h.received| + |h.late|;
    }
  }

  // ---- The callbacks, read off the events ------------------------------------------------------

  predicate Flushes(e: Event) { e.Timer? || e.Terminal? }

  /** The feed is over: it was flushed by a terminal event, or by any once the message had ended. */
  predicate Over(es: seq<Event>) {
    es != [] &&
    var front, last := es[..|es| - 1], es[|es| - 1];
    Over(front) || last.Terminal? || (last.Timer? && MessageEnds in front)
  }

  /** The data that has come since the last flush. */
  function Unsent(es: seq<Event>): Bytes {
    if es == [] || Flushes(es[|es| - 1]) then []
    else Unsent(es[..|es| - 1]) + (if es[|es| - 1].Data? then es[|es| - 1].data else [])
  }

  /** When the first of that data came. */
  function FirstTime(es: seq<Event>): Option<nat> {
    if es == [] || Flushes(es[|es| - 1]) then None
    else
      var before := FirstTime(es[..|es| - 1]);
      if before.None? && es[|es| - 1].Data? then Some(es[|es| - 1].now) else before
  }

  /**
   * A flush after these events calls back with the data since the last one. It says that the message
   * has ended exactly if it had; it carries the time of the first of its data, unless there is none (or
   * none but zero) or it is the last one, which carries the time of the flush.
   */
  function CallbackOf(es: seq<Event>, flush: Event): Callback
    requires Flushes(flush)
  {
    var first := FirstTime(es);
    var last := flush.Terminal? || MessageEnds in es;
    Callback(if last || first.None? || first == Some(0) then flush.now else first.value, Unsent(es), MessageEnds in es)
  }

  function Callbacks(es: seq<Event>): seq<Callback> {
    if es == [] then []
    else
      var front, last := es[..|es| - 1], es[|es| - 1];
      Callbacks(front) + (if Flushes(last) && !Over(front) then [CallbackOf(front, last)] else [])
  }

  lemma {:induction false} RunSnoc(h: History, es: seq<Event>, e: Event)
    requires Possible(h, es + [e])
    ensures Possible(h, es) && Enabled(Run(h, es).feed, e) && Run(h, es + [e]) == Next(Run(h, es), e)
    decreases |es|
  {
    if es == [] {
      assert [] + [e] == [e] && [e][1..] == [];
    } else {
      assert (es + [e])[1..] == es[1..] + [e] && (es + [e])[0] == es[0];
      RunSnoc(Next(h, es[0]), es[1..], e);
    }
  }

  /** In every run the callbacks are exactly those, and the feed is finished exactly when it is over. */
  lemma {:induction false} CallbacksAreExactly(es: seq<Event>)
    requires Possible(Start, es)
    ensures var s := Run(Start, es).feed;
      && s.emitted == Callbacks(es) && (s.finished <==> Over(es)) && (s.messageEnded <==> MessageEnds in es)
      && (!s.finished ==> PendingBytes(s) == Unsent(es) && s.timestamp == FirstTime(es))
      && (!s.finished ==> (s.pending.Some? <==> s.timer) && (s.timestamp.Some? <==> s.timer))
  {
    if es != [] {
      var front, last := es[..|es| - 1], es[|es| - 1];
      assert es == front + [last];
      assert forall e :: e in es <==> e in front || e == last;
      RunSnoc(Start, front, last);
      CallbacksAreExactly(front);
      hide Over, Callbacks, Unsent, FirstTime, Run, Possible;
      CallbacksStep(Run(Start, front).feed, front, last);
    }
  }

  lemma CallbacksStep(s: Feed, front: seq<Event>, last: Event)
    requires Enabled(s, last)
    requires s.emitted == Callbacks(front) && (s.finished <==> Over(front))
    requires s.messageEnded <==> MessageEnds in front
    requires !s.finished ==> PendingBytes(s) == Unsent(front) && s.timestamp == FirstTime(front)
    requires !s.finished ==> (s.pending.Some? <==> s.timer) && (s.timestamp.Some? <==> s.timer)
    ensures var n, es := Step(s, last), front + [last];
      && n.emitted == Callbacks(es) && (n.finished <==> Over(es)) && (n.messageEnded <==> MessageEnds in es)
      && (!n.finished ==> PendingBytes(n) == Unsent(es) && n.timestamp == FirstTime(es))
      && (!n.finished ==> (n.pending.Some? <==> n.timer) && (n.timestamp.Some? <==> n.timer))
  {
    var es := front + [last];
    assert es[..|es| - 1] == front && es[|es| - 1] == last;
    assert forall e :: e in es <==> e in front || e == last;
    assert Callbacks(front) + [] == Callbacks(front) && PendingBytes(s) + [] == PendingBytes(s);
  }

  /** A terminal event finishes the feed, emitting one more callback unless it was finished already. */
  lemma TerminalFinishes(s: Feed, now: nat)
    ensures var t := Step(s, Terminal(now));
      && t.finished
      && |t.emitted| == |s.emitted| + (if s.finished then 0 else 1)
      && t.emitted[..|s.emitted|] == s.emitted
  {
  }

  /** Nothing follows the finishing callback, whatever happens next. */
  lemma {:induction false} FinishedIsFinal(h: History, es: seq<Event>)
    requires h.feed.finished && Possible(h, es)
    ensures Run(h, es).feed.finished && Run(h, es).feed.emitted == h.feed.emitted
    decreases |es|
  {
    if es != [] {
      FinishedIsFinal(Next(h, es[0]), es[1..]);
    }
  }

  // ---- One batch -------------------------------------------------------------------------------

  /** A chunk and the time of its arrival. */
  datatype Arrival = Arrival(data: Bytes, now: nat)

  /** A burst of chunks, one after another. */
  function ReceiveAll(s: Feed, burst: seq<Arrival>): Feed {
    if burst == [] then s
    else
      var last := burst[|burst| - 1];
      Receive(ReceiveAll(s, burst[..|burst| - 1]), last.data, last.now)
  }

  function Gathered(burst: seq<Arrival>): Bytes {
    if burst == [] then [] else Gathered(burst[..|burst| - 1]) + burst[|burst| - 1].data
  }

  /** A burst that arms the timer leaves its concatenation pending, under the time of its first chunk. */
  lemma {:induction false} ReceiveAllGathers(s: Feed, burst: seq<Arrival>)
    requires burst != [] && !s.timer && s.pending.None?
    ensures ReceiveAll(s, burst) == s.(pending := Some(Gathered(burst)), timestamp := Some(burst[0].now), timer := true)
    decreases |burst|
  {
    if |burst| == 1 {
      assert burst[..0] == [];
    } else {
      ReceiveAllGathers(s, burst[..|burst| - 1]);
    }
  }

  /**
   * However many chunks arrive before the timer fires, they leave as one callback holding their
   * concatenation, stamped with the time of the first of them while the message is still open.
   */
  lemma BatchIsOneCallback(s: Feed, burst: seq<Arrival>, now: nat)
    requires burst != [] && burst[0].now != 0
    requires !s.timer && s.pending.None? && !s.finished
    ensures Flush(ReceiveAll(s, burst), false, now).emitted
         == s.emitted + [Callback(if s.messageEnded then now else burst[0].now, Gathered(burst), s.messageEnded)]
  {
    hide ReceiveAll, Gathered;
    ReceiveAllGathers(s, burst);
  }

  // ---- The closure, updating its variables in place --------------------------------------------

  class BodyDataEmitter {
    var timestamp: Option<nat>
    var pendingContent: Option<Bytes>
    var pendingContentTimer: bool
    var finished: bool
    var messageEnded: bool
    var callbacks: seq<Callback>

    function State(): Feed
      reads this
    {
      Feed(timestamp, pendingContent, pendingContentTimer, finished, messageEnded, callbacks)
    }

    constructor ()
      ensures State() == Initial
    {
      timestamp, pendingContent, pendingContentTimer := None, None, false;
      finished, messageEnded, callbacks := false, false, [];
    }

    method FlushPendingContent(isFinal: bool, now: nat)
      modifies this
      ensures State() == Flush(old(State()), isFinal, now)
    {
      if finished {
        return;
      }
      var hasEnded := messageEnded;
      finished := hasEnded || isFinal;
      var at := now;
      if !finished && timestamp.Some? && timestamp.value != 0 {
        at := timestamp.value;
      }
      var content: Bytes := [];
      if pendingContent.Some? {
        content := pendingContent.value;
      }
      callbacks := callbacks + [Callback(at, content, hasEnded)];
      timestamp := None;
      pendingContent := None;
      if pendingContentTimer {
        pendingContentTimer := false;
      }
    }

    method OnData(data: Bytes, now: nat)
      modifies this
      ensures State() == Receive(old(State()), data, now)
    {
      if pendingContent.Some? {
        pendingContent := Some(pendingContent.value + data);
      } else {
        pendingContent := Some(data);
        assert [] + data == data;
      }
      if !pendingContentTimer {
        timestamp := Some(now);
        pendingContentTimer := true;
      }
    }
  }
}
