/**
 * Reading one message body many times (src/util/buffer-utils.ts and parseBodyStream in
 * src/util/request-utils.ts).
 *
 * One input stream feeds a size-capped buffer and any number of lazy replay streams. `Body` is the
 * state shared by all those closures, `Step` is one turn of the event loop, and `Run` an arbitrary
 * interleaving. `BodyReader` is the same state updated in place, each method proved equal to its step.
 */
module BodyBuffering {
  import opened Prelude

  datatype Promise = Pending | Resolved(value: Bytes) | Rejected

  /** A stream handed out by asStream(). */
  datatype Output =
    | Replay(value: Bytes)  // bufferToStream: the completed buffer, then the end
    | Waiting               // bufferThenStream, not read yet
    | Reading(piped: bool, written: Bytes, ended: bool, failed: bool)

  /** Which of the buffer's listeners are on the input. */
  datatype Phase =
    | Idle                    // asBuffer() not called yet
    | Collecting              // listening to data, end, aborted and error
    | Dropped                 // over maxSize: the data listener was removed
    | Late(abortQueued: bool) // buffering began after the input finished; an abort may be queued

  datatype Input = Input(ended: bool, aborted: bool, errored: bool) {
    predicate Live() { !ended && !aborted && !errored }

    /** readableAborted: destroyed or errored before the end was emitted. */
    predicate Dead() { !ended && (aborted || errored) }
  }

  datatype Body = Body(
    maxSize: nat,
    phase: Phase,
    chunks: seq<Bytes>,
    currentSize: nat,
    promise: Promise,
    failedWith: bool,
    completed: Option<Bytes>, // completedBuffer, set one microtask after the promise resolves
    outputs: seq<Output>,
    input: Input)
  {
    predicate Attached() { phase.Collecting? || phase.Dropped? }
  }

  function Init(maxSize: nat): Body {
    Body(maxSize, Idle, [], 0, Pending, false, None, [], Input(false, false, false))
  }

  // ---- The steps -------------------------------------------------------------------------------

  function Resolve(p: Promise, value: Bytes): Promise { if p.Pending? then Resolved(value) else p }

  function Reject(p: Promise): Promise { if p.Pending? then Rejected else p }

  /** streamToBuffer, called on the first asBuffer(). */
  function StartBuffering(s: Body): Body {
    if !s.phase.Idle? then s
    else if s.input.ended then s.(phase := Late(false), promise := Resolved([]))
    else if s.input.Dead() then s.(phase := Late(true))
    else s.(phase := Collecting)
  }

  function OpenStream(s: Body): Body {
    if s.completed.Some? then s.(outputs := s.outputs + [Replay(s.completed.value)])
    else var t := StartBuffering(s); t.(outputs := t.outputs + [Waiting])
  }

  /** The first read of a lazy stream: take what is buffered, then follow the input. */
  function Activate(s: Body, o: Output): Output {
    if !o.Waiting? then o
    else if s.failedWith then Reading(false, [], false, true)
    else Reading(true, Flatten(s.chunks), s.input.ended, s.input.Dead())
  }

  function ActivateAll(s: Body): seq<Output> {
    seq(|s.outputs|, i requires 0 <= i < |s.outputs| => Activate(s, s.outputs[i]))
  }

  function Read(s: Body, i: nat): Body
    requires i < |s.outputs|
  {
    s.(outputs := s.outputs[i := Activate(s, s.outputs[i])])
  }

  /** The buffer's own data listener, with the truncation branch. */
  function Collect(s: Body, chunk: Bytes): Body {
    var t := s.(currentSize := s.currentSize + |chunk|, chunks := s.chunks + [chunk]);
    if t.currentSize <= t.maxSize then t
    else t.(outputs := ActivateAll(t), chunks := [], phase := Dropped, promise := Resolve(t.promise, []))
  }

  predicate Piped(o: Output) { o.Reading? && o.piped }

  function PipeOne(listener: Output, o: Output, chunk: Bytes): Output {
    if Piped(listener) && o.Reading? then o.(written := o.written + chunk) else o
  }

  /** The pipe listeners of one data event: those attached before the event was emitted. */
  function Pipe(listeners: seq<Output>, outputs: seq<Output>, chunk: Bytes): seq<Output>
    requires |listeners| == |outputs|
  {
    seq(|outputs|, i requires 0 <= i < |outputs| => PipeOne(listeners[i], outputs[i], chunk))
  }

  function Deliver(s: Body, chunk: Bytes): Body {
    var t := if s.phase.Collecting? then Collect(s, chunk) else s;
    t.(outputs := Pipe(s.outputs, t.outputs, chunk))
  }

  function EndOne(o: Output): Output { if Piped(o) then o.(ended := true) else o }

  function EndAll(outputs: seq<Output>): seq<Output> {
    seq(|outputs|, i requires 0 <= i < |outputs| => EndOne(outputs[i]))
  }

  function FailOne(o: Output): Output { if Piped(o) then o.(failed := true) else o }

  function FailAll(outputs: seq<Output>): seq<Output> {
    seq(|outputs|, i requires 0 <= i < |outputs| => FailOne(outputs[i]))
  }

  function EndInput(s: Body): Body {
    s.(input := s.input.(ended := true), outputs := EndAll(s.outputs),
       promise := if s.Attached() then Resolve(s.promise, Flatten(s.chunks)) else s.promise)
  }

  function FailBuffer(s: Body): Body { s.(failedWith := true, promise := Reject(s.promise)) }

  function AbortInput(s: Body): Body {
    var t := s.(input := s.input.(aborted := true));
    if s.Attached() then FailBuffer(t) else t
  }

  function RunImmediate(s: Body): Body {
    if s.phase == Late(true) then FailBuffer(s.(phase := Late(false))) else s
  }

  function FailInput(s: Body): Body {
    var t := s.(input := s.input.(errored := true), outputs := FailAll(s.outputs));
    if s.Attached() then FailBuffer(t) else t
  }

  /** The microtask that copies a resolved buffer into completedBuffer. */
  function Settle(s: Body): Body {
    if s.promise.Resolved? then s.(completed := Some(s.promise.value)) else s
  }

  // ---- Interleavings ---------------------------------------------------------------------------

  datatype Event =
    | AsBuffer | AsStream | FirstRead(index: nat)
    | Data(chunk: Bytes) | End | Abort | Immediate | Error | Microtask

  predicate Enabled(s: Body, e: Event) {
    match e
    case FirstRead(i) => i < |s.outputs|
    case Data(_) => s.input.Live()
    case End => s.input.Live()
    case Abort => s.input.Live()
    case Error => !s.input.errored
    case _ => true
  }

  function Step(s: Body, e: Event): Body
    requires Enabled(s, e)
  {
    match e
    case AsBuffer => StartBuffering(s)
    case AsStream => OpenStream(s)
    case FirstRead(i) => Read(s, i)
    case Data(chunk) => Deliver(s, chunk)
    case End => EndInput(s)
    case Abort => AbortInput(s)
    case Immediate => RunImmediate(s)
    case Error => FailInput(s)
    case Microtask => Settle(s)
  }

  /** A body together with everything the input delivered since buffering began. */
  datatype History = History(body: Body, received: Bytes)

  function Next(h: History, e: Event): History
    requires Enabled(h.body, e)
  {
    History(Step(h.body, e), if e.Data? && !h.body.phase.Idle? then h.received + e.chunk else h.received)
  }

  predicate Possible(h: History, es: seq<Event>)
    decreases |es|
  {
    es == [] || (Enabled(h.body, es[0]) && Possible(Next(h, es[0]), es[1..]))
  }

  function Run(h: History, es: seq<Event>): History
    requires Possible(h, es)
    decreases |es|
  {
    if es == [] then h else Run(Next(h, es[0]), es[1..])
  }

  /** The chunks that a run delivers. */
  function DataOf(es: seq<Event>): seq<Bytes> {
    if es == [] then [] else (if es[0].Data? then [es[0].chunk] else []) + DataOf(es[1..])
  }

  lemma StaysAsked(h: History, e: Event)
    requires Enabled(h.body, e) && !h.body.phase.Idle?
    ensures !Next(h, e).body.phase.Idle?
  {
    hide Flatten, ActivateAll, Pipe;
  }

  /** `received` is no invention of the model: from the first asBuffer() on it is the run's own data. */
  lemma {:induction false} ReceivedIsTheData(h: History, es: seq<Event>)
    requires !h.body.phase.Idle? && Possible(h, es)
    ensures Run(h, es).received == h.received + Flatten(DataOf(es))
    decreases |es|
  {
    hide Flatten, DataOf, Step;
    if es == [] {
      NoData();
      assert h.received + [] == h.received;
    } else {
      StaysAsked(h, es[0]);
      ReceivedIsTheData(Next(h, es[0]), es[1..]);
      DataOfFirst(es);
      PiecesInOrder(h.received, if es[0].Data? then es[0].chunk else [], Flatten(DataOf(es[1..])));
      assert h.received + [] == h.received;
    }
  }

  function Start(maxSize: nat): History { History(Init(maxSize), []) }

  function Opens(es: seq<Event>): nat { if es == [] then 0 else (if es[0].AsStream? then 1 else 0) + Opens(es[1..]) }

  lemma StepKnowsItsEvent(s: Body, e: Event)
    requires Enabled(s, e)
    ensures var n := Step(s, e);
      && n.input == Input(s.input.ended || e == End, s.input.aborted || e == Abort, s.input.errored || e == Error)
      && |n.outputs| == |s.outputs| + if e.AsStream? then 1 else 0
  {
    hide Activate, PipeOne, EndOne, FailOne, Flatten;
    match e
    case Data(_) =>
    case AsStream =>
    case Error =>
    case Abort =>
    case Immediate =>
    case _ =>
  }

  /** The body's idea of its input is what the events say, and streams are opened by asStream() alone. */
  lemma {:induction false} RunKnowsItsEvents(h: History, es: seq<Event>)
    requires Possible(h, es)
    ensures var r, input := Run(h, es).body, h.body.input;
      && r.input == Input(input.ended || End in es, input.aborted || Abort in es, input.errored || Error in es)
      && |r.outputs| == |h.body.outputs| + Opens(es)
    decreases |es|
  {
    hide Step;
    if es != [] {
      StepKnowsItsEvent(h.body, es[0]);
      RunKnowsItsEvents(Next(h, es[0]), es[1..]);
      InFirst(es, End);
      InFirst(es, Abort);
      InFirst(es, Error);
    }
  }

  /** What one step does to one already opened stream. */
  function StepOutput(s: Body, e: Event, i: nat): Output
    requires i < |s.outputs|
  {
    var o := s.outputs[i];
    match e
    case FirstRead(j) => if i == j then Activate(s, o) else o
    case Data(chunk) =>
      if Piped(o) then o.(written := o.written + chunk)
      else if s.phase.Collecting? && s.currentSize + |chunk| > s.maxSize then
        Activate(s.(chunks := s.chunks + [chunk]), o)
      else o
    case End => EndOne(o)
    case Error => FailOne(o)
    case _ => o
  }

  lemma DeliverActsPointwise(s: Body, chunk: Bytes, i: nat)
    requires i < |s.outputs|
    ensures |Deliver(s, chunk).outputs| == |s.outputs|
    ensures Deliver(s, chunk).outputs[i] == StepOutput(s, Data(chunk), i)
  {
  }

  lemma StepActsPointwise(s: Body, e: Event, i: nat)
    requires Enabled(s, e) && i < |s.outputs|
    ensures i < |Step(s, e).outputs| && Step(s, e).outputs[i] == StepOutput(s, e, i)
  {
    match e
    case Data(chunk) => DeliverActsPointwise(s, chunk, i);
    case End =>
    case Error =>
    case _ =>
  }

  // ---- What every interleaving keeps -----------------------------------------------------------

  predicate Untouched(h: History) {
    var s := h.body;
    && s.chunks == [] && s.currentSize == 0 && s.promise.Pending? && !s.failedWith
    && s.completed.None? && s.outputs == [] && h.received == []
  }

  predicate Collected(h: History) {
    var s := h.body;
    match s.phase
    case Collecting => Flatten(s.chunks) == h.received && s.currentSize == |h.received| <= s.maxSize
    case Dropped => s.chunks == [] && |h.received| > s.maxSize
    case Late(queued) => s.chunks == [] && h.received == [] && !s.input.Live() && (queued ==> s.input.Dead())
    case Idle => true
  }

  /** The body had failed by the time its listeners, or the queued immediate, could tell. */
  predicate Failed(s: Body) {
    (s.Attached() && (s.input.aborted || s.input.errored)) || (s.phase == Late(false) && !s.input.ended)
  }

  predicate Settled(h: History) {
    var s := h.body;
    && (s.phase == Late(true) ==> s.promise.Pending?) && (s.failedWith <==> Failed(s))
    && match s.promise {
         case Pending => !s.phase.Dropped? && (s.input.Live() || s.phase == Late(true))
         case Resolved(v) => if s.phase.Dropped? then v == [] else v == h.received && s.input.ended
         case Rejected => s.failedWith && !s.phase.Dropped? && s.input.Dead()
       }
    && (s.completed.Some? ==> s.promise == Resolved(s.completed.value))
  }

  predicate Inv(h: History) {
    if h.body.phase.Idle? then Untouched(h) else Collected(h) && Settled(h)
  }

  lemma DataKeepsInv(h: History, chunk: Bytes)
    requires Inv(h) && h.body.input.Live()
    ensures Inv(Next(h, Data(chunk))) && Next(h, Data(chunk)).body.maxSize == h.body.maxSize
  {
  }

  /** The end or the death of the input. */
  lemma OverKeepsInv(h: History, e: Event)
    requires Inv(h) && Enabled(h.body, e) && (e.End? || e.Abort? || e.Error? || e.Immediate?)
    ensures Inv(Next(h, e)) && Next(h, e).body.maxSize == h.body.maxSize
  {
    hide Flatten;
  }

  lemma UseKeepsInv(h: History, e: Event)
    requires Inv(h) && Enabled(h.body, e) && (e.AsBuffer? || e.AsStream? || e.FirstRead? || e.Microtask?)
    ensures Inv(Next(h, e)) && Next(h, e).body.maxSize == h.body.maxSize
  {
    hide Activate;
    assert Flatten<byte>([]) == [] by { NothingKept(); }
    hide Flatten;
  }

  lemma NothingKept()
    ensures Flatten<byte>([]) == []
  {
  }

  lemma NextKeepsInv(h: History, e: Event)
    requires Inv(h) && Enabled(h.body, e)
    ensures Inv(Next(h, e)) && Next(h, e).body.maxSize == h.body.maxSize
  {
    hide Inv, Step;
    match e
    case Data(chunk) => DataKeepsInv(h, chunk);
    case End => OverKeepsInv(h, e);
    case Abort => OverKeepsInv(h, e);
    case Error => OverKeepsInv(h, e);
    case Immediate => OverKeepsInv(h, e);
    case _ => UseKeepsInv(h, e);
  }

  lemma {:induction false} RunKeepsInv(h: History, es: seq<Event>)
    requires Inv(h) && Possible(h, es)
    ensures Inv(Run(h, es)) && Run(h, es).body.maxSize == h.body.maxSize
    decreases |es|
  {
    if es != [] {
      NextKeepsInv(h, es[0]);
      RunKeepsInv(Next(h, es[0]), es[1..]);
    }
  }

  /**
   * The buffer. In every interleaving: while the input lives and has not overflowed, it is pending; it
   * resolves to the concatenation of all chunks if the input ends within maxSize and to the empty buffer
   * as soon as it overflows; it is rejected exactly if the input dies before either. Only a buffer asked
   * for after the input died waits for one more turn of the loop. The bytes kept between events never
   * exceed maxSize.
   */
  lemma BufferAgreesWithInput(maxSize: nat, es: seq<Event>)
    requires Possible(Start(maxSize), es)
    ensures var h := Run(Start(maxSize), es); var s := h.body;
      && |Flatten(s.chunks)| <= maxSize
      && (s.phase.Idle? || s.phase == Late(true) ==> s.promise.Pending?)
      && (!s.phase.Idle? && s.phase != Late(true) ==>
            s.promise == if |h.received| > maxSize then Resolved([])
                         else if s.input.Live() then Pending
                         else if s.input.ended then Resolved(h.received)
                         else Rejected)
  {
    RunKeepsInv(Start(maxSize), es);
  }

  /** The promise settles once and for all. */
  lemma {:induction false} SettledForGood(h: History, es: seq<Event>)
    requires Inv(h) && Possible(h, es) && !h.body.promise.Pending?
    ensures Run(h, es).body.promise == h.body.promise
    decreases |es|
  {
    hide Inv;
    if es != [] {
      SettledStays(h, es[0]);
      NextKeepsInv(h, es[0]);
      SettledForGood(Next(h, es[0]), es[1..]);
    }
  }

  lemma SettledStays(h: History, e: Event)
    requires Inv(h) && Enabled(h.body, e) && !h.body.promise.Pending?
    ensures Next(h, e).body.promise == h.body.promise
  {
    hide Collected;
  }

  /** Once the queued immediate has run, every buffer that was asked for is settled if the input is over. */
  lemma ImmediateSettles(maxSize: nat, es: seq<Event>)
    requires Possible(Start(maxSize), es)
    ensures var s := Next(Run(Start(maxSize), es), Immediate).body;
      s.promise.Pending? ==> s.phase.Idle? || s.input.Live()
    ensures var h := Run(Start(maxSize), es);
      h.body.phase == Late(true) ==> Next(h, Immediate).body.promise.Rejected?
  {
    RunKeepsInv(Start(maxSize), es);
  }

  // ---- Streams opened before the data was dropped ----------------------------------------------

  /** Stream i holds, or on its first read will hold, exactly what was received. */
  predicate Follows(h: History, i: nat) {
    var s := h.body;
    && i < |s.outputs| && !s.phase.Idle?
    && match s.outputs[i] {
         case Waiting => !s.phase.Dropped?
         case Reading(piped, written, ended, failed) =>
           if piped then written == h.received && ended == s.input.ended else written == [] && failed && s.failedWith
         case Replay(_) => false
       }
  }

  lemma NextKeepsFollows(h: History, e: Event, i: nat)
    requires Inv(h) && Enabled(h.body, e) && Follows(h, i)
    ensures Follows(Next(h, e), i)
  {
    if e.Data? {
      DataKeepsFollows(h, e.chunk, i);
    } else {
      hide Flatten;
      StepActsPointwise(h.body, e, i);
      NextKeepsInv(h, e);
    }
  }

  lemma DataKeepsFollows(h: History, chunk: Bytes, i: nat)
    requires Inv(h) && Enabled(h.body, Data(chunk)) && Follows(h, i)
    ensures Follows(Next(h, Data(chunk)), i)
  {
    StepActsPointwise(h.body, Data(chunk), i);
    NextKeepsInv(h, Data(chunk));
    FlattenSnoc(h.body.chunks, chunk);
    DataMoves(h, chunk);
    hide Flatten, Inv, Step;
  }

  /** Where a chunk leaves the phase, and what is said of failure. */
  lemma DataMoves(h: History, chunk: Bytes)
    requires Inv(h) && h.body.input.Live() && !h.body.phase.Idle?
    ensures var s, n := h.body, Next(h, Data(chunk));
      && n.received == h.received + chunk && n.body.input == s.input && n.body.failedWith == s.failedWith
      && n.body.phase == (if s.phase.Collecting? && s.currentSize + |chunk| > s.maxSize then Dropped else s.phase)
    ensures h.body.phase.Collecting? ==> Flatten(h.body.chunks) == h.received
    ensures !h.body.failedWith || !h.body.Attached()
  {
    hide Flatten, ActivateAll, Pipe;
  }

  lemma {:induction false} RunKeepsFollows(h: History, es: seq<Event>, i: nat)
    requires Inv(h) && Possible(h, es) && Follows(h, i)
    ensures Follows(Run(h, es), i)
    decreases |es|
  {
    if es != [] {
      NextKeepsInv(h, es[0]);
      NextKeepsFollows(h, es[0], i);
      RunKeepsFollows(Next(h, es[0]), es[1..], i);
    }
  }

  // ---- Streams opened between the drop and the microtask ---------------------------------------

  /** Stream i can only ever hold a proper suffix of what was received. */
  predicate Misses(h: History, i: nat) {
    var s := h.body;
    && i < |s.outputs| && s.phase.Dropped?
    && match s.outputs[i] {
         case Waiting => true
         case Reading(piped, written, _, _) =>
           && |written| < |h.received| && h.received[|h.received| - |written|..] == written
           && (!piped ==> written == [])
         case Replay(_) => false
       }
  }

  lemma NextKeepsMisses(h: History, e: Event, i: nat)
    requires Inv(h) && Enabled(h.body, e) && Misses(h, i)
    ensures Misses(Next(h, e), i)
  {
    var o := h.body.outputs[i];
    StepActsPointwise(h.body, e, i);
    if e.Data? && Piped(o) {
      var n := Next(h, e);
      assert n.received[|n.received| - |o.written + e.chunk|..]
          == h.received[|h.received| - |o.written|..] + e.chunk;
    }
  }

  lemma {:induction false} RunKeepsMisses(h: History, es: seq<Event>, i: nat)
    requires Inv(h) && Possible(h, es) && Misses(h, i)
    ensures Misses(Run(h, es), i)
    decreases |es|
  {
    if es != [] {
      NextKeepsInv(h, es[0]);
      NextKeepsMisses(h, es[0], i);
      RunKeepsMisses(Next(h, es[0]), es[1..], i);
    }
  }

  lemma {:induction false} RunKeepsReplay(h: History, es: seq<Event>, i: nat)
    requires Possible(h, es) && i < |h.body.outputs| && h.body.outputs[i].Replay?
    ensures i < |Run(h, es).body.outputs| && Run(h, es).body.outputs[i] == h.body.outputs[i]
    decreases |es|
  {
    if es != [] {
      StepActsPointwise(h.body, es[0], i);
      RunKeepsReplay(Next(h, es[0]), es[1..], i);
    }
  }

  lemma RunAfter(h: History, e: Event, es: seq<Event>)
    requires Possible(h, [e] + es)
    ensures Possible(Next(h, e), es) && Run(h, [e] + es) == Run(Next(h, e), es)
  {
    assert ([e] + es)[1..] == es;
  }

  lemma StepOfPiped(s: Body, e: Event, i: nat)
    requires Enabled(s, e) && i < |s.outputs| && Piped(s.outputs[i])
    ensures var o := s.outputs[i];
      i < |Step(s, e).outputs| && Step(s, e).outputs[i]
        == Reading(true, o.written + (if e.Data? then e.chunk else []), o.ended || e == End, o.failed || e == Error)
  {
    StepActsPointwise(s, e, i);
    assert s.outputs[i].written + [] == s.outputs[i].written;
  }

  lemma DataOfFirst(es: seq<Event>)
    requires es != []
    ensures Flatten(DataOf(es)) == (if es[0].Data? then es[0].chunk else []) + Flatten(DataOf(es[1..]))
  {
    if es[0].Data? {
      FlattenCons([es[0].chunk] + DataOf(es[1..]));
    } else {
      assert DataOf(es) == DataOf(es[1..]);
    }
  }

  /**
   * A stream that has been read follows the input exactly, whatever else happens: it gets every chunk
   * that comes, in order, ends exactly when the input does and fails exactly when it has an error.
   */
  lemma {:induction false} PipedFollowsInput(h: History, es: seq<Event>, i: nat)
    requires Possible(h, es) && i < |h.body.outputs| && Piped(h.body.outputs[i])
    ensures var o := h.body.outputs[i];
      i < |Run(h, es).body.outputs| && Run(h, es).body.outputs[i]
        == Reading(true, o.written + Flatten(DataOf(es)), o.ended || End in es, o.failed || Error in es)
    decreases |es|
  {
    hide Step, Flatten, DataOf, Enabled;
    if es == [] {
      NoData();
      assert h.body.outputs[i].written + [] == h.body.outputs[i].written;
    } else {
      StepOfPiped(h.body, es[0], i);
      PipedFollowsInput(Next(h, es[0]), es[1..], i);
      InFirst(es, End);
      InFirst(es, Error);
      DataOfFirst(es);
      PiecesInOrder(h.body.outputs[i].written, if es[0].Data? then es[0].chunk else [], Flatten(DataOf(es[1..])));
    }
  }

  lemma PiecesInOrder(a: Bytes, b: Bytes, c: Bytes)
    ensures a + b + c == a + (b + c)
  {
  }

  lemma InFirst(es: seq<Event>, e: Event)
    requires es != []
    ensures e in es <==> e == es[0] || e in es[1..]
  {
  }

  lemma NoData()
    ensures Flatten(DataOf([])) == []
  {
  }

  /** A stream that failed on its first read gets nothing more. */
  lemma {:induction false} UnpipedStays(h: History, es: seq<Event>, i: nat)
    requires Possible(h, es) && i < |h.body.outputs| && h.body.outputs[i].Reading? && !h.body.outputs[i].piped
    ensures i < |Run(h, es).body.outputs| && Run(h, es).body.outputs[i] == h.body.outputs[i]
    decreases |es|
  {
    if es != [] {
      StepActsPointwise(h.body, es[0], i);
      UnpipedStays(Next(h, es[0]), es[1..], i);
    }
  }

  /**
   * The first read decides. In every interleaving a stream read for the first time after the body had
   * failed fails and stays empty; any other takes what is buffered at that moment and then follows the
   * input, whose end or death it also sees if that came before.
   */
  lemma FirstReadDecides(maxSize: nat, pre: seq<Event>, i: nat, post: seq<Event>)
    requires Possible(Start(maxSize), pre)
    requires var h := Run(Start(maxSize), pre);
      && i < |h.body.outputs| && h.body.outputs[i].Waiting? && Possible(h, [FirstRead(i)] + post)
    ensures var h := Run(Start(maxSize), pre); var after := Run(h, [FirstRead(i)] + post).body;
      var input := h.body.input;
      && i < |after.outputs|
      && after.outputs[i] == if Failed(h.body) then Reading(false, [], false, true)
           else Reading(true, Flatten(h.body.chunks) + Flatten(DataOf(post)),
                        input.ended || End in post, input.Dead() || Error in post)
  {
    RunKeepsInv(Start(maxSize), pre);
    var h := Run(Start(maxSize), pre);
    RunAfter(h, FirstRead(i), post);
    var now := Next(h, FirstRead(i));
    if Piped(now.body.outputs[i]) {
      PipedFollowsInput(now, post, i);
    } else {
      UnpipedStays(now, post, i);
    }
  }

  /** The stream that asStream() returns after the events `before`. */
  function Opened(before: History, es: seq<Event>): Output
    requires Possible(before, [AsStream] + es)
    requires |before.body.outputs| < |Run(before, [AsStream] + es).body.outputs|
  {
    Run(before, [AsStream] + es).body.outputs[|before.body.outputs|]
  }

  /**
   * Every stream opened before the buffer completed, in every interleaving: once it has been read
   * (and did not find the body already failed) it holds exactly the bytes received, once and in
   * order, if and only if it was opened before the data was dropped. It ends when the input has.
   */
  lemma StreamIsWholeIffOpenedBeforeDrop(maxSize: nat, pre: seq<Event>, post: seq<Event>)
    requires Possible(Start(maxSize), pre)
    requires var h := Run(Start(maxSize), pre); h.body.completed.None? && Possible(h, [AsStream] + post)
    ensures var h := Run(Start(maxSize), pre); var after := Run(h, [AsStream] + post);
      && |h.body.outputs| < |after.body.outputs|
      && var o := Opened(h, post);
      && !o.Replay?
      && (Piped(o) ==> (o.written == after.received <==> !h.body.phase.Dropped?))
      && (Piped(o) && !h.body.phase.Dropped? && after.body.input.ended ==> o.ended)
      && (o.Reading? && !o.piped ==> o.written == [] && (o.failed || h.body.phase.Dropped?))
      && (!h.body.phase.Dropped? && after.body.phase.Dropped? ==> o.Reading?)
  {
    var h := Run(Start(maxSize), pre);
    RunKeepsInv(Start(maxSize), pre);
    RunAfter(h, AsStream, post);
    NextKeepsInv(h, AsStream);
    var i := |h.body.outputs|;
    if h.body.phase.Dropped? {
      RunKeepsMisses(Next(h, AsStream), post, i);
    } else {
      RunKeepsFollows(Next(h, AsStream), post, i);
    }
  }

  /**
   * A stream opened once the promise has resolved and its microtask has run replays exactly the
   * buffer's value, whatever happens before and after.
   */
  lemma LateStreamReplaysBuffer(maxSize: nat, pre: seq<Event>, mid: seq<Event>, post: seq<Event>)
    requires Possible(Start(maxSize), pre) && Run(Start(maxSize), pre).body.promise.Resolved?
    requires Possible(Run(Start(maxSize), pre), [Microtask] + mid)
    requires Possible(Run(Run(Start(maxSize), pre), [Microtask] + mid), [AsStream] + post)
    ensures var resolved := Run(Start(maxSize), pre);
      var h := Run(resolved, [Microtask] + mid); var after := Run(h, [AsStream] + post);
      && |h.body.outputs| < |after.body.outputs|
      && Opened(h, post) == Replay(resolved.body.promise.value)
      && resolved.body.promise.value == if |after.received| <= maxSize then after.received else []
  {
    var resolved := Run(Start(maxSize), pre);
    RunKeepsInv(Start(maxSize), pre);
    RunAfter(resolved, Microtask, mid);
    var done := Next(resolved, Microtask);
    NextKeepsInv(resolved, Microtask);
    CompletedStays(done, mid);
    RunKeepsInv(done, mid);
    var h := Run(done, mid);
    RunAfter(h, AsStream, post);
    RunKeepsReplay(Next(h, AsStream), post, |h.body.outputs|);
    RunKeepsCompletion(h, [AsStream] + post);
  }

  lemma {:induction false} CompletedStays(h: History, es: seq<Event>)
    requires Inv(h) && Possible(h, es) && h.body.completed.Some?
    ensures Run(h, es).body.completed == h.body.completed
    decreases |es|
  {
    if es != [] {
      NextKeepsInv(h, es[0]);
      CompletedStays(Next(h, es[0]), es[1..]);
    }
  }

  /** Once the buffer is complete the drop decision is final, and without a drop so is the input. */
  lemma {:induction false} RunKeepsCompletion(h: History, es: seq<Event>)
    requires Inv(h) && h.body.completed.Some? && Possible(h, es)
    ensures var r := Run(h, es);
      && (r.received == h.received || (h.body.phase.Dropped? && |r.received| >= |h.received|))
    decreases |es|
  {
    if es != [] {
      NextKeepsInv(h, es[0]);
      RunKeepsCompletion(Next(h, es[0]), es[1..]);
    }
  }

  // ---- The closures, updating their state in place ---------------------------------------------

  class BodyReader {
    const maxSize: nat
    var phase: Phase
    var chunks: seq<Bytes>
    var currentSize: nat
    var promise: Promise
    var failedWith: bool
    var completed: Option<Bytes>
    var outputs: seq<Output>
    var input: Input

    function State(): Body
      reads this
    {
      Body(maxSize, phase, chunks, currentSize, promise, failedWith, completed, outputs, input)
    }

    constructor (maxSize: nat)
      ensures State() == Init(maxSize)
    {
      this.maxSize := maxSize;
      phase, chunks, currentSize, promise := Idle, [], 0, Pending;
      failedWith, completed, outputs, input := false, None, [], Input(false, false, false);
    }

    method AsBuffer()
      modifies this
      ensures State() == StartBuffering(old(State()))
    {
      if phase.Idle? {
        if input.ended {
          phase := Late(false);
          promise := Resolved([]);
        } else if input.Dead() {
          phase := Late(true);
        } else {
          phase := Collecting;
        }
      }
    }

    method AsStream() returns (stream: nat)
      modifies this
      ensures State() == OpenStream(old(State())) && stream == |old(outputs)| < |outputs|
    {
      stream := |outputs|;
      if completed.Some? {
        outputs := outputs + [Replay(completed.value)];
      } else {
        AsBuffer();
        outputs := outputs + [Waiting];
      }
    }

    /** The body of the lazy stream's read(), run by a consumer or by the truncate listener. */
    method OnRead(i: nat)
      requires i < |outputs|
      modifies this`outputs
      ensures State() == Read(old(State()), i)
    {
      if outputs[i].Waiting? {
        if failedWith {
          outputs := outputs[i := Reading(false, [], false, true)];
        } else {
          outputs := outputs[i := Reading(true, Flatten(chunks), input.ended, input.Dead())];
        }
      }
    }

    /** The truncate listeners: every stream that has not started yet starts now. */
    method EmitTruncate()
      modifies this`outputs
      ensures outputs == ActivateAll(old(State()))
    {
      ghost var before := State();
      for i := 0 to |outputs|
        invariant State() == before.(outputs := outputs) && |outputs| == |before.outputs|
        invariant forall k :: 0 <= k < i ==> outputs[k] == Activate(before, before.outputs[k])
        invariant forall k :: i <= k < |outputs| ==> outputs[k] == before.outputs[k]
      {
        OnRead(i);
      }
    }

    /** The buffer's data listener, registered before any stream's own. */
    method OnData(chunk: Bytes)
      modifies this
      ensures State() == Collect(old(State()), chunk)
    {
      currentSize := currentSize + |chunk|;
      chunks := chunks + [chunk];
      if currentSize > maxSize {
        EmitTruncate();
        chunks := [];
        phase := Dropped;
        promise := Resolve(promise, []);
      }
    }

    /** One data event of the input, dispatched to the listeners present when it was emitted. */
    method EmitData(chunk: Bytes)
      modifies this
      ensures State() == Deliver(old(State()), chunk)
    {
      var listeners := outputs;
      if phase.Collecting? {
        OnData(chunk);
      }
      WritePipes(listeners, chunk);
    }

    method WritePipes(listeners: seq<Output>, chunk: Bytes)
      requires |listeners| == |outputs|
      modifies this`outputs
      ensures outputs == Pipe(listeners, old(outputs), chunk)
    {
      for i := 0 to |listeners|
        invariant |outputs| == |old(outputs)|
        invariant forall k :: 0 <= k < i ==> outputs[k] == PipeOne(listeners[k], old(outputs)[k], chunk)
        invariant forall k :: i <= k < |outputs| ==> outputs[k] == old(outputs)[k]
      {
        if listeners[i].Reading? && listeners[i].piped && outputs[i].Reading? {
          outputs := outputs[i := outputs[i].(written := outputs[i].written + chunk)];
        }
      }
    }

    method EmitEnd()
      modifies this
      ensures State() == EndInput(old(State()))
    {
      input := input.(ended := true);
      if phase.Collecting? || phase.Dropped? {
        promise := Resolve(promise, Flatten(chunks));
      }
      EndPipes();
    }

    method EndPipes()
      modifies this`outputs
      ensures outputs == EndAll(old(outputs))
    {
      for i := 0 to |outputs|
        invariant |outputs| == |old(outputs)|
        invariant forall k :: 0 <= k < i ==> outputs[k] == EndOne(old(outputs)[k])
        invariant forall k :: i <= k < |outputs| ==> outputs[k] == old(outputs)[k]
      {
        if outputs[i].Reading? && outputs[i].piped {
          outputs := outputs[i := outputs[i].(ended := true)];
        }
      }
    }

    method Fail()
      modifies this`failedWith, this`promise
      ensures State() == FailBuffer(old(State()))
    {
      failedWith := true;
      promise := Reject(promise);
    }

    method EmitAborted()
      modifies this
      ensures State() == AbortInput(old(State()))
    {
      input := input.(aborted := true);
      if phase.Collecting? || phase.Dropped? {
        Fail();
      }
    }

    method OnImmediate()
      modifies this
      ensures State() == RunImmediate(old(State()))
    {
      if phase == Late(true) {
        phase := Late(false);
        Fail();
      }
    }

    method EmitError()
      modifies this
      ensures State() == FailInput(old(State()))
    {
      input := input.(errored := true);
      if phase.Collecting? || phase.Dropped? {
        Fail();
      }
      FailPipes();
    }

    method FailPipes()
      modifies this`outputs
      ensures outputs == FailAll(old(outputs))
    {
      for i := 0 to |outputs|
        invariant |outputs| == |old(outputs)|
        invariant forall k :: 0 <= k < i ==> outputs[k] == FailOne(old(outputs)[k])
        invariant forall k :: i <= k < |outputs| ==> outputs[k] == old(outputs)[k]
      {
        if outputs[i].Reading? && outputs[i].piped {
          outputs := outputs[i := outputs[i].(failed := true)];
        }
      }
    }

    method OnResolved()
      modifies this`completed
      ensures State() == Settle(old(State()))
    {
      if promise.Resolved? {
        completed := Some(promise.value);
      }
    }
  }
}
