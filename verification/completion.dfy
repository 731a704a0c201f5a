/**
 The caller's loop over a writer: it sets each message, writes until that is reported,
 and stops after the last.  However short the writes, the loop comes to its end.
 */
module Completion {
  import opened Wire
  import opened Results
  import opened WriterSpec
  import opened WriterRuns
  import opened WriterSends
  import opened WriterTrace
  import opened Streams
  import D = DecoderSpec
  import E = EncoderSpec
  import FS = FrameStreams

  /** How much the two writes of a call may move. */
  datatype Count = Count(first: Positive, second: Positive)

  /** The message to be written next is set, or after the last of them stop is called. */
  function Prepare(accepts: D.Accepts, t: Trace, ms: seq<E.Message>): Trace
    requires Kept(accepts, t) && !t.writer.bidirectional
  {
    Perform(accepts, t, if ms == [] then CallStop else CallSetDnstap(ms[0]))
  }

  /** That, and a write. */
  function Turn(accepts: D.Accepts, t: Trace, ms: seq<E.Message>, c: Count): Trace
    requires Kept(accepts, t) && !t.writer.bidirectional
  {
    CallKept(accepts, t, if ms == [] then CallStop else CallSetDnstap(ms[0]));
    Perform(accepts, Prepare(accepts, t, ms), CallWrite(Transport(c.first, c.second, [])))
  }

  lemma TurnKept(accepts: D.Accepts, t: Trace, ms: seq<E.Message>, c: Count)
    requires Kept(accepts, t) && !t.writer.bidirectional
    ensures var t1, t' := Prepare(accepts, t, ms), Turn(accepts, t, ms, c);
      && Kept(accepts, t1) && !t1.writer.bidirectional && t1.writer.output.max == t.writer.output.max
      && Kept(accepts, t') && !t'.writer.bidirectional && t'.writer.output.max == t.writer.output.max
  {
    hide Kept, Perform;
    CallKept(accepts, t, if ms == [] then CallStop else CallSetDnstap(ms[0]));
    CallKept(accepts, Prepare(accepts, t, ms), CallWrite(Transport(c.first, c.second, [])));
  }

  /** What is still to be written: an `ok` is for the message that was set. */
  function Later(t: Trace, t': Trace, ms: seq<E.Message>): seq<E.Message> {
    if ms != [] && |t'.messages| > |t.messages| then ms[1..] else ms
  }

  /** Until the writer says that this is the end, or the transport gives up. */
  function Feed(accepts: D.Accepts, t: Trace, ms: seq<E.Message>, counts: seq<Count>): Trace
    requires Kept(accepts, t) && !t.writer.bidirectional
    decreases |counts|
  {
    if counts == [] || SaidEnd(t.answers) then t
    else
      TurnKept(accepts, t, ms, counts[0]);
      var t' := Turn(accepts, t, ms, counts[0]);
      Feed(accepts, t', Later(t, t', ms), counts[1..])
  }

  // ---- one turn ----

  predicate Over(s: E.EncoderState) {
    s.ControlStop? || s.Done?
  }

  /** Between two turns, `ms` being still to be written. */
  predicate Fed(accepts: D.Accepts, t: Trace, ms: seq<E.Message>) {
    && Kept(accepts, t) && !t.writer.bidirectional && Answered(t)
    && (ms != [] ==> !Over(t.writer.encoder.state))
  }

  /** Everything goes into a buffer of `max` bytes. */
  predicate AllFit(max: nat, ms: seq<E.Message>) {
    42 <= max && forall m :: m in ms ==> 4 + |m| <= max
  }

  /** Something does not: START, if that is still to be written, or a message. */
  predicate SomeDoNot(w: Writer, ms: seq<E.Message>) {
    || (w.encoder.state.ControlStart? && w.output.max < 42)
    || exists m :: m in ms && w.output.max < 4 + |m|
  }

  /** Ready to write. */
  predicate Prepared(accepts: D.Accepts, t: Trace, ms: seq<E.Message>) {
    && Fed(accepts, t, ms) && t.status.Running?
    && (ms != [] ==> t.writer.encoder.dnstap == ms[0])
    && (ms == [] ==> !t.writer.encoder.state.Frames?)
  }

  lemma PrepareGood(accepts: D.Accepts, t: Trace, ms: seq<E.Message>)
    requires Fed(accepts, t, ms) && t.status.Running? && !t.writer.state.Done?
    ensures var t1 := Prepare(accepts, t, ms);
      && Prepared(accepts, t1, ms) && !t1.writer.state.Done?
      && t1.writer.output == t.writer.output && t1.sent == t.sent && t1.messages == t.messages
      && (t1.writer.encoder.state.ControlStart? <==> t.writer.encoder.state.ControlStart?)
  {
    hide Stream, Heard, Answered;
    var call := if ms == [] then CallStop else CallSetDnstap(ms[0]);
    CallKept(accepts, t, call);
    CallAnswered(accepts, t, call);
  }

  /** Whether the write of a turn can go wrong. */
  lemma PreparedEncodes(accepts: D.Accepts, t: Trace, ms: seq<E.Message>, first: nat)
    requires Prepared(accepts, t, ms) && !t.writer.state.Done?
    ensures Good(t.writer) && Ready(t.writer, t.sent, t.messages)
    ensures !TakesInput(t.writer.state) && !t.writer.state.EncodingReady?
    ensures AllFit(t.writer.output.max, ms) ==> !CannotEncode(t.writer, first)
    ensures t.writer.encoder.state.ControlStart? && t.writer.output.max < 42 ==> CannotEncode(t.writer, first)
    ensures t.writer.state.Encoding? && t.writer.encoder.state.Frames? && !CannotEncode(t.writer, first) ==>
      ms != [] && 4 + |ms[0]| <= t.writer.output.max
  {
    hide Stream, Heard;
    E.ItemSizes();
    if ms != [] {
      assert ms[0] in ms;
    }
  }

  /** READY left whole, and nothing is encoded after STOP; in one direction that is always so. */
  predicate Steady(w: Writer) {
    && (w.state.Writing? ==> !w.encoder.state.ControlStart?)
    && (w.state.Encoding? ==> !w.encoder.state.Done?)
  }

  /** What a write does to the encoder, and that `ok` tells of a frame. */
  lemma WriteReports(accepts: D.Accepts, t: Trace, io: Transport)
    requires Good(t.writer) && Ready(t.writer, t.sent, t.messages) && Steady(t.writer)
    requires !TakesInput(t.writer.state) && !t.writer.state.EncodingReady? && !t.writer.state.Done?
    ensures var o := Write(accepts, t.writer, io);
      o.result != Error ==>
        && (o.result == Ok ==> t.writer.state.Encoding? && t.writer.encoder.state.Frames?)
        && (!Over(t.writer.encoder.state) ==> !Over(o.writer.encoder.state) && !o.writer.state.Done?)
        && !o.writer.encoder.state.ControlStart? && Steady(o.writer)
        && (TakesInput(o.writer.state) ==> o.writer.state.ReadingFinish?)
        && o.writer.decoder == t.writer.decoder && o.writer.input == t.writer.input
        && (o.writer.state.Done? ==> !t.writer.bidirectional)
  {
    hide Stream, SendFrames, SendStop, SendRest;
    match t.writer.state
    case Stopping => SendRestGood(t.writer, io.first, io.second, t.sent, t.messages);
    case EncodingStop => SendStopGood(t.writer, io.first, t.sent, t.messages);
    case WritingStop => SendStopGood(t.writer, io.first, t.sent, t.messages);
    case Encoding => SendFramesGood(t.writer, io.first, t.sent, t.messages);
    case Writing => SendFramesGood(t.writer, io.first, t.sent, t.messages);
    case _ =>
  }

  lemma Performed(accepts: D.Accepts, t: Trace, io: Transport)
    requires Kept(accepts, t) && t.status.Running?
    ensures var o := Write(accepts, t.writer, io); var t' := Perform(accepts, t, CallWrite(io));
      && (o.result == Error ==> t' == t.(status := Status.Failed))
      && (o.result != Error ==>
            && t'.status.Running? && t'.writer == o.writer && t'.sent == t.sent + o.sent
            && o.taken <= |io.canRead| && t'.received == t.received + io.canRead[..o.taken]
            && t'.messages == t.messages + Reported(o.result, t.writer.encoder))
  {
    hide Write, Kept;
    KeptGood(accepts, t);
    if Write(accepts, t.writer, io).result != Error {
      WriteKept(accepts, t, io);
    }
  }

  /** What any turn keeps: messages move from those to be written to those reported. */
  lemma TurnFed(accepts: D.Accepts, t: Trace, ms: seq<E.Message>, c: Count)
    requires Fed(accepts, t, ms) && !t.writer.state.Done?
    ensures var t' := Turn(accepts, t, ms, c); var ms' := Later(t, t', ms);
      Fed(accepts, t', ms') && t'.messages + ms' == t.messages + ms
  {
    hide Stream, Kept, Perform, Write, Prepare, CannotEncode;
    TurnKept(accepts, t, ms, c);
    if t.status.Running? {
      var t1 := Prepare(accepts, t, ms);
      var io := Transport(c.first, c.second, []);
      PrepareGood(accepts, t, ms);
      CallAnswered(accepts, t1, CallWrite(io));
      PreparedEncodes(accepts, t1, ms, c.first);
      WriteReports(accepts, t1, io);
      Performed(accepts, t1, io);
      SendFails(accepts, t1.writer, io);
      if t1.writer.state.Encoding? && t1.writer.encoder.state.Frames? && ms != [] {
        assert t.messages + [ms[0]] + ms[1..] == t.messages + ms;
      }
    } else {
      NotRunning(accepts, t, ms, c);
    }
  }

  lemma NotRunning(accepts: D.Accepts, t: Trace, ms: seq<E.Message>, c: Count)
    requires Kept(accepts, t) && !t.writer.bidirectional && !t.status.Running?
    ensures Turn(accepts, t, ms, c) == t
  {
    hide Kept;
    CallKept(accepts, t, if ms == [] then CallStop else CallSetDnstap(ms[0]));
  }

  /** When everything fits, a turn sends at least a byte. */
  lemma TurnMoves(accepts: D.Accepts, t: Trace, ms: seq<E.Message>, c: Count)
    requires Fed(accepts, t, ms) && !t.writer.state.Done? && t.status.Running?
    requires AllFit(t.writer.output.max, ms)
    ensures var t' := Turn(accepts, t, ms, c);
      t'.status.Running? && |t.sent| < |t'.sent|
  {
    hide Stream, Kept, Perform, Write, Prepare, CannotEncode;
    TurnKept(accepts, t, ms, c);
    var t1 := Prepare(accepts, t, ms);
    var io := Transport(c.first, c.second, []);
    PrepareGood(accepts, t, ms);
    PreparedEncodes(accepts, t1, ms, c.first);
    Performed(accepts, t1, io);
    SendFails(accepts, t1.writer, io);
  }

  /** When something does not, the turn fails or leaves it to be written. */
  lemma TurnStuck(accepts: D.Accepts, t: Trace, ms: seq<E.Message>, c: Count)
    requires Fed(accepts, t, ms) && !t.writer.state.Done?
    requires t.status.Running? && SomeDoNot(t.writer, ms)
    ensures var t' := Turn(accepts, t, ms, c); var ms' := Later(t, t', ms);
      !t'.writer.state.Done? && SomeDoNot(t'.writer, ms')
  {
    hide Stream, Kept, Perform, Write, Prepare, CannotEncode;
    TurnKept(accepts, t, ms, c);
    var t1, t' := Prepare(accepts, t, ms), Turn(accepts, t, ms, c);
    var io := Transport(c.first, c.second, []);
    PrepareGood(accepts, t, ms);
    PreparedEncodes(accepts, t1, ms, c.first);
    WriteReports(accepts, t1, io);
    Performed(accepts, t1, io);
    SendFails(accepts, t1.writer, io);
    if exists m :: m in ms && t.writer.output.max < 4 + |m| {
      var m :| m in ms && t.writer.output.max < 4 + |m|;
      assert m == ms[0] || m in ms[1..];
    }
  }

  // ---- the loop ----

  /** Until the writer is done, some of the session has not been sent. */
  lemma StillToSend(accepts: D.Accepts, t: Trace, ms: seq<E.Message>)
    requires Fed(accepts, t, ms) && !t.writer.state.Done?
    ensures |t.sent| < |Session(false, t.messages + ms)|
  {
    hide Heard, E.StartBytes, E.StopBytes;
    E.ItemSizes();
    var w := t.writer;
    assert |t.sent| + |w.output.data| == |Stream(false, w.encoder.state, t.messages)|;
    if w.encoder.state.Done? {
      assert t.messages + ms == t.messages;
    } else {
      StreamPrefix(false, w.encoder.state, t.messages);
      LongerSession(false, t.messages, ms);
      NotWhole(w.encoder.state, t.messages);
    }
  }

  lemma NotWhole(s: E.EncoderState, messages: seq<Bytes>)
    requires !s.Done? && (s.ControlReady? || s.ControlStart? ==> messages == [])
    ensures |Stream(false, s, messages)| < |Session(false, messages)|
  {
    hide E.StartBytes, E.StopBytes;
    E.ItemSizes();
  }

  lemma {:induction false} LongerSession(bidirectional: bool, a: seq<Bytes>, b: seq<Bytes>)
    ensures |Session(bidirectional, a)| <= |Session(bidirectional, a + b)|
    decreases |b|
  {
    hide E.ReadyBytes, E.StartBytes, E.StopBytes, FS.FrameBytes;
    if b == [] {
      assert a + b == a;
    } else {
      FS.FramesAppend(a, b[0]);
      LongerSession(bidirectional, a + [b[0]], b[1..]);
      assert a + [b[0]] + b[1..] == a + b;
    }
  }

  lemma {:induction false} FeedEnds(accepts: D.Accepts, t: Trace, ms: seq<E.Message>, counts: seq<Count>)
    requires Fed(accepts, t, ms) && t.status.Running? && AllFit(t.writer.output.max, ms)
    requires |Session(false, t.messages + ms)| <= |t.sent| + |counts|
    ensures Feed(accepts, t, ms, counts).writer.state.Done?
    decreases |counts|
  {
    hide Kept, Turn, Session;
    if !SaidEnd(t.answers) {
      StillToSend(accepts, t, ms);
      var c := counts[0];
      TurnKept(accepts, t, ms, c);
      TurnFed(accepts, t, ms, c);
      TurnMoves(accepts, t, ms, c);
      var t' := Turn(accepts, t, ms, c);
      FeedEnds(accepts, t', Later(t, t', ms), counts[1..]);
    }
  }

  lemma {:induction false} FeedStuck(accepts: D.Accepts, t: Trace, ms: seq<E.Message>, counts: seq<Count>)
    returns (rest: seq<E.Message>)
    requires Fed(accepts, t, ms) && !t.writer.state.Done? && SomeDoNot(t.writer, ms)
    ensures var t' := Feed(accepts, t, ms, counts);
      !t'.writer.state.Done? && SomeDoNot(t'.writer, rest) && t'.messages + rest == t.messages + ms
    decreases |counts|
  {
    hide Kept, Turn, SomeDoNot;
    rest := ms;
    if counts != [] {
      var c := counts[0];
      TurnKept(accepts, t, ms, c);
      TurnFed(accepts, t, ms, c);
      if t.status.Running? {
        TurnStuck(accepts, t, ms, c);
      } else {
        NotRunning(accepts, t, ms, c);
      }
      var t' := Turn(accepts, t, ms, c);
      rest := FeedStuck(accepts, t', Later(t, t', ms), counts[1..]);
    }
  }

  lemma {:induction false} FeedFed(accepts: D.Accepts, t: Trace, ms: seq<E.Message>, counts: seq<Count>)
    returns (rest: seq<E.Message>)
    requires Fed(accepts, t, ms)
    ensures var t' := Feed(accepts, t, ms, counts);
      Fed(accepts, t', rest) && t'.messages + rest == t.messages + ms
    decreases |counts|
  {
    hide Kept, Turn;
    rest := ms;
    if counts != [] && !SaidEnd(t.answers) {
      var c := counts[0];
      TurnKept(accepts, t, ms, c);
      TurnFed(accepts, t, ms, c);
      var t' := Turn(accepts, t, ms, c);
      rest := FeedFed(accepts, t', Later(t, t', ms), counts[1..]);
    }
  }

  /** The loop from a writer not yet used. */
  function FeedOf(accepts: D.Accepts, w: Writer, ms: seq<E.Message>, counts: seq<Count>): Trace
    requires Fresh(w) && !w.bidirectional
  {
    BeginKept(accepts, w);
    Feed(accepts, Begin(w), ms, counts)
  }

  lemma DoneIsWhole(accepts: D.Accepts, t: Trace, ms: seq<E.Message>)
    requires Fed(accepts, t, ms) && t.writer.state.Done?
    ensures ms == [] && t.sent == Session(false, t.messages)
  {
    hide Stream, Heard;
    assert t.sent + [] == t.sent;
  }

  lemma StuckIsShort(accepts: D.Accepts, t: Trace, ms: seq<E.Message>)
    requires Kept(accepts, t) && !t.writer.bidirectional && SomeDoNot(t.writer, ms)
    ensures ms != [] || t.sent == []
  {
    hide Heard;
    if t.writer.encoder.state.ControlStart? {
      assert t.sent + t.writer.output.data == [];
    }
  }

  /**
   However little each write moves, as long as it moves something: with enough of them the
   loop ends in `endofdata` with every message reported and the whole session sent if and only if START
   and each frame fit the writer's `max`.  If they do not, it fails, and what it
   has reported is not all of the messages, unless nothing was sent at all.
   */
  lemma FeedCompletes(accepts: D.Accepts, w: Writer, ms: seq<E.Message>, counts: seq<Count>)
    requires Fresh(w) && !w.bidirectional && |Session(false, ms)| <= |counts|
    ensures var t := FeedOf(accepts, w, ms, counts);
      && Kept(accepts, t) && !t.writer.bidirectional && t.messages <= ms
      && (t.writer.state.Done? <==> AllFit(w.output.max, ms))
      && Answered(t) && (SaidEnd(t.answers) <==> t.writer.state.Done?)
      && (t.writer.state.Done? ==> t.messages == ms && t.sent == Session(false, ms))
      && (!t.writer.state.Done? ==> t.messages != ms || t.sent == [])
  {
    hide Feed, Session, Stream, Heard;
    BeginKept(accepts, w);
    var t := Begin(w);
    assert t.messages + ms == ms;
    var rest := FeedFed(accepts, t, ms, counts);
    if AllFit(w.output.max, ms) {
      FeedEnds(accepts, t, ms, counts);
      DoneIsWhole(accepts, Feed(accepts, t, ms, counts), rest);
    } else {
      rest := FeedStuck(accepts, t, ms, counts);
      StuckKept(accepts, t, ms, counts);
      StuckIsShort(accepts, Feed(accepts, t, ms, counts), rest);
    }
  }

  lemma StuckKept(accepts: D.Accepts, t: Trace, ms: seq<E.Message>, counts: seq<Count>)
    requires Fed(accepts, t, ms)
    ensures Kept(accepts, Feed(accepts, t, ms, counts)) && !Feed(accepts, t, ms, counts).writer.bidirectional
    ensures Answered(Feed(accepts, t, ms, counts))
    ensures Feed(accepts, t, ms, counts).messages <= t.messages + ms
  {
    hide Feed, Kept;
    var rest := FeedFed(accepts, t, ms, counts);
  }
}
