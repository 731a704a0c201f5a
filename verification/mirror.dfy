/**
 Encoder and decoder face to face: whatever the encoder is asked to do, a decoder that
 reads its output stands exactly where the encoder stands.
 */
module Mirror {
  import opened Wire
  import opened Results
  import opened Streams
  import opened Sessions
  import FS = FrameStreams
  import D = DecoderSpec
  import E = EncoderSpec
  import L = Language

  /** The decoder that has read everything an encoder in state `s` has written. */
  predicate Mirrors(d: D.Decoder, s: E.EncoderState) {
    match s
    case ControlReady => d.state.ReadingControl? && d.reader.phase.InControl?
    case ControlAccept => d.state.ReadingControl? && d.reader.phase.InControl?
    case ControlStart =>
      && d.reader.phase.InControl?
      && (d.state.ReadingControl? || (d.state.ReadingStart? && d.readySupport))
    case ControlFinish => d.state.CheckingFinish? && d.reader.phase.InControl? && d.acceptSupport
    case Frames => d.state.ReadingFrames? && d.reader.phase.InFrames?
    case ControlStop => d.state.ReadingFrames? && d.reader.phase.InFrames?
    case Done => d.state.Done?
  }

  /** The run that has caught up with the encoder after `messages`. */
  ghost predicate CaughtUp(r: Run, s: E.EncoderState, messages: seq<Bytes>) {
    && r.messages == messages
    && if s.Done? then r.end.Ended?
       else r.end.Waiting? && r.end.pending == [] && Mirrors(r.end.decoder, s)
  }

  /** The message an encoder has ready to frame is one the receiving side unpacks. */
  predicate Sendable(accepts: D.Accepts, e: E.Encoder) {
    e.state.Frames? && e.dnstap != [] ==> |e.dnstap| < 0x1_0000_0000 && accepts(e.dnstap)
  }

  function MessageOf(e: E.Encoder): seq<Bytes> {
    if e.state.Frames? then [e.dnstap] else []
  }

  lemma ContentTypeFits(d: D.Decoder)
    ensures Writable([CONTENT_TYPE]) && FieldsFit(Unlimited, [CONTENT_TYPE])
    ensures AnyMatch([CONTENT_TYPE]) && Matches(CONTENT_TYPE)
  {
    MatchesMeaning(CONTENT_TYPE);
    E.ItemSizes();
    assert CONTENT_TYPE in [CONTENT_TYPE];
  }

  lemma NothingRun(env: Env, d: D.Decoder)
    ensures RunFrom(env, d, []) == Run([], Waiting(d, []))
  {
  }

  /** One item of the encoder, read by its mirror. */
  lemma ItemMirrored(accepts: D.Accepts, d: D.Decoder, e: E.Encoder)
    requires Mirrors(d, e.state) && E.Encodes(e) && Sendable(accepts, e)
    ensures CaughtUp(RunFrom(L.Whole(accepts), d, E.NextItem(e)), E.AfterItem(e).state, MessageOf(e))
  {
    hide RunFrom, FS.ControlBytes, FS.FrameBytes, Matches, AnyMatch, FieldsFit, Writable;
    var env := L.Whole(accepts);
    ContentTypeFits(d);
    var item := E.NextItem(e);
    assert item + [] == item;
    match e.state
    case ControlReady =>
      ControlRun(env, d, FS.READY, [CONTENT_TYPE], []);
      NothingRun(env, Negotiated(d, FS.READY, true));
    case ControlAccept =>
      ControlRun(env, d, FS.ACCEPT, [CONTENT_TYPE], []);
      NothingRun(env, Negotiated(d, FS.ACCEPT, true));
    case ControlStart =>
      StartRun(env, d, CONTENT_TYPE, []);
      NothingRun(env, Started(d));
    case Frames =>
      FrameRun(env, d, e.dnstap, []);
      NothingRun(env, d.(dnstap := e.dnstap));
    case ControlStop => EndRun(env, d, FS.STOP, []);
    case ControlFinish => EndRun(env, d, FS.FINISH, []);
  }

  /** What lies between the two sides, one item longer. */
  lemma StreamMirrored(accepts: D.Accepts, d: D.Decoder, s: Bytes, e: E.Encoder, messages: seq<Bytes>)
    requires CaughtUp(RunFrom(L.Whole(accepts), d, s), e.state, messages)
    requires E.Encodes(e) && Sendable(accepts, e)
    ensures CaughtUp(RunFrom(L.Whole(accepts), d, s + E.NextItem(e)), E.AfterItem(e).state, messages + MessageOf(e))
  {
    hide RunFrom, E.NextItem;
    var env := L.Whole(accepts);
    var r := RunFrom(env, d, s);
    RunSplits(env, d, s, E.NextItem(e));
    ItemMirrored(accepts, r.end.decoder, e);
    assert r.end.pending + E.NextItem(e) == E.NextItem(e);
  }

  // ---- any use of an encoder ----

  datatype Act = SetDnstap(m: E.Message) | Encode(room: Positive) | Stop

  datatype Trace = Trace(encoder: E.Encoder, output: Bytes, messages: seq<Bytes>)

  function Perform(t: Trace, a: Act): Trace {
    match a
    case SetDnstap(m) => t.(encoder := t.encoder.(dnstap := m))
    case Stop => t.(encoder := E.Stop(t.encoder).1)
    case Encode(room) =>
      var r := E.Encode(t.encoder, room);
      Trace(r.encoder, t.output + r.bytes, t.messages + if r.result == Ok then [t.encoder.dnstap] else [])
  }

  function PerformAll(t: Trace, acts: seq<Act>): Trace
    decreases |acts|
  {
    if acts == [] then t else PerformAll(Perform(t, acts[0]), acts[1..])
  }

  predicate Starting(s: E.EncoderState) {
    s.ControlReady? || s.ControlStart? || s.ControlAccept?
  }

  ghost predicate InMirror(accepts: D.Accepts, t: Trace) {
    && CaughtUp(RunFrom(L.Whole(accepts), D.Fresh, t.output), t.encoder.state, t.messages)
    && |t.encoder.dnstap| < 0x1_0000_0000
  }

  lemma {:induction false} MirrorKept(accepts: D.Accepts, t: Trace, acts: seq<Act>)
    requires InMirror(accepts, t) && (t.encoder.dnstap != [] ==> accepts(t.encoder.dnstap))
    requires forall a :: a in acts && a.SetDnstap? ==> accepts(a.m)
    ensures InMirror(accepts, PerformAll(t, acts))
    decreases |acts|
  {
    hide RunFrom, E.NextItem;
    if acts != [] {
      var a := acts[0];
      assert a in acts;
      if a.Encode? {
        var r := E.Encode(t.encoder, a.room);
        assert t.output + [] == t.output;
        if r.result != Error && r.result != NeedMore {
          StreamMirrored(accepts, D.Fresh, t.output, t.encoder, t.messages);
        }
      }
      MirrorKept(accepts, Perform(t, a), acts[1..]);
    }
  }

  /**
   Encoder output is decoder input.  From any of its three starting states, after any
   settings, encodings into any room, and stops, a fresh decoder reads the output as
   exactly the messages encoded; and it has ended just when the encoder is done.
   */
  lemma EncoderOutputIsDecoderInput(accepts: D.Accepts, start: E.EncoderState, acts: seq<Act>)
    requires Starting(start)
    requires forall a :: a in acts && a.SetDnstap? ==> accepts(a.m)
    ensures var t := PerformAll(Trace(E.Encoder(start, []), [], []), acts);
      var r := RunFrom(L.Whole(accepts), D.Fresh, t.output);
      && r.messages == t.messages
      && (t.encoder.state.Done? ==> r.end.Ended?)
      && (!t.encoder.state.Done? ==> r.end.Waiting? && r.end.pending == [])
  {
    NothingRun(L.Whole(accepts), D.Fresh);
    MirrorKept(accepts, Trace(E.Encoder(start, []), [], []), acts);
  }
}
