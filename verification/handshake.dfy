/**
 Two parties: a bidirectional writer and a reader that allows it, joined by two FIFO byte
 channels, under every interleaving of their calls and every short read and write.
 */
module Handshake {
  import opened Wire
  import opened Results
  import opened Streams
  import FS = FrameStreams
  import D = DecoderSpec
  import E = EncoderSpec
  import L = Language
  import M = Mirror
  import S = Sessions
  import R = ReaderSpec
  import RR = ReaderRuns
  import RT = ReaderTrace
  import W = WriterSpec
  import WR = WriterRuns
  import WT = WriterTrace
  import C = Chunking
  import BS = BufferSpec

  // ---- how far a stream takes a decoder ----

  function Progress(s: D.DecoderState): nat {
    match s
    case ReadingControl => 0
    case CheckingReady => 1
    case CheckingAccept => 1
    case ReadingStart => 2
    case CheckingStart => 3
    case ReadingFrames => 4
    case CheckingFinish => 4
    case Done => 5
  }

  lemma {:induction false} NeverBack(accepts: D.Accepts, d: D.Decoder, s: Bytes)
    ensures var r := RunFrom(L.Whole(accepts), d, s);
      r.end.Waiting? ==>
        && Progress(d.state) <= Progress(r.end.decoder.state)
        && (d.state.ReadingStart? && r.end.decoder.state.ReadingStart? ==> r.end.pending == s)
        && (d.state.CheckingFinish? ==> r.end.pending == s && r.end.decoder == d)
        && (d.state.CheckingReady? || d.state.ReadingStart? || d.state.CheckingStart? || d.state.ReadingFrames? ==>
              !r.end.decoder.state.CheckingAccept? && !r.end.decoder.state.CheckingFinish?)
    decreases |s|
  {
    hide D.Decode;
    if s != [] {
      var env := L.Whole(accepts);
      assert Window(env.limit, s) == s;
      D.DecodeFollows(accepts, d, s);
      match Next(env, d, s)
      case Halt(_) =>
      case Go(_, d', rest) => NeverBack(accepts, d', rest);
    }
  }

  /** A proper part of READY or ACCEPT does not take a fresh decoder past its checking state. */
  lemma PartOpening(accepts: D.Accepts, kind: nat, part: Bytes)
    requires kind == FS.READY || kind == FS.ACCEPT
    requires part < FS.ControlBytes(kind, [CONTENT_TYPE])
    ensures var r := RunFrom(L.Whole(accepts), D.Fresh, part);
      r.end.Waiting? && Progress(r.end.decoder.state) <= 1
  {
    hide RunFrom, FS.FieldBytes, FS.Header, FS.Read, Matches;
    var env := L.Whole(accepts);
    M.ContentTypeFits(D.Fresh);
    var header, field := FS.Header(kind, 30), FS.FieldBytes(FS.FIELD_CONTENT_TYPE, CONTENT_TYPE);
    OneField(kind);
    if |part| < 12 {
      assert part == header[..|part|];
      FS.ReadHeader(D.Fresh.reader, kind, 30, []);
      assert header + [] == header;
      PartWaits(accepts, D.Fresh, header, |part|);
    } else {
      var more := part[12..];
      assert part == header + more && more == field[..|more|];
      S.HeaderRun(env, D.Fresh, kind, 30, more);
      var d := D.Fresh.(reader := FS.FrameReader(FS.InField, kind, 30),
                        state := if kind == FS.READY then D.CheckingReady else D.CheckingAccept);
      FS.ReadFieldBack(d.reader, FS.FIELD_CONTENT_TYPE, CONTENT_TYPE, []);
      assert field + [] == field;
      PartWaits(accepts, d, field, |more|);
    }
  }

  lemma OneField(kind: nat)
    ensures FS.ControlBytes(kind, [CONTENT_TYPE])
         == FS.Header(kind, 30) + FS.FieldBytes(FS.FIELD_CONTENT_TYPE, CONTENT_TYPE)
  {
    assert |CONTENT_TYPE| == 22 && [CONTENT_TYPE][1..] == [];
    assert FS.FieldsBytes([CONTENT_TYPE]) == FS.FieldBytes(FS.FIELD_CONTENT_TYPE, CONTENT_TYPE) + FS.FieldsBytes([]);
    assert FS.FieldsBytes([]) == [];
  }

  lemma PartWaits(accepts: D.Accepts, d: D.Decoder, item: Bytes, n: nat)
    requires !d.state.Done? && n < |item|
    requires FS.Read(d.reader, item).Got? && FS.Read(d.reader, item).size == |item|
    ensures RunFrom(L.Whole(accepts), d, item[..n]) == Run([], Waiting(d, item[..n]))
  {
    hide FS.Read;
    S.PartNeedsMore(d.reader, item, n);
  }

  lemma OpeningRun(accepts: D.Accepts, kind: nat)
    requires kind == FS.READY || kind == FS.ACCEPT
    ensures RunFrom(L.Whole(accepts), D.Fresh, FS.ControlBytes(kind, [CONTENT_TYPE]))
         == Run([], Waiting(S.Negotiated(D.Fresh, kind, true), []))
  {
    hide RunFrom, FS.ControlBytes, Matches, S.AnyMatch, S.FieldsFit, S.Writable;
    M.ContentTypeFits(D.Fresh);
    var item := FS.ControlBytes(kind, [CONTENT_TYPE]);
    assert item + [] == item;
    S.ControlRun(L.Whole(accepts), D.Fresh, kind, [CONTENT_TYPE], []);
    M.NothingRun(L.Whole(accepts), S.Negotiated(D.Fresh, kind, true));
  }

  predicate AllAccepted(accepts: D.Accepts, messages: seq<Bytes>) {
    S.Encodable(messages) && forall m :: m in messages ==> accepts(m)
  }

  /** A decoder given all that the writer has encoded stands where the encoder stands. */
  lemma {:induction false} StreamCaughtUp(accepts: D.Accepts, s: E.EncoderState, messages: seq<Bytes>)
    requires WR.SendSide(true, s) && AllAccepted(accepts, messages)
    requires s.ControlReady? || s.ControlStart? ==> messages == []
    ensures M.CaughtUp(RunFrom(L.Whole(accepts), D.Fresh, WR.Stream(true, s, messages)), s, messages)
    decreases if s.Done? then 2 else if s.ControlStop? then 1 else 0, |messages|, s.Frames?, s.ControlStart?
  {
    hide RunFrom, WR.Stream;
    var e: E.Encoder;
    var ms := messages;
    match s {
      case ControlReady =>
        M.NothingRun(L.Whole(accepts), D.Fresh);
        EmptyStream();
        return;
      case ControlStart => e := E.Encoder(E.ControlReady, []);
      case Frames =>
        if messages == [] {
          e := E.Encoder(E.ControlStart, []);
        } else {
          ms := messages[..|messages| - 1];
          e := E.Encoder(E.Frames, messages[|messages| - 1]);
          assert messages == ms + [e.dnstap];
        }
      case ControlStop =>
        StreamCaughtUp(accepts, E.Frames, messages);
        StopStream(messages);
        return;
      case Done => e := E.Encoder(E.ControlStop, []);
    }
    assert ms + M.MessageOf(e) == ms + WR.Reported(E.ItemResult(e), e) == messages;
    StreamCaughtUp(accepts, e.state, ms);
    WR.StreamGrows(true, e, ms);
    M.StreamMirrored(accepts, D.Fresh, WR.Stream(true, e.state, ms), e, ms);
  }

  lemma EmptyStream()
    ensures WR.Stream(true, E.ControlReady, []) == []
  {
  }

  lemma StopStream(messages: seq<Bytes>)
    ensures WR.Stream(true, E.ControlStop, messages) == WR.Stream(true, E.Frames, messages)
  {
  }

  // ---- the two parties ----

  /** What has been sent and not taken is in the channel. */
  datatype Net = Net(w: WT.Trace, r: RT.Trace)

  datatype Move =
    | WriterSets(m: E.Message)
    | WriterStops
    | WriterCalls(first: Positive, second: Positive, upTo: Positive)
    | ReaderCalls(room: Positive, upTo: Positive)

  function InTransit(sent: Bytes, taken: Bytes): Bytes {
    if |taken| <= |sent| then sent[|taken|..] else []
  }

  function Front(s: Bytes, n: nat): Bytes {
    s[..Min(n, |s|)]
  }

  ghost predicate Linked(accepts: D.Accepts, n: Net) {
    && WT.Kept(accepts, n.w) && n.w.writer.bidirectional
    && RR.Good(n.r.reader) && n.r.reader.allowBidirectional
    && RT.Conserved(n.r) && RT.Heard(accepts, n.r)
    && n.r.taken <= n.w.sent && n.w.received <= n.r.sent
    && AllAccepted(accepts, n.w.messages)
    && (n.w.writer.encoder.dnstap != [] ==> accepts(n.w.writer.encoder.dnstap))
  }

  /** Waiting for input that is not there: the call blocks. */
  predicate WriterBlocks(n: Net) {
    W.ReadsInput(n.w.writer.state) && InTransit(n.r.sent, n.w.received) == []
  }

  predicate ReaderBlocks(n: Net) {
    R.ReadsInput(n.r.reader.state) && InTransit(n.w.sent, n.r.taken) == []
  }

  function WriterMove(accepts: D.Accepts, n: Net, first: Positive, second: Positive, upTo: Positive): WT.Trace
    requires WT.Kept(accepts, n.w) && n.w.writer.bidirectional
  {
    WT.KeptGood(accepts, n.w);
    if !n.w.status.Running? || WriterBlocks(n) then n.w
    else if n.w.writer.state.EncodingReady? then
      // READY leaves first; the rest of the call is the next move, as `ReadyCallSplits` shows
      var o := W.SendReady(n.w.writer, first);
      if o.result == Error then n.w.(status := WT.Status.Failed) else WT.Record(n.w, o.(taken := 0), [])
    else
      var input := Front(InTransit(n.r.sent, n.w.received), upTo);
      WT.Perform(accepts, n.w, WT.CallWrite(W.Transport(first, second, input)))
  }

  function ReaderMove(accepts: D.Accepts, n: Net, room: Positive, upTo: Positive): RT.Trace
    requires RR.Good(n.r.reader)
  {
    if ReaderBlocks(n) then n.r
    else
      var input := Front(InTransit(n.w.sent, n.r.taken), upTo);
      RT.Perform(accepts, n.r, RT.CallRead(R.Transport(room, input)))
  }

  function Step(accepts: D.Accepts, n: Net, move: Move): Net
    requires WT.Kept(accepts, n.w) && n.w.writer.bidirectional && RR.Good(n.r.reader)
  {
    match move
    case WriterSets(m) => n.(w := WT.Perform(accepts, n.w, WT.CallSetDnstap(m)))
    case WriterStops => n.(w := WT.Perform(accepts, n.w, WT.CallStop))
    case WriterCalls(first, second, upTo) => n.(w := WriterMove(accepts, n, first, second, upTo))
    case ReaderCalls(room, upTo) => n.(r := ReaderMove(accepts, n, room, upTo))
  }

  predicate Sendable(accepts: D.Accepts, move: Move) {
    move.WriterSets? ==> accepts(move.m)
  }

  /** Taking READY's call apart changes nothing: what follows is the next call's doing. */
  lemma ReadyCallSplits(accepts: D.Accepts, w: W.Writer, io: W.Transport)
    requires WR.Good(w) && w.state.EncodingReady?
    ensures var o := W.SendReady(w, io.first); var whole := W.Write(accepts, w, io);
      && (o.result == Error || !o.writer.state.ReadingAccept? ==> whole == o)
      && (o.result != Error && o.writer.state.ReadingAccept? ==>
            && W.Valid(o.writer)
            && var later := W.Write(accepts, o.writer, io);
               && whole.result == later.result && whole.writer == later.writer
               && whole.sent == o.sent + later.sent && whole.taken == later.taken)
  {
    hide D.Decode, WR.Stream, E.ReadyBytes;
    WR.SendReadyGood(w, io.first, WR.Stream(true, E.ControlReady, []), []);
  }

  // ---- every move keeps the parties linked ----

  lemma RecordHistory(accepts: D.Accepts, t: WT.Trace, o: W.Outcome, input: Bytes)
    requires o.result != Error && o.taken <= |input|
    requires WT.Kept(accepts, WT.Record(t, o, input))
    requires AllAccepted(accepts, t.messages)
    requires t.writer.encoder.dnstap != [] ==> accepts(t.writer.encoder.dnstap)
    ensures var t' := WT.Record(t, o, input);
      && t.sent <= t'.sent && t'.received == t.received + input[..o.taken]
      && AllAccepted(accepts, t'.messages)
  {
    hide WT.Heard, WR.Stream, WT.Waits;
    var t' := WT.Record(t, o, input);
    if o.result == Ok {
      assert t'.messages[|t.messages|] in t'.messages;
    }
  }

  lemma TakenFromChannel(sent: Bytes, taken: Bytes, n: nat, k: nat)
    requires taken <= sent
    ensures k <= |Front(InTransit(sent, taken), n)| ==>
      taken + Front(InTransit(sent, taken), n)[..k] <= sent
  {
    if k <= |Front(InTransit(sent, taken), n)| {
      assert taken + Front(InTransit(sent, taken), n)[..k] == sent[..|taken| + k];
    }
  }

  lemma WriterMoveLinked(accepts: D.Accepts, n: Net, first: Positive, second: Positive, upTo: Positive)
    requires Linked(accepts, n)
    ensures Linked(accepts, n.(w := WriterMove(accepts, n, first, second, upTo)))
  {
    hide WT.Heard, WR.Stream, WT.Waits, WR.Good, W.Write, W.SendReady, AllAccepted, RR.Good, RT.Conserved, RT.Heard;
    hide WT.Record, WT.Kept, InTransit, Front;
    var t := n.w;
    WT.KeptGood(accepts, t);
    WT.StatusKept(accepts, t, WT.Status.Failed);
    if t.status.Running? && !WriterBlocks(n) {
      if t.writer.state.EncodingReady? {
        var o := W.SendReady(t.writer, first).(taken := 0);
        if o.result != Error {
          ReadyMove(accepts, t, first);
        }
      } else {
        var input := Front(InTransit(n.r.sent, t.received), upTo);
        var io := W.Transport(first, second, input);
        var o := W.Write(accepts, t.writer, io);
        if o.result != Error {
          WT.WriteKept(accepts, t, io);
          WT.WriteMode(accepts, t.writer, io);
          RecordHistory(accepts, t, o, input);
          TakenFromChannel(n.r.sent, t.received, upTo, o.taken);
          RecordedWriter(t, o, input);
        }
      }
    }
  }

  lemma RecordedWriter(t: WT.Trace, o: W.Outcome, input: Bytes)
    requires o.result != Error && o.taken <= |input|
    ensures WT.Record(t, o, input).writer == o.writer
  {
  }

  lemma ReadyMove(accepts: D.Accepts, t: WT.Trace, first: Positive)
    requires WT.Kept(accepts, t) && t.writer.state.EncodingReady? && t.writer.bidirectional
    requires W.SendReady(t.writer, first).result != Error
    requires AllAccepted(accepts, t.messages)
    requires t.writer.encoder.dnstap != [] ==> accepts(t.writer.encoder.dnstap)
    ensures var o := W.SendReady(t.writer, first); var t' := WT.Record(t, o.(taken := 0), []);
      && o.taken == 0
      && WT.Kept(accepts, t') && t.sent <= t'.sent && t'.received == t.received
      && AllAccepted(accepts, t'.messages)
      && t'.writer.bidirectional
      && t'.writer.encoder.dnstap == t.writer.encoder.dnstap
  {
    hide WT.Heard, WR.Stream, WT.Waits, E.ReadyBytes;
    WT.ReadySentKept(accepts, t, first);
    WR.SendReadyGood(t.writer, first, t.sent, t.messages);
    RecordHistory(accepts, t, W.SendReady(t.writer, first), []);
    assert t.received + [] == t.received;
  }

  lemma ReaderHistory(accepts: D.Accepts, t: RT.Trace, io: R.Transport)
    requires RR.Good(t.reader)
    ensures var t' := RT.Perform(accepts, t, RT.CallRead(io)); var o := R.Read(accepts, t.reader, io);
      && t.sent <= t'.sent
      && t'.reader.allowBidirectional == t.reader.allowBidirectional
      && (t.failed || o.result == Error ==> t'.taken == t.taken)
      && (!t.failed && o.result != Error ==> o.taken <= |io.canRead| && t'.taken == t.taken + io.canRead[..o.taken])
  {
    hide RunFrom, R.Read, RR.Good;
    RR.ReadGood(accepts, t.reader, io);
    ReadSetup(accepts, t.reader, io);
  }

  lemma ReadSetup(accepts: D.Accepts, r: R.Reader, io: R.Transport)
    requires RR.Good(r)
    ensures R.Read(accepts, r, io).reader.allowBidirectional == r.allowBidirectional
  {
    hide D.Decode, RR.InStep;
  }

  lemma ReaderMoveLinked(accepts: D.Accepts, n: Net, room: Positive, upTo: Positive)
    requires Linked(accepts, n)
    ensures Linked(accepts, n.(r := ReaderMove(accepts, n, room, upTo)))
  {
    hide WT.Kept, AllAccepted, RR.InStep, R.Valid, RT.Conserved, RT.HeardIn, RT.Perform, R.Read, InTransit, Front;
    if !ReaderBlocks(n) {
      var input := Front(InTransit(n.w.sent, n.r.taken), upTo);
      var io := R.Transport(room, input);
      RT.CallTraced(L.Whole(accepts), n.r, RT.CallRead(io));
      ReaderHistory(accepts, n.r, io);
      TakenFromChannel(n.w.sent, n.r.taken, upTo, R.Read(accepts, n.r.reader, io).taken);
    }
  }

  lemma OtherMovesLinked(accepts: D.Accepts, n: Net, c: WT.Call)
    requires Linked(accepts, n)
    requires c.CallStop? || (c.CallSetDnstap? && accepts(c.m))
    ensures Linked(accepts, n.(w := WT.Perform(accepts, n.w, c)))
    ensures WT.Perform(accepts, n.w, c).shortReady == n.w.shortReady
    ensures WriterClear(n.w.writer) ==> WriterClear(WT.Perform(accepts, n.w, c).writer)
  {
    hide WT.Heard, WR.Stream, WT.Kept;
    WT.CallKept(accepts, n.w, c);
  }

  // ---- one party against the other ----

  /** ACCEPT has not left in full: then nothing from START on has been encoded. */
  lemma NoStartYet(accepts: D.Accepts, n: Net)
    requires Linked(accepts, n) && !n.w.shortReady
    requires n.r.sent < E.AcceptBytes
    ensures n.w.writer.encoder.state.ControlReady? || n.w.writer.encoder.state.ControlStart?
    ensures n.w.sent <= E.ReadyBytes
  {
    hide RunFrom, WR.Stream, E.ReadyBytes, FS.ControlBytes, AllAccepted, RR.Good;
    var w := n.w.writer;
    PartOpening(accepts, FS.ACCEPT, n.w.received);
    NeverBack(accepts, w.decoder, w.input.data);
    assert !WR.Accepted(w.decoder);
    StreamOfReady(w.encoder.state, n.w.messages);
    assert n.w.sent <= n.w.sent + w.output.data;
  }

  lemma StreamOfReady(s: E.EncoderState, messages: seq<Bytes>)
    requires s.ControlReady? || s.ControlStart?
    ensures WR.Stream(true, s, messages) <= E.ReadyBytes
  {
  }

  /** The reader that has negotiated has taken all of READY. */
  lemma ReadyTaken(accepts: D.Accepts, n: Net)
    requires Linked(accepts, n) && n.r.reader.isBidirectional
    ensures E.ReadyBytes <= n.r.taken
    ensures n.r.reader.decoder.readySupport
  {
    hide RunFrom, FS.ControlBytes, AllAccepted, WT.Kept, RT.Conserved, R.Valid;
    var r := n.r.reader;
    StreamStarts(accepts, n);
    if |n.r.taken| < |E.ReadyBytes| {
      assert n.r.taken < E.ReadyBytes;
      PartOpening(accepts, FS.READY, n.r.taken);
      NeverBack(accepts, r.decoder, r.input.data);
    }
  }

  lemma StreamStarts(accepts: D.Accepts, n: Net)
    requires Linked(accepts, n)
    ensures |n.r.taken| <= |E.ReadyBytes| ==> n.r.taken <= E.ReadyBytes
    ensures |n.r.taken| >= |E.ReadyBytes| ==> E.ReadyBytes <= n.r.taken
  {
    hide RunFrom, E.ReadyBytes, E.StartBytes, E.StopBytes, FS.FramesBytes, WT.Heard, RT.Heard;
    var stream := WR.Stream(true, n.w.writer.encoder.state, n.w.messages);
    assert n.r.taken <= stream;
    assert stream == [] || E.ReadyBytes <= stream;
  }

  /** When ACCEPT is due, the reader holds nothing more: its peer has to wait for it. */
  lemma AcceptFindsNothing(accepts: D.Accepts, n: Net)
    requires Linked(accepts, n) && !n.w.shortReady
    requires n.r.reader.state.EncodingAccept? || n.r.reader.state.WritingAccept?
    ensures n.r.reader.input.data == []
  {
    hide RunFrom, E.ReadyBytes, FS.ControlBytes, AllAccepted, WT.Kept;
    var r := n.r.reader;
    assert n.r.sent < E.AcceptBytes by {
      E.ItemSizes();
    }
    NoStartYet(accepts, n);
    ReadyTaken(accepts, n);
    assert n.r.taken == E.ReadyBytes;
    OpeningRun(accepts, FS.READY);
    ReadyIsReady();
    NeverBack(accepts, r.decoder, r.input.data);
  }

  lemma ReadyIsReady()
    ensures E.ReadyBytes == FS.ControlBytes(FS.READY, [CONTENT_TYPE])
  {
  }

  /** A reader that asks for input holds nothing it could decode, and has room for more. */
  predicate ReaderSettled(accepts: D.Accepts, r: R.Reader) {
    R.ReadsInput(r.state) ==>
      && r.input.at + |r.input.data| < r.input.size
      && (r.input.data != [] ==> D.Decode(accepts, r.decoder, r.input.data).result == NeedMore)
  }

  lemma ReceiveSettles(accepts: D.Accepts, r: R.Reader, io: R.Transport)
    requires RR.Good(r) && R.TakesInput(r.state)
    ensures var o := R.Read(accepts, r, io); o.result != Error ==> ReaderSettled(accepts, o.reader)
  {
    hide D.Decode, RR.InStep;
    var n := R.PushCount(r, |io.canRead|);
    if !(R.ReadsInput(r.state) && n == 0) {
      var r' := r.(input := r.input.Fill(io.canRead[..n]));
      C.ActOrderly(r', D.Decode(accepts, r'.decoder, r'.input.data), R.Control(r.state), false);
      WaitingKeepsData(r', D.Decode(accepts, r'.decoder, r'.input.data), R.Control(r.state));
    }
  }

  lemma WaitingKeepsData(r: R.Reader, o: D.Decoded, control: bool)
    requires o.size <= |r.input.data|
    ensures var (result, r') := R.Act(r, o, control, false);
      result == NeedMore ==> o.result == NeedMore && r'.decoder == r.decoder && r'.input.data == r.input.data
  {
  }

  lemma EmitSettles(accepts: D.Accepts, r: R.Reader, io: R.Transport)
    requires RR.Good(r) && R.Writes(r.state)
    requires r.state.EncodingAccept? || r.state.WritingAccept? ==> r.input.data == []
    ensures var o := R.Read(accepts, r, io); o.result != Error ==> ReaderSettled(accepts, o.reader)
  {
    hide D.Decode, RR.InStep, BS.EncodeInto;
  }

  lemma DoneFails(accepts: D.Accepts, r: R.Reader, io: R.Transport)
    requires R.Valid(r) && r.state.Done?
    ensures R.Read(accepts, r, io).result == Error
  {
  }

  lemma ReaderMoveSettled(accepts: D.Accepts, n: Net, room: Positive, upTo: Positive)
    requires Linked(accepts, n) && !n.w.shortReady && ReaderSettled(accepts, n.r.reader)
    ensures ReaderSettled(accepts, ReaderMove(accepts, n, room, upTo).reader)
  {
    hide WT.Kept, AllAccepted, RR.InStep, R.Valid, RT.Conserved, RT.Heard, R.Read, InTransit, ReaderSettled;
    if !ReaderBlocks(n) && !n.r.failed {
      var io := R.Transport(room, Front(InTransit(n.w.sent, n.r.taken), upTo));
      var r := n.r.reader;
      if R.TakesInput(r.state) {
        ReceiveSettles(accepts, r, io);
      } else if R.Writes(r.state) {
        if r.state.EncodingAccept? || r.state.WritingAccept? {
          AcceptFindsNothing(accepts, n);
        }
        EmitSettles(accepts, r, io);
      } else {
        DoneFails(accepts, r, io);
      }
      RR.ReadGood(accepts, r, io);
    }
  }

  /** When FINISH is due, the writer holds nothing more: its peer has to wait for STOP. */
  predicate WriterClear(w: W.Writer) {
    w.state.WritingStop? || w.state.ReadingFinish? ==> w.input.data == []
  }

  /** STOP has not been encoded: then FINISH has not been sent. */
  lemma NoFinishYet(accepts: D.Accepts, n: Net)
    requires Linked(accepts, n) && !n.w.writer.encoder.state.Done?
    ensures n.w.received <= n.r.sent <= E.AcceptBytes
  {
    hide RunFrom, WR.Stream, WT.Kept, E.AcceptBytes, E.FinishBytes;
    if n.r.reader.decoder.state.Done? {
      AllDelivered(accepts, n);
    }
    assert n.r.sent <= n.r.sent + n.r.reader.output.data;
  }

  lemma NothingPending(accepts: D.Accepts, n: Net)
    requires Linked(accepts, n) && WR.Accepted(n.w.writer.decoder) && !n.w.writer.encoder.state.Done?
    ensures n.w.writer.input.data == []
  {
    hide RunFrom, WR.Stream, E.AcceptBytes, RR.Good, RT.Heard, RT.Conserved, FS.ControlBytes;
    var w := n.w.writer;
    NoFinishYet(accepts, n);
    AcceptTaken(accepts, n);
    AcceptIsAccept();
    OpeningRun(accepts, FS.ACCEPT);
    assert n.w.received == E.AcceptBytes;
    NeverBack(accepts, w.decoder, w.input.data);
  }

  lemma WriteClears(accepts: D.Accepts, w: W.Writer, io: W.Transport, sent: Bytes, messages: seq<Bytes>)
    requires WR.Good(w) && !w.state.EncodingReady? && WR.Ready(w, sent, messages)
    requires W.TakesInput(w.state) || w.input.data == []
    requires W.Write(accepts, w, io).result != Error
    ensures WriterClear(W.Write(accepts, w, io).writer)
  {
    hide D.Decode, WR.Stream, BS.EncodeInto, W.SendFrames, W.SendStop, W.SendRest, WR.InStep, WR.Carries;
    match w.state
    case Stopping => WR.SendRestGood(w, io.first, io.second, sent, messages);
    case EncodingStop => WR.SendStopGood(w, io.first, sent, messages);
    case WritingStop => WR.SendStopGood(w, io.first, sent, messages);
    case Encoding => WR.SendFramesGood(w, io.first, sent, messages);
    case Writing => WR.SendFramesGood(w, io.first, sent, messages);
    case _ =>
  }

  lemma WriterMoveClear(accepts: D.Accepts, n: Net, first: Positive, second: Positive, upTo: Positive)
    requires Linked(accepts, n) && !n.w.shortReady && WriterClear(n.w.writer)
    ensures WriterClear(WriterMove(accepts, n, first, second, upTo).writer)
  {
    hide W.Write, W.SendReady, WR.Stream, WT.Heard, RR.Good, RT.Heard, RT.Conserved, AllAccepted, WriterClear;
    var w := n.w.writer;
    if n.w.status.Running? && !WriterBlocks(n) {
      if w.state.EncodingReady? {
        WR.SendReadyGood(w, first, n.w.sent, n.w.messages);
        NotWaiting(W.SendReady(w, first).writer);
      } else {
        var io := W.Transport(first, second, Front(InTransit(n.r.sent, n.w.received), upTo));
        if W.Write(accepts, w, io).result != Error {
          SomethingToDo(accepts, w, io);
          ClearBefore(accepts, n);
          WriteClears(accepts, w, io, n.w.sent, n.w.messages);
        }
      }
    }
  }

  lemma NotWaiting(w: W.Writer)
    ensures w.state.Writing? || w.state.ReadingAccept? ==> WriterClear(w)
  {
  }

  lemma SomethingToDo(accepts: D.Accepts, w: W.Writer, io: W.Transport)
    requires WR.Good(w) && W.Write(accepts, w, io).result != Error
    ensures !w.state.Done? && (w.state.Encoding? ==> !w.encoder.state.Done?)
  {
    hide D.Decode;
  }

  lemma ClearBefore(accepts: D.Accepts, n: Net)
    requires Linked(accepts, n) && !n.w.shortReady && WriterClear(n.w.writer)
    requires !n.w.writer.state.EncodingReady? && !n.w.writer.state.Done?
    requires n.w.writer.state.Encoding? ==> !n.w.writer.encoder.state.Done?
    ensures W.TakesInput(n.w.writer.state) || n.w.writer.input.data == []
  {
    hide WR.Stream, WT.Heard, RR.Good, RT.Heard, RT.Conserved, AllAccepted;
    if !n.w.writer.encoder.state.Done? && !W.TakesInput(n.w.writer.state) {
      NothingPending(accepts, n);
    }
  }

  // ---- every run ----

  /** What holds of two parties in every reachable state. */
  ghost predicate Joined(accepts: D.Accepts, n: Net) {
    Linked(accepts, n) && (!n.w.shortReady ==> ReaderSettled(accepts, n.r.reader) && WriterClear(n.w.writer))
  }

  lemma StepJoined(accepts: D.Accepts, n: Net, move: Move)
    requires Joined(accepts, n) && Sendable(accepts, move)
    ensures Joined(accepts, Step(accepts, n, move))
    ensures n.w.shortReady ==> Step(accepts, n, move).w.shortReady
  {
    hide Linked, WriterMove, ReaderMove, ReaderSettled, WriterClear, WT.Perform, WT.Kept, RR.Good;
    LinkedParts(accepts, n);
    match move
    case WriterSets(m) => OtherMovesLinked(accepts, n, WT.CallSetDnstap(m));
    case WriterStops => OtherMovesLinked(accepts, n, WT.CallStop);
    case WriterCalls(first, second, upTo) =>
      WriterMoveLinked(accepts, n, first, second, upTo);
      ShortStays(accepts, n, first, second, upTo);
      if !n.w.shortReady {
        WriterMoveClear(accepts, n, first, second, upTo);
      }
    case ReaderCalls(room, upTo) =>
      ReaderMoveLinked(accepts, n, room, upTo);
      if !n.w.shortReady {
        ReaderMoveSettled(accepts, n, room, upTo);
      }
  }

  lemma LinkedParts(accepts: D.Accepts, n: Net)
    requires Linked(accepts, n)
    ensures WT.Kept(accepts, n.w) && n.w.writer.bidirectional && RR.Good(n.r.reader)
  {
  }

  lemma ShortStays(accepts: D.Accepts, n: Net, first: Positive, second: Positive, upTo: Positive)
    requires Linked(accepts, n)
    ensures n.w.shortReady ==> WriterMove(accepts, n, first, second, upTo).shortReady
  {
    hide WT.Kept, WR.InStep, W.Write, W.SendReady, RT.Heard, RR.Good;
  }

  /** Any number of moves, in any order. */
  function Moves(accepts: D.Accepts, n: Net, moves: seq<Move>): (n': Net)
    requires Joined(accepts, n) && forall m :: m in moves ==> Sendable(accepts, m)
    ensures Joined(accepts, n')
    decreases |moves|
  {
    if moves == [] then n
    else
      assert moves[0] in moves;
      StepJoined(accepts, n, moves[0]);
      Moves(accepts, Step(accepts, n, moves[0]), moves[1..])
  }

  /** Two fresh parties, nothing sent. */
  predicate FreshPair(w: W.Writer, r: R.Reader) {
    && WT.Fresh(w) && w.bidirectional && w.encoder.dnstap == []
    && RR.Good(r) && r.state.ReadingControl? && r.allowBidirectional && !r.isBidirectional
    && r.decoder == D.Fresh && r.input.data == []
  }

  /** What `init` and the two mode calls leave behind is such a pair, with any sizes. */
  lemma InitPair(size: nat, inc: nat, max: nat, outSize: nat, outInc: nat, outMax: nat)
    requires 0 < size <= max && 0 < inc && 0 < outSize <= outMax && 0 < outInc
    ensures FreshPair(W.Init(outSize, outInc, outMax, size, inc, max, true),
                      R.Init(size, inc, max, outSize, outInc, outMax, true))
    ensures var w := W.Init(outSize, outInc, outMax, size, inc, max, true);
      && (w.output.size, w.output.inc, w.output.max) == (outSize, outInc, outMax)
      && (w.input.size, w.input.inc, w.input.max) == (size, inc, max)
    ensures var r := R.Init(size, inc, max, outSize, outInc, outMax, true);
      && (r.input.size, r.input.inc, r.input.max) == (size, inc, max)
      && (r.output.size, r.output.inc, r.output.max) == (outSize, outInc, outMax)
  {
    RR.InitGood(size, inc, max, outSize, outInc, outMax, true);
    WR.InitGood(outSize, outInc, outMax, size, inc, max, true);
  }

  function Start(w: W.Writer, r: R.Reader): Net {
    Net(WT.Begin(w), RT.Begin(r))
  }

  lemma StartJoined(accepts: D.Accepts, w: W.Writer, r: R.Reader)
    requires FreshPair(w, r)
    ensures Joined(accepts, Start(w, r))
  {
    WT.BeginKept(accepts, w);
    BeforeNothing(RunFrom(L.Whole(accepts), D.Fresh, []));
  }

  /** The writer that has its ACCEPT has received all of it. */
  lemma AcceptTaken(accepts: D.Accepts, n: Net)
    requires Linked(accepts, n) && WR.Accepted(n.w.writer.decoder)
    ensures E.AcceptBytes <= n.w.received
  {
    hide RunFrom, E.AcceptBytes, E.FinishBytes, WR.Stream, AllAccepted, RR.Good;
    var w := n.w.writer;
    AnswerPrefix(n);
    if |n.w.received| < |E.AcceptBytes| {
      assert n.w.received < E.AcceptBytes;
      AcceptIsAccept();
      PartOpening(accepts, FS.ACCEPT, n.w.received);
      NeverBack(accepts, w.decoder, w.input.data);
    }
  }

  lemma AcceptIsAccept()
    ensures E.AcceptBytes == FS.ControlBytes(FS.ACCEPT, [CONTENT_TYPE])
  {
  }

  lemma AnswerPrefix(n: Net)
    requires RT.Conserved(n.r) && n.w.received <= n.r.sent
    ensures n.r.sent <= E.AcceptBytes + E.FinishBytes
    ensures |n.w.received| <= |E.AcceptBytes| ==> n.w.received <= E.AcceptBytes
    ensures |n.w.received| >= |E.AcceptBytes| ==> E.AcceptBytes <= n.w.received
  {
    hide E.AcceptBytes, E.FinishBytes;
    var s := n.r.reader.encoder.state;
    var answer := RT.AnswerSoFar(s);
    var whole := E.AcceptBytes + E.FinishBytes;
    assert answer <= whole;
    assert n.r.sent <= n.r.sent + n.r.reader.output.data == answer;
    assert n.w.received <= whole;
  }

  /**
   Handshake safety.  In every reachable state: the channels are FIFO and carry prefixes of
   READY START frames STOP and of ACCEPT FINISH; no byte of ACCEPT has left before the
   reader has read all of READY with a matching type, and none of FINISH before it has read
   STOP.  If READY never left in part, no byte of START has left before the writer has
   received all of ACCEPT and checked it.
   */
  lemma HandshakeSafety(accepts: D.Accepts, w: W.Writer, r: R.Reader, moves: seq<Move>)
    requires FreshPair(w, r) && forall m :: m in moves ==> Sendable(accepts, m)
    ensures Joined(accepts, Start(w, r))
    ensures var n := Moves(accepts, Start(w, r), moves);
      && n.r.taken <= n.w.sent <= WT.Session(true, n.w.messages)
      && n.w.received <= n.r.sent <= E.AcceptBytes + E.FinishBytes
      && (n.r.sent != [] ==> E.ReadyBytes <= n.r.taken && n.r.reader.decoder.readySupport)
      && (|n.r.sent| > |E.AcceptBytes| ==> n.r.reader.decoder.state.Done? && n.r.messages == n.w.messages)
      && (!n.w.shortReady && |n.w.sent| > |E.ReadyBytes| ==>
            WR.Accepted(n.w.writer.decoder) && E.AcceptBytes <= n.w.received)
  {
    hide Moves, Linked;
    StartJoined(accepts, w, r);
    var n := Moves(accepts, Start(w, r), moves);
    SafeState(accepts, n);
  }

  lemma SafeState(accepts: D.Accepts, n: Net)
    requires Linked(accepts, n)
    ensures
      && n.r.taken <= n.w.sent <= WT.Session(true, n.w.messages)
      && n.w.received <= n.r.sent <= E.AcceptBytes + E.FinishBytes
      && (n.r.sent != [] ==> E.ReadyBytes <= n.r.taken && n.r.reader.decoder.readySupport)
      && (|n.r.sent| > |E.AcceptBytes| ==> n.r.reader.decoder.state.Done? && n.r.messages == n.w.messages)
      && (!n.w.shortReady && |n.w.sent| > |E.ReadyBytes| ==>
            WR.Accepted(n.w.writer.decoder) && E.AcceptBytes <= n.w.received)
  {
    hide RunFrom, E.ReadyBytes, E.AcceptBytes, E.FinishBytes, WR.Stream, AllAccepted, WT.Heard, RT.Heard, R.Valid, W.Valid;
    var w, r := n.w.writer, n.r.reader;
    WT.StreamPrefix(true, w.encoder.state, n.w.messages);
    assert n.w.sent <= n.w.sent + w.output.data;
    AnswerPrefix(n);
    assert n.r.sent <= n.r.sent + r.output.data;
    if n.r.sent != [] {
      ReadyTaken(accepts, n);
    }
    if |n.r.sent| > |E.AcceptBytes| {
      AllDelivered(accepts, n);
    }
    if !n.w.shortReady && |n.w.sent| > |E.ReadyBytes| {
      PastReady(w.encoder.state, n.w.messages);
      AcceptTaken(accepts, n);
    }
  }

  lemma PastReady(s: E.EncoderState, messages: seq<Bytes>)
    ensures s.ControlReady? || s.ControlStart? ==> |WR.Stream(true, s, messages)| <= |E.ReadyBytes|
  {
  }

  /** A reader that has read STOP has delivered everything its peer ever encoded. */
  lemma AllDelivered(accepts: D.Accepts, n: Net)
    requires Linked(accepts, n) && n.r.reader.decoder.state.Done?
    ensures n.r.messages == n.w.messages && n.w.writer.encoder.state.Done?
  {
    hide RunFrom, WR.Stream, WT.Heard, RR.Good, WT.Waits;
    var env := L.Whole(accepts);
    var s := n.w.writer.encoder.state;
    var stream := WR.Stream(true, s, n.w.messages);
    assert n.r.taken <= n.w.sent + n.w.writer.output.data == stream;
    RunSplits(env, D.Fresh, n.r.taken, stream[|n.r.taken|..]);
    assert n.r.taken + stream[|n.r.taken|..] == stream;
    StreamCaughtUp(accepts, s, n.w.messages);
    assert n.r.messages + [] == n.r.messages;
  }

  /**
   A completed session loses nothing: when the writer is done, the reader has read STOP and
   has delivered every message the writer reported, in order, whatever was short or split.
   */
  lemma NothingLost(accepts: D.Accepts, w: W.Writer, r: R.Reader, moves: seq<Move>)
    requires FreshPair(w, r) && forall m :: m in moves ==> Sendable(accepts, m)
    ensures Joined(accepts, Start(w, r))
    ensures var n := Moves(accepts, Start(w, r), moves);
      n.w.writer.state.Done? ==>
        n.r.messages == n.w.messages && n.w.sent == WT.Session(true, n.w.messages) && n.r.reader.decoder.state.Done?
  {
    hide Moves, Linked;
    StartJoined(accepts, w, r);
    var n := Moves(accepts, Start(w, r), moves);
    if n.w.writer.state.Done? {
      DoneMeansDelivered(accepts, n);
    }
  }

  lemma DoneMeansDelivered(accepts: D.Accepts, n: Net)
    requires Linked(accepts, n) && n.w.writer.state.Done?
    ensures n.r.messages == n.w.messages && n.w.sent == WT.Session(true, n.w.messages)
    ensures n.r.reader.decoder.state.Done?
  {
    hide RunFrom, WR.Stream, E.AcceptBytes, E.FinishBytes, AllAccepted, RT.Heard;
    assert n.w.writer.output.data == [];
    assert n.w.sent + [] == n.w.sent;
    EndMeansFinish(accepts, n);
    AllDelivered(accepts, n);
  }

  /** FINISH is only ever read after it was sent, and only sent after STOP was read. */
  lemma EndMeansFinish(accepts: D.Accepts, n: Net)
    requires Linked(accepts, n) && n.w.writer.state.Done?
    ensures n.r.reader.decoder.state.Done?
  {
    hide RunFrom, WR.Stream, E.AcceptBytes, E.FinishBytes, AllAccepted, RT.Heard, FS.ControlBytes;
    var env := L.Whole(accepts);
    var r := n.r.reader;
    var answer := RT.AnswerSoFar(r.encoder.state);
    assert n.w.received <= n.r.sent + r.output.data == answer;
    RunSplits(env, D.Fresh, n.w.received, answer[|n.w.received|..]);
    assert n.w.received + answer[|n.w.received|..] == answer;
    M.NothingRun(env, D.Fresh);
    AcceptIsAccept();
    OpeningRun(accepts, FS.ACCEPT);
    assert r.encoder.state.Done?;
  }

  /**
   Deadlock freedom.  If READY never left in part, there is no reachable state in which both
   parties wait for input and neither channel has any.
   */
  lemma NoDeadlock(accepts: D.Accepts, w: W.Writer, r: R.Reader, moves: seq<Move>)
    requires FreshPair(w, r) && forall m :: m in moves ==> Sendable(accepts, m)
    ensures Joined(accepts, Start(w, r))
    ensures var n := Moves(accepts, Start(w, r), moves);
      !n.w.shortReady ==> !(WriterBlocks(n) && ReaderBlocks(n))
  {
    hide Moves, Linked, ReaderSettled;
    StartJoined(accepts, w, r);
    var n := Moves(accepts, Start(w, r), moves);
    if !n.w.shortReady {
      NotBothBlocked(accepts, n);
    }
  }

  lemma NotBothBlocked(accepts: D.Accepts, n: Net)
    requires Joined(accepts, n) && !n.w.shortReady
    ensures !(WriterBlocks(n) && ReaderBlocks(n))
  {
    hide RunFrom, WR.Stream, E.ReadyBytes, E.AcceptBytes, E.FinishBytes, AllAccepted, FS.ControlBytes;
    if WriterBlocks(n) && ReaderBlocks(n) {
      assert n.r.taken == n.w.sent && n.w.received == n.r.sent;
      AllTakenMeansAtMirror(accepts, n);
      OnlyReadySent(accepts, n);
      AcceptNotWhole(accepts, n);
    }
  }

  /** A settled reader that has taken all there is stands where the writer's encoder stands. */
  lemma AllTakenMeansAtMirror(accepts: D.Accepts, n: Net)
    requires Linked(accepts, n) && ReaderSettled(accepts, n.r.reader)
    requires n.r.taken == n.w.sent && n.w.writer.output.data == [] && R.ReadsInput(n.r.reader.state)
    ensures !n.w.writer.encoder.state.Done?
    ensures n.r.reader.input.data == [] && M.Mirrors(n.r.reader.decoder, n.w.writer.encoder.state)
  {
    hide WR.Stream, WT.Heard, D.Decode;
    var r := n.r.reader;
    assert n.w.sent + [] == n.w.sent;
    StreamCaughtUp(accepts, n.w.writer.encoder.state, n.w.messages);
    WaitingRun(accepts, r.decoder, r.input.data);
  }

  lemma WaitingRun(accepts: D.Accepts, d: D.Decoder, s: Bytes)
    requires s != [] ==> D.Decode(accepts, d, s).result == NeedMore
    ensures RunFrom(L.Whole(accepts), d, s) == Run([], Waiting(d, s))
  {
    hide D.Decode;
    assert Window(Unlimited, s) == s;
  }

  /** A reader that waits after READY has answered. */
  lemma OnlyReadySent(accepts: D.Accepts, n: Net)
    requires Linked(accepts, n)
    requires n.w.writer.encoder.state.ControlStart? && n.w.writer.output.data == [] && n.r.taken == n.w.sent
    requires R.ReadsInput(n.r.reader.state) && n.r.reader.input.data == []
    ensures n.r.sent == E.AcceptBytes
  {
    hide RunFrom, E.ReadyBytes, E.AcceptBytes, E.FinishBytes, FS.ControlBytes, AllAccepted, WT.Heard;
    var r := n.r.reader;
    assert n.w.sent + [] == n.w.sent;
    ReadyIsReady();
    OpeningRun(accepts, FS.READY);
    M.NothingRun(L.Whole(accepts), r.decoder);
    assert n.r.sent + [] == n.r.sent;
  }

  /** A writer that waits for ACCEPT has not received just that. */
  lemma AcceptNotWhole(accepts: D.Accepts, n: Net)
    requires Linked(accepts, n)
    requires n.w.writer.encoder.state.ControlStart? && n.w.writer.state.ReadingAccept?
    ensures n.w.received != E.AcceptBytes
  {
    hide E.AcceptBytes, FS.ControlBytes, AllAccepted, RT.Heard, WR.Stream, D.Decode;
    var w := n.w.writer;
    AcceptIsAccept();
    OpeningRun(accepts, FS.ACCEPT);
    WaitingRun(accepts, w.decoder, w.input.data);
  }
}
