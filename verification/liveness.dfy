/**
 Sessions of two parties come to their end.  A measure falls on every call of a party that
 has something to do, one of them always has, and what is left at last is FINISH, in full.
 */
module Liveness {
  import opened Wire
  import opened Results
  import opened Streams
  import opened Handshake
  import opened Failures
  import opened Prospects
  import opened WriterSends
  import BS = BufferSpec
  import C = Chunking
  import CO = Completion
  import D = DecoderSpec
  import E = EncoderSpec
  import FS = FrameStreams
  import L = Language
  import M = Mirror
  import R = ReaderSpec
  import RR = ReaderRuns
  import RT = ReaderTrace
  import W = WriterSpec
  import WR = WriterRuns
  import WT = WriterTrace

  // ---- the measure ----

  /** Bytes the writer has still to send, `todo` being messages it has not been given. */
  function Unsent(n: Net, todo: seq<E.Message>): int {
    |WT.Session(true, n.w.messages + todo)| - |n.w.sent|
  }

  /** Bytes of ACCEPT FINISH the writer has still to receive. */
  function Unheard(n: Net): int {
    54 - |n.w.received|
  }

  /** What the writer has still to decode. */
  function Undecoded(n: Net): nat {
    2 * |n.w.writer.input.data| + if n.w.writer.state.DecodingAccept? then 1 else 0
  }

  function ReaderMeasure(n: Net): C.Measure {
    C.MeasureOf(n.r.reader, |InTransit(n.w.sent, n.r.taken)|)
  }

  /** The writer's part of the measure is lower. */
  predicate WriterLower(n': Net, todo': seq<E.Message>, n: Net, todo: seq<E.Message>) {
    || Unsent(n', todo') < Unsent(n, todo)
    || (Unsent(n', todo') == Unsent(n, todo) &&
        (Unheard(n') < Unheard(n) || (Unheard(n') == Unheard(n) && Undecoded(n') < Undecoded(n))))
  }

  // ---- the reader ----

  lemma ActFalls(r: R.Reader, o: D.Decoded, control: bool, k: nat)
    requires r.input.Valid() && r.input.data != [] && D.Plausible(o, |r.input.data|)
    requires r.state == if control then R.DecodingControl else R.Decoding
    ensures var (result, r') := R.Act(r, o, control, false);
      result != Error ==> C.Less(C.MeasureOf(r', k), C.MeasureOf(r, k))
  {
  }

  lemma EmitFalls(r: R.Reader, room: Positive, k: nat)
    requires RR.Good(r) && R.Writes(r.state) && R.Encode(r).0 != Error
    ensures var r1 := R.Encode(r).1; var o := R.Emit(r1, room, r1.state.WritingAccept?);
      o.taken == 0 && C.Less(C.MeasureOf(o.reader, k), C.MeasureOf(r, k))
  {
    hide BS.EncodeInto, RR.InStep;
    RR.EncodeValid(r);
  }

  /** Every read that goes through takes bytes, decodes, makes room, or hands out bytes. */
  lemma ReadFalls(accepts: D.Accepts, r: R.Reader, io: R.Transport, k: nat)
    requires RR.Good(r) && R.Read(accepts, r, io).result != Error
    ensures var o := R.Read(accepts, r, io);
      C.Less(C.MeasureOf(o.reader, k), C.MeasureOf(r, k + o.taken))
  {
    hide D.Decode, RR.InStep, R.Act, R.Encode, R.Emit;
    if R.TakesInput(r.state) {
      var n := R.PushCount(r, |io.canRead|);
      if n == 0 {
        assert io.canRead[..0] == [] && r.input.data + [] == r.input.data;
        ActFalls(r, D.Decode(accepts, r.decoder, r.input.data), R.Control(r.state), k);
      }
    } else if R.Writes(r.state) {
      EmitFalls(r, io.canWrite, k);
    }
  }

  // ---- a session that goes well ----

  /** No FINISH has come in parts, and STOP is the last thing encoded. */
  predicate Smooth(w: W.Writer) {
    && CO.Steady(w) && !w.state.DecodingFinish?
    && (w.state.ReadingAccept? || w.state.DecodingAccept? ==> w.encoder.state.ControlStart?)
  }

  /** Until it has negotiated, a reader has not got past READY. */
  predicate Negotiates(t: RT.Trace) {
    && (!t.reader.isBidirectional ==> t.reader.decoder.state.ReadingControl? || t.reader.decoder.state.CheckingReady?)
    && (t.reader.decoder.state.ReadingControl? ==> t.reader.decoder == D.Fresh && t.reader.input.data == t.taken)
  }

  /** Two parties under way, `todo` being still to be written. */
  ghost predicate Playing(accepts: D.Accepts, n: Net, todo: seq<E.Message>) {
    && Joined(accepts, n) && Informed(accepts, n) && Ample(accepts, n, todo) && Negotiates(n.r)
    && !n.w.shortReady && n.w.status.Running? && !n.r.failed
    && !n.w.writer.state.Done? && Smooth(n.w.writer)
    && (todo != [] ==> !CO.Over(n.w.writer.encoder.state))
  }

  lemma ReaderGoesOn(accepts: D.Accepts, n: Net, todo: seq<E.Message>, room: Positive, upTo: Positive)
    requires Playing(accepts, n, todo) && !n.r.reader.state.Done?
    ensures !ReaderMove(accepts, n, room, upTo).failed
  {
    hide Linked, ReaderSettled, Informed, Ample, R.Read, RR.InStep, InTransit, OutOfSpace, Smooth;
    LinkedParts(accepts, n);
    var r := n.r.reader;
    var k := R.PushCount(r, upTo);
    var more := Front(InTransit(n.w.sent, n.r.taken), k);
    ReaderFailure(accepts, n, room, upTo);
    LinkedTaken(accepts, n);
    TakenFromChannel(n.w.sent, n.r.taken, k, |more|);
    assert more[..|more|] == more;
    ReaderHasSpace(accepts, n, todo, more);
  }

  /** The first item that comes is READY's header. */
  lemma ReadyFirst(accepts: D.Accepts, n: Net, held: Bytes)
    requires Linked(accepts, n) && held <= n.w.sent && held != []
    ensures var o := D.Decode(accepts, D.Fresh, held);
      o.result == NeedMore || (o.result == Again && o.decoder.state.CheckingReady?)
  {
    hide RunFrom, RR.Good, AllAccepted, RT.Conserved, RT.Heard, WT.Heard, FS.Header, FS.FieldBytes, FS.Read, FS.FramesBytes;
    if |held| >= 12 {
      var rest := held[12..];
      OneField(FS.READY);
      StreamOfSent(accepts, n, held);
      assert held == FS.Header(FS.READY, 30) + rest;
      FS.ReadHeader(FS.Fresh, FS.READY, 30, rest);
    } else {
      ShortControl(held);
    }
  }

  lemma ShortControl(s: Bytes)
    requires |s| < 12
    ensures FS.Read(FS.Fresh, s).NeedMore?
  {
  }

  lemma StreamOfSent(accepts: D.Accepts, n: Net, held: Bytes)
    requires Linked(accepts, n) && held <= n.w.sent && |held| >= 12
    ensures held[..12] == E.ReadyBytes[..12] && |E.ReadyBytes| == 42
  {
    hide RunFrom, RR.Good, AllAccepted, RT.Conserved, RT.Heard, WT.Heard, FS.ControlBytes, FS.FramesBytes;
    E.ItemSizes();
    var stream := WR.Stream(true, n.w.writer.encoder.state, n.w.messages);
    assert held <= n.w.sent + n.w.writer.output.data == stream;
    assert stream == [] || E.ReadyBytes <= stream;
  }

  lemma ActNegotiates(r: R.Reader, o: D.Decoded, control: bool)
    requires o.size <= |r.input.data| && D.Follows(r.decoder, o)
    requires !r.isBidirectional ==> r.decoder.state.ReadingControl? || r.decoder.state.CheckingReady?
    requires r.decoder.state.ReadingControl? ==>
      o.result == NeedMore || (o.result == Again && o.decoder.state.CheckingReady?)
    ensures var (result, r') := R.Act(r, o, control, false);
      result != Error ==>
        && (!r'.isBidirectional ==> r'.decoder.state.ReadingControl? || r'.decoder.state.CheckingReady?)
        && (r'.decoder.state.ReadingControl? ==> r'.decoder == r.decoder && r'.input.data == r.input.data)
  {
  }

  lemma ReadNegotiates(accepts: D.Accepts, n: Net, io: R.Transport)
    requires Linked(accepts, n) && Negotiates(n.r) && R.Read(accepts, n.r.reader, io).result != Error
    requires var o := R.Read(accepts, n.r.reader, io);
      o.taken <= |io.canRead| && n.r.taken + io.canRead[..o.taken] <= n.w.sent
    ensures var o := R.Read(accepts, n.r.reader, io); var r' := o.reader;
      && (!r'.isBidirectional ==> r'.decoder.state.ReadingControl? || r'.decoder.state.CheckingReady?)
      && (r'.decoder.state.ReadingControl? ==>
            r'.decoder == D.Fresh && r'.input.data == n.r.taken + io.canRead[..o.taken])
  {
    hide D.Decode, R.Act, RR.InStep, WT.Kept, AllAccepted, RT.Conserved, RT.Heard, BS.EncodeInto;
    var r := n.r.reader;
    assert n.r.taken + [] == n.r.taken;
    if R.TakesInput(r.state) {
      var k := R.PushCount(r, |io.canRead|);
      var held := r.input.data + io.canRead[..k];
      D.DecodeFollows(accepts, r.decoder, held);
      if r.decoder.state.ReadingControl? {
        ReadyFirst(accepts, n, held);
      }
      ActNegotiates(r.(input := r.input.Fill(io.canRead[..k])), D.Decode(accepts, r.decoder, held), R.Control(r.state));
    }
  }

  lemma ReaderMoveNegotiates(accepts: D.Accepts, n: Net, room: Positive, upTo: Positive)
    requires Joined(accepts, n) && Negotiates(n.r) && !n.r.failed
    requires !ReaderMove(accepts, n, room, upTo).failed
    ensures Negotiates(ReaderMove(accepts, n, room, upTo))
  {
    hide Linked, ReaderSettled, R.Read, RR.Good, InTransit, Front, RT.Perform;
    LinkedParts(accepts, n);
    LinkedTaken(accepts, n);
    if !ReaderBlocks(n) {
      var io := R.Transport(room, Front(InTransit(n.w.sent, n.r.taken), upTo));
      ReadPerformed(accepts, n.r, io);
      TakenFromChannel(n.w.sent, n.r.taken, upTo, R.Read(accepts, n.r.reader, io).taken);
      ReadNegotiates(accepts, n, io);
    }
  }

  /** A reader that has input, or an answer to write, gets on with it. */
  lemma ReaderTurn(accepts: D.Accepts, n: Net, todo: seq<E.Message>, room: Positive, upTo: Positive)
    requires Playing(accepts, n, todo) && !n.r.reader.state.Done? && !ReaderBlocks(n)
    ensures var n' := Handshake.Step(accepts, n, ReaderCalls(room, upTo));
      && Playing(accepts, n', todo) && n'.w == n.w
      && C.Less(ReaderMeasure(n'), ReaderMeasure(n))
  {
    hide Linked, ReaderSettled, R.Read, RR.InStep, InTransit, Smooth, Informed, FramesFit, WriterClear;
    StepInformed(accepts, n, ReaderCalls(room, upTo));
    ReaderGoesOn(accepts, n, todo, room, upTo);
    LinkedParts(accepts, n);
    ReaderMoveFalls(accepts, n, room, upTo);
    ReaderMoveNegotiates(accepts, n, room, upTo);
  }

  lemma ReadPerformed(accepts: D.Accepts, t: RT.Trace, io: R.Transport)
    requires RR.Good(t.reader) && !t.failed
    ensures var o := R.Read(accepts, t.reader, io); var t' := RT.Perform(accepts, t, RT.CallRead(io));
      if o.result == Error then t'.failed
      else o.taken <= |io.canRead| && t'.reader == o.reader && t'.taken == t.taken + io.canRead[..o.taken]
  {
    hide R.Read, RR.Good;
    RR.ReadGood(accepts, t.reader, io);
  }

  lemma TransitFalls(sent: Bytes, taken: Bytes, n: nat, k: nat)
    requires taken <= sent && k <= |Front(InTransit(sent, taken), n)|
    ensures var taken' := taken + Front(InTransit(sent, taken), n)[..k];
      |InTransit(sent, taken')| + k == |InTransit(sent, taken)|
  {
    TakenFromChannel(sent, taken, n, k);
  }

  lemma ReaderMoveFalls(accepts: D.Accepts, n: Net, room: Positive, upTo: Positive)
    requires Joined(accepts, n) && !n.r.failed && !ReaderBlocks(n)
    requires !ReaderMove(accepts, n, room, upTo).failed
    ensures C.Less(ReaderMeasure(n.(r := ReaderMove(accepts, n, room, upTo))), ReaderMeasure(n))
  {
    hide Linked, ReaderSettled, WriterClear, R.Read, RR.Good, WT.Kept, C.MeasureOf, C.Less, InTransit, Front, RT.Perform;
    LinkedParts(accepts, n);
    LinkedTaken(accepts, n);
    var io := R.Transport(room, Front(InTransit(n.w.sent, n.r.taken), upTo));
    var o := R.Read(accepts, n.r.reader, io);
    ReadPerformed(accepts, n.r, io);
    if o.result != Error {
      TransitFalls(n.w.sent, n.r.taken, upTo, o.taken);
      ReadFalls(accepts, n.r.reader, io, |InTransit(n.w.sent, n.r.taken)| - o.taken);
    }
  }

  // ---- the writer ----

  /** The caller has set the next message, or called stop. */
  predicate Prepared(w: W.Writer, todo: seq<E.Message>) {
    && (todo != [] ==> w.encoder.dnstap == todo[0])
    && (todo == [] ==> !w.encoder.state.Frames?)
  }

  function Preparing(todo: seq<E.Message>): Move {
    if todo == [] then WriterStops else WriterSets(todo[0])
  }

  /** That changes neither the measure nor whose turn it is. */
  lemma PrepareTurn(accepts: D.Accepts, n: Net, todo: seq<E.Message>)
    requires Playing(accepts, n, todo)
    ensures Sendable(accepts, Preparing(todo))
    ensures var n' := Handshake.Step(accepts, n, Preparing(todo));
      && Playing(accepts, n', todo) && Prepared(n'.w.writer, todo)
      && n'.r == n.r && n'.w.sent == n.w.sent && n'.w.received == n.w.received && n'.w.messages == n.w.messages
      && n'.w.writer.input == n.w.writer.input
      && (n'.w.writer.state == n.w.writer.state || (n'.w.writer.state.Stopping? && n.w.writer.encoder.state.Frames?))
      && (n.w.writer.encoder.state.Frames? ==> !W.ReadsInput(n.w.writer.state) && !n.w.writer.state.DecodingAccept?)
  {
    hide Linked, ReaderSettled, Informed;
    NextSendable(accepts, n, todo);
    StepInformed(accepts, n, Preparing(todo));
    LinkedParts(accepts, n);
    Prepares(accepts, n.w, todo);
  }

  lemma NextSendable(accepts: D.Accepts, n: Net, todo: seq<E.Message>)
    requires Ample(accepts, n, todo)
    ensures todo != [] ==> accepts(todo[0]) && 4 + |todo[0]| <= n.w.writer.output.max
  {
    if todo != [] {
      assert todo[0] == (n.w.messages + todo)[|n.w.messages|];
      assert todo[0] in n.w.messages + todo;
    }
  }

  lemma Prepares(accepts: D.Accepts, t: WT.Trace, todo: seq<E.Message>)
    requires WT.Kept(accepts, t) && t.status.Running? && t.writer.bidirectional && Smooth(t.writer)
    requires !t.writer.state.Done?
    requires todo != [] ==> !CO.Over(t.writer.encoder.state)
    ensures var t' := WT.Perform(accepts, t, if todo == [] then WT.CallStop else WT.CallSetDnstap(todo[0]));
      && t' == t.(writer := t'.writer, stops := t'.stops)
      && Prepared(t'.writer, todo) && Smooth(t'.writer) && !t'.writer.state.Done?
      && (todo != [] ==> !CO.Over(t'.writer.encoder.state))
      && t'.writer.input == t.writer.input
      && (t'.writer.state == t.writer.state || (t'.writer.state.Stopping? && t.writer.encoder.state.Frames?))
      && (t.writer.encoder.state.Frames? ==> !W.ReadsInput(t.writer.state) && !t.writer.state.DecodingAccept?)
  {
    hide WT.Heard, WR.Stream;
  }

  /** What a call of the writer has to come to. */
  predicate Advanced(n: Net, todo: seq<E.Message>, t: WT.Trace) {
    var n' := n.(w := t); var todo' := CO.Later(n.w, t, todo);
    && t.status.Running? && !t.shortReady && !t.writer.state.Done? && Smooth(t.writer)
    && t.messages + todo' == n.w.messages + todo
    && (todo' != [] ==> !CO.Over(t.writer.encoder.state))
    && WriterLower(n', todo', n, todo)
  }

  lemma WriterGoesOn(
      accepts: D.Accepts, n: Net, todo: seq<E.Message>, first: Positive, second: Positive, upTo: Positive)
    requires Playing(accepts, n, todo) && Prepared(n.w.writer, todo) && !n.w.writer.state.ReadingFinish?
    ensures !WriterMove(accepts, n, first, second, upTo).status.Failed?
  {
    hide Linked, ReaderSettled, Informed, InTransit, CannotEncode, CannotHold, FinishForAccept, WR.InStep, FramesFit;
    LinkedParts(accepts, n);
    WT.KeptGood(accepts, n.w);
    var w := n.w.writer;
    var k := W.ReadCount(w, upTo);
    var more := Front(InTransit(n.r.sent, n.w.received), k);
    WriterFailure(accepts, n, first, second, upTo);
    LinkedTaken(accepts, n);
    TakenFromChannel(n.r.sent, n.w.received, k, |more|);
    assert more[..|more|] == more;
    WriterHasSpace(accepts, n, todo, more);
    Encodable(accepts, n, todo, first);
    NoFinishForAccept(accepts, n, more);
  }

  lemma Encodable(accepts: D.Accepts, n: Net, todo: seq<E.Message>, first: nat)
    requires Ample(accepts, n, todo) && WR.Good(n.w.writer) && n.w.writer.bidirectional
    requires Smooth(n.w.writer) && Prepared(n.w.writer, todo)
    ensures !CannotEncode(n.w.writer, first)
  {
    E.ItemSizes();
    NextSendable(accepts, n, todo);
  }

  lemma NoFinishForAccept(accepts: D.Accepts, n: Net, more: Bytes)
    requires Linked(accepts, n) && Smooth(n.w.writer) && !n.w.writer.state.Done?
    requires n.w.received + more <= n.r.sent
    ensures !FinishForAccept(accepts, n.w.writer, more)
  {
    hide D.Decode, RR.Good, RT.Heard, RT.Conserved, AllAccepted, WR.Stream, WT.Heard;
    var w := n.w.writer;
    if (w.state.ReadingAccept? || w.state.DecodingAccept?) && w.input.data + more != [] {
      AcceptComes(accepts, n, more);
    }
  }

  lemma SentLower(n: Net, todo: seq<E.Message>, t: WT.Trace, todo': seq<E.Message>)
    requires |n.w.sent| < |t.sent| && t.messages + todo' == n.w.messages + todo
    ensures WriterLower(n.(w := t), todo', n, todo)
  {
    hide WT.Session;
  }

  lemma ReadyTurn(accepts: D.Accepts, n: Net, todo: seq<E.Message>, first: Positive, second: Positive, upTo: Positive)
    requires Playing(accepts, n, todo) && n.w.writer.state.EncodingReady? && 42 <= first
    requires !WriterMove(accepts, n, first, second, upTo).status.Failed?
    ensures Advanced(n, todo, WriterMove(accepts, n, first, second, upTo))
  {
    hide Linked, ReaderSettled, Informed, InTransit, W.SendReady, WR.InStep, Ample, WR.Stream, WriterLower, FS.ControlBytes,
      WriterClear, WT.Kept, FS.FramesBytes, RR.Good, W.Write;
    LinkedParts(accepts, n);
    WT.KeptGood(accepts, n.w);
    E.ItemSizes();
    var w := n.w.writer;
    ReadyFails(w, first);
    WR.SendReadyGood(w, first, n.w.sent, n.w.messages);
    var t := WriterMove(accepts, n, first, second, upTo);
    assert n.w.messages + [] == n.w.messages;
    SentLower(n, todo, t, CO.Later(n.w, t, todo));
  }

  lemma SendTurn(accepts: D.Accepts, n: Net, todo: seq<E.Message>, first: Positive, second: Positive, upTo: Positive)
    requires Playing(accepts, n, todo) && Prepared(n.w.writer, todo)
    requires !n.w.writer.state.EncodingReady? && !W.TakesInput(n.w.writer.state)
    requires !WriterMove(accepts, n, first, second, upTo).status.Failed?
    ensures Advanced(n, todo, WriterMove(accepts, n, first, second, upTo))
  {
    hide Linked, ReaderSettled, Informed, InTransit, W.Write, WR.InStep, Ample, WR.Stream, WriterLower, WT.Kept, CannotEncode,
      WriterClear, W.Valid;
    LinkedParts(accepts, n);
    WT.KeptGood(accepts, n.w);
    var w := n.w.writer;
    var io := W.Transport(first, second, Front(InTransit(n.r.sent, n.w.received), upTo));
    SendFails(accepts, w, io);
    CO.WriteReports(accepts, n.w, io);
    CO.Performed(accepts, n.w, io);
    CallMode(accepts, n.w, io);
    var t := WriterMove(accepts, n, first, second, upTo);
    assert n.w.messages + [] == n.w.messages;
    if W.Write(accepts, w, io).result == Ok {
      assert n.w.messages + [todo[0]] + todo[1..] == n.w.messages + todo;
    }
    SentLower(n, todo, t, CO.Later(n.w, t, todo));
  }

  /** Only the call that encodes READY can leave it short. */
  lemma CallMode(accepts: D.Accepts, t: WT.Trace, io: W.Transport)
    requires WT.Kept(accepts, t) && !t.writer.state.EncodingReady?
    ensures WT.Perform(accepts, t, WT.CallWrite(io)).shortReady == t.shortReady
  {
    hide W.Write, WT.Kept;
    WT.KeptGood(accepts, t);
    if t.status.Running? && W.Write(accepts, t.writer, io).result != Error {
      WT.WriteKept(accepts, t, io);
    }
  }

  /** A call that waits for ACCEPT takes bytes, or decodes some of what is held. */
  lemma ReceiveFalls(accepts: D.Accepts, w: W.Writer, input: Bytes)
    requires WR.Good(w) && Smooth(w) && (w.state.ReadingAccept? || w.state.DecodingAccept?)
    requires W.ReceiveSome(accepts, w, input).result != Error
    requires var held := w.input.data + input[..W.ReadCount(w, |input|)];
      held != [] ==> D.Decode(accepts, w.decoder, held).result != EndOfData
    ensures var o := W.ReceiveSome(accepts, w, input); var w' := o.writer;
      && o.taken <= |input| && o.sent == [] && o.result != Ok
      && !w'.state.Done? && Smooth(w') && w'.encoder == w.encoder
      && (0 < o.taken
          || 2 * |w'.input.data| + (if w'.state.DecodingAccept? then 1 else 0)
             < 2 * |w.input.data| + (if w.state.DecodingAccept? then 1 else 0))
  {
    hide D.Decode;
    var k := W.ReadCount(w, |input|);
    if !(W.ReadsInput(w.state) && k == 0) {
      var held := w.input.data + input[..k];
      assert k == 0 ==> input[..k] == [] && held == w.input.data;
      AcceptFalls(w.(input := w.input.Fill(input[..k])), D.Decode(accepts, w.decoder, held));
    }
  }

  lemma AcceptFalls(w: W.Writer, o: D.Decoded)
    requires w.encoder.state.ControlStart? && w.input.data != [] && D.Plausible(o, |w.input.data|)
    requires W.ActOnAccept(w, o).0 != Error
    ensures var (result, w') := W.ActOnAccept(w, o);
      && result != Ok && !w'.state.Done? && Smooth(w') && w'.encoder == w.encoder
      && (w'.input.data != w.input.data ==> |w'.input.data| < |w.input.data|)
      && (w'.input.data == w.input.data ==> !w'.state.DecodingAccept?)
  {
  }

  lemma ReceiveTurn(accepts: D.Accepts, n: Net, todo: seq<E.Message>, first: Positive, second: Positive, upTo: Positive)
    requires Playing(accepts, n, todo) && (n.w.writer.state.ReadingAccept? || n.w.writer.state.DecodingAccept?)
    requires !WriterBlocks(n) && !WriterMove(accepts, n, first, second, upTo).status.Failed?
    ensures Advanced(n, todo, WriterMove(accepts, n, first, second, upTo))
  {
    hide Linked, ReaderSettled, Informed, InTransit, W.ReceiveSome, WR.InStep, Ample, WR.Stream, WT.Kept, WriterClear,
      D.Decode, WT.Session;
    LinkedParts(accepts, n);
    WT.KeptGood(accepts, n.w);
    var w := n.w.writer;
    var input := Front(InTransit(n.r.sent, n.w.received), upTo);
    var io := W.Transport(first, second, input);
    var k := W.ReadCount(w, |input|);
    WriteReceives(accepts, w, io);
    LinkedTaken(accepts, n);
    TakenFromChannel(n.r.sent, n.w.received, upTo, k);
    NoFinishForAccept(accepts, n, input[..k]);
    CallMode(accepts, n.w, io);
    if W.ReceiveSome(accepts, w, input).result != Error {
      ReceiveFalls(accepts, w, input);
      WT.WriteKept(accepts, n.w, io);
      assert n.w.messages + [] == n.w.messages && n.w.sent + [] == n.w.sent;
    }
  }

  /** A writer that can do something gets on with it, if READY leaves whole. */
  lemma CallTurn(accepts: D.Accepts, n: Net, todo: seq<E.Message>, first: Positive, second: Positive, upTo: Positive)
    requires Playing(accepts, n, todo) && Prepared(n.w.writer, todo)
    requires !WriterBlocks(n) && !n.w.writer.state.ReadingFinish?
    requires n.w.writer.state.EncodingReady? ==> 42 <= first
    ensures var n' := Handshake.Step(accepts, n, WriterCalls(first, second, upTo)); var todo' := CO.Later(n.w, n'.w, todo);
      && Playing(accepts, n', todo') && n'.r == n.r
      && n'.w.messages + todo' == n.w.messages + todo
      && WriterLower(n', todo', n, todo)
  {
    hide Linked, ReaderSettled, Informed, InTransit, WriterMove, WriterClear, WriterLower, FramesFit, WR.InStep, CO.Later,
      CO.Over, CO.Steady;
    StepInformed(accepts, n, WriterCalls(first, second, upTo));
    WriterGoesOn(accepts, n, todo, first, second, upTo);
    if n.w.writer.state.EncodingReady? {
      ReadyTurn(accepts, n, todo, first, second, upTo);
    } else if W.TakesInput(n.w.writer.state) {
      ReceiveTurn(accepts, n, todo, first, second, upTo);
    } else {
      SendTurn(accepts, n, todo, first, second, upTo);
    }
  }

  // ---- somebody always can ----

  /** While the writer waits for what its peer has sent in full, it would have been done. */
  lemma SomebodyCan(accepts: D.Accepts, n: Net)
    requires Joined(accepts, n) && !n.w.shortReady && !n.w.writer.state.Done? && Negotiates(n.r)
    ensures !(WriterBlocks(n) && (ReaderBlocks(n) || n.r.reader.state.Done?))
  {
    hide RunFrom, WR.Stream, E.AcceptBytes, E.FinishBytes, AllAccepted, RT.Heard, D.Decode, ReaderSettled;
    if WriterBlocks(n) && ReaderBlocks(n) {
      NotBothBlocked(accepts, n);
    } else if WriterBlocks(n) && n.r.reader.state.Done? {
      var w := n.w.writer;
      AnswerSent(accepts, n);
      assert n.w.received == E.AcceptBytes + E.FinishBytes;
      AnswerEnds(accepts);
      WaitingRun(accepts, w.decoder, w.input.data);
    }
  }

  /** A reader that is done has sent all of its answer. */
  lemma AnswerSent(accepts: D.Accepts, n: Net)
    requires Linked(accepts, n) && n.r.reader.state.Done? && Negotiates(n.r)
    ensures n.w.received <= n.r.sent == E.AcceptBytes + E.FinishBytes && n.r.reader.decoder.state.Done?
  {
    hide RunFrom, E.AcceptBytes, E.FinishBytes, AllAccepted, RT.Heard, WT.Kept;
    assert n.r.sent + [] == n.r.sent;
  }

  lemma AnswerEnds(accepts: D.Accepts)
    ensures RunFrom(L.Whole(accepts), D.Fresh, E.AcceptBytes + E.FinishBytes).end.Ended?
  {
    hide RunFrom, FS.ControlBytes;
    M.ContentTypeFits(D.Fresh);
    L.SessionRun(accepts, L.Answer([CONTENT_TYPE]), []);
    assert L.SessionBytes(L.Answer([CONTENT_TYPE])) + [] == E.AcceptBytes + E.FinishBytes;
  }
}
