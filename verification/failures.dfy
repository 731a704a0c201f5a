/**
 What can go wrong between two parties that both follow the protocol: in every reachable
 state a call fails exactly for want of space, for want of a message, or because it
 completes a FINISH that came in parts.
 */
module Failures {
  import opened Wire
  import opened Results
  import opened Streams
  import opened Handshake
  import opened WriterSends
  import BS = BufferSpec
  import D = DecoderSpec
  import E = EncoderSpec
  import FS = FrameStreams
  import L = Language
  import M = Mirror
  import S = Sessions
  import R = ReaderSpec
  import RR = ReaderRuns
  import RA = ReaderAnswers
  import RoomOf = ReadRoom
  import RT = ReaderTrace
  import W = WriterSpec
  import WR = WriterRuns
  import WT = WriterTrace

  // ---- a prefix of a good stream is good ----

  lemma PrefixRuns(accepts: D.Accepts, part: Bytes, whole: Bytes)
    requires part <= whole && !RunFrom(L.Whole(accepts), D.Fresh, whole).end.Failed?
    ensures !RunFrom(L.Whole(accepts), D.Fresh, part).end.Failed?
  {
    hide RunFrom;
    assert part + whole[|part|..] == whole;
    RunSplits(L.Whole(accepts), D.Fresh, part, whole[|part|..]);
  }

  /** Part of what the writer has sent runs without failing. */
  lemma SentRuns(accepts: D.Accepts, n: Net, part: Bytes)
    requires Linked(accepts, n) && part <= n.w.sent
    ensures !RunFrom(L.Whole(accepts), D.Fresh, part).end.Failed?
  {
    hide RunFrom, WR.Stream, WT.Heard, RR.Good, AllAccepted;
    var s := n.w.writer.encoder.state;
    var stream := WR.Stream(true, s, n.w.messages);
    assert part <= n.w.sent + n.w.writer.output.data == stream;
    StreamCaughtUp(accepts, s, n.w.messages);
    PrefixRuns(accepts, part, stream);
  }

  lemma NoErrorInside(accepts: D.Accepts, d: D.Decoder, held: Bytes)
    requires held != [] && !RunFrom(L.Whole(accepts), d, held).end.Failed?
    ensures D.Decode(accepts, d, held).result != Error
  {
    hide D.Decode;
    assert Window(Unlimited, held) == held;
  }

  /** What the reader would hold if the call took `more`. */
  function Held(r: R.Reader, more: Bytes): Bytes {
    r.input.data + more
  }

  /** The reader is sent what it can decode. */
  lemma HeldRuns(accepts: D.Accepts, n: Net, more: Bytes)
    requires Linked(accepts, n) && !n.r.reader.decoder.state.Done?
    requires n.r.taken + more <= n.w.sent && Held(n.r.reader, more) != []
    ensures RunFrom(L.Whole(accepts), D.Fresh, n.r.taken + more)
         == Before(n.r.messages, RunFrom(L.Whole(accepts), n.r.reader.decoder, Held(n.r.reader, more)))
    ensures D.Decode(accepts, n.r.reader.decoder, Held(n.r.reader, more)).result != Error
  {
    hide RunFrom, WT.Kept, RR.Good, AllAccepted, RT.Conserved;
    SentRuns(accepts, n, n.r.taken + more);
    RT.HeardMore(L.Whole(accepts), n.r, more);
    NoErrorInside(accepts, n.r.reader.decoder, Held(n.r.reader, more));
  }

  /** READY and ACCEPT are told apart, and READY offers the right type. */
  lemma OffersType(accepts: D.Accepts, n: Net, more: Bytes)
    requires Linked(accepts, n) && !n.w.shortReady && !n.r.reader.isBidirectional
    requires R.TakesInput(n.r.reader.state)
    requires n.r.taken + more <= n.w.sent && Held(n.r.reader, more) != []
    ensures var o := D.Decode(accepts, n.r.reader.decoder, Held(n.r.reader, more));
      o.result == Bidirectional ==> o.decoder.readySupport
  {
    hide RunFrom, D.Decode, WT.Kept, AllAccepted, E.ReadyBytes, E.AcceptBytes, FS.ControlBytes;
    var r := n.r.reader;
    var held := Held(r, more);
    var o := D.Decode(accepts, r.decoder, held);
    if o.result == Bidirectional {
      assert n.r.sent == [] by {
        E.ItemSizes();
      }
      E.ItemSizes();
      NoStartYet(accepts, n);
      HeldRuns(accepts, n, more);
      assert Window(Unlimited, held) == held;
      S.FrontTaken(L.Whole(accepts), r.decoder, held, o, held[o.size..]);
      D.DecodeFollows(accepts, r.decoder, held);
      NeverBack(accepts, o.decoder, held[o.size..]);
      var part := n.r.taken + more;
      assert part <= E.ReadyBytes;
      assert RunFrom(L.Whole(accepts), D.Fresh, part)
        == Before(n.r.messages, RunFrom(L.Whole(accepts), o.decoder, held[o.size..]));
      ReadyIsReady();
      if |part| < |E.ReadyBytes| {
        PartOpening(accepts, FS.READY, part);
      }
      assert part == E.ReadyBytes;
      OpeningRun(accepts, FS.READY);
      NothingLeft(accepts, o.decoder, held[o.size..]);
    }
  }

  lemma NothingLeft(accepts: D.Accepts, d: D.Decoder, s: Bytes)
    requires RunFrom(L.Whole(accepts), d, s).end.Waiting? && RunFrom(L.Whole(accepts), d, s).end.pending == []
    requires d.state.ReadingStart? && RunFrom(L.Whole(accepts), d, s).end.decoder.state.ReadingStart?
    ensures RunFrom(L.Whole(accepts), d, s).end.decoder == d
  {
    NeverBack(accepts, d, s);
  }

  // ---- the reader ----

  /** A reader's own reasons to fail: an item too long for `max`, an answer too long for its buffer. */
  predicate OutOfSpace(accepts: D.Accepts, r: R.Reader, more: Bytes) {
    || (R.TakesInput(r.state) && RA.TooLong(accepts, r, Held(r, more)))
    || (r.state.EncodingAccept? && r.output.max < 42)
    || (r.state.EncodingFinish? && r.output.max < 12)
  }

  lemma NotRefused(accepts: D.Accepts, n: Net, more: Bytes)
    requires Linked(accepts, n) && !n.w.shortReady && R.TakesInput(n.r.reader.state)
    requires n.r.taken + more <= n.w.sent && Held(n.r.reader, more) != []
    ensures !RA.Refused(accepts, n.r.reader, Held(n.r.reader, more))
  {
    hide D.Decode, WT.Kept, AllAccepted, RT.Heard, RT.Conserved;
    var r := n.r.reader;
    D.DecodeFollows(accepts, r.decoder, Held(r, more));
    HeldRuns(accepts, n, more);
    if !r.isBidirectional {
      OffersType(accepts, n, more);
    }
  }

  /** A reader that waits, with nothing to come, has room and so no reason to fail. */
  lemma WaitsInPeace(accepts: D.Accepts, n: Net)
    requires Joined(accepts, n) && !n.w.shortReady && R.ReadsInput(n.r.reader.state)
    ensures !RR.NoRoom(n.r.reader) && !RA.TooLong(accepts, n.r.reader, Held(n.r.reader, []))
  {
    hide D.Decode, WT.Kept, AllAccepted, RT.Heard, RT.Conserved, RR.InStep;
    assert n.r.reader.input.data + [] == n.r.reader.input.data;
  }

  lemma ReaderFailure(accepts: D.Accepts, n: Net, room: Positive, upTo: Positive)
    requires Joined(accepts, n)
    requires !n.w.shortReady && !n.r.failed && !n.r.reader.state.Done?
    ensures ReaderMove(accepts, n, room, upTo).failed <==>
      OutOfSpace(accepts, n.r.reader, Front(InTransit(n.w.sent, n.r.taken), R.PushCount(n.r.reader, upTo)))
  {
    hide Linked, ReaderSettled, R.Read, RR.InStep, RA.Refused, RA.TooLong, InTransit;
    LinkedParts(accepts, n);
    var r := n.r.reader;
    var channel := InTransit(n.w.sent, n.r.taken);
    var more := Front(channel, R.PushCount(r, upTo));
    var input := Front(channel, upTo);
    if R.TakesInput(r.state) {
      assert input[..R.PushCount(r, |input|)] == more;
      if R.ReadsInput(r.state) {
        WaitsInPeace(accepts, n);
      }
      if !ReaderBlocks(n) {
        RoomOf.ReadFails(accepts, r, R.Transport(room, input));
        RoomOf.SomethingHeld(r, R.Transport(room, input));
        LinkedTaken(accepts, n);
        TakenFromChannel(n.w.sent, n.r.taken, R.PushCount(r, upTo), |more|);
        assert more[..|more|] == more;
        NotRefused(accepts, n, more);
      }
    } else {
      WriteFails(accepts, r, R.Transport(room, input));
    }
  }

  lemma LinkedTaken(accepts: D.Accepts, n: Net)
    requires Linked(accepts, n)
    ensures n.r.taken <= n.w.sent && n.w.received <= n.r.sent
  {
  }

  lemma WriteFails(accepts: D.Accepts, r: R.Reader, io: R.Transport)
    requires RR.Good(r) && R.Writes(r.state) && 0 < io.canWrite
    ensures R.Read(accepts, r, io).result == Error <==>
      (r.state.EncodingAccept? && r.output.max < 42) || (r.state.EncodingFinish? && r.output.max < 12)
  {
    hide BS.EncodeInto;
    RR.AnswerEncodes(r);
    RR.EncodeValid(r);
  }

  /**
   A reader that has input, or has an answer to write, fails exactly for want of space: its
   peer never sends it anything it cannot decode, and never leaves it without room to read.
   */
  lemma ReaderFailsForSpace(accepts: D.Accepts, w: W.Writer, r: R.Reader, moves: seq<Move>, room: Positive, upTo: Positive)
    requires FreshPair(w, r) && forall m :: m in moves ==> Sendable(accepts, m)
    ensures Joined(accepts, Start(w, r))
    ensures var n := Moves(accepts, Start(w, r), moves);
      var more := Front(InTransit(n.w.sent, n.r.taken), R.PushCount(n.r.reader, upTo));
      !n.w.shortReady && !n.r.failed && !n.r.reader.state.Done? ==>
        (ReaderMove(accepts, n, room, upTo).failed <==> OutOfSpace(accepts, n.r.reader, more))
  {
    hide Moves, Linked, ReaderSettled, OutOfSpace, ReaderMove, R.PushCount;
    StartJoined(accepts, w, r);
    var n := Moves(accepts, Start(w, r), moves);
    LinkedParts(accepts, n);
    if !n.w.shortReady && !n.r.failed && !n.r.reader.state.Done? {
      ReaderFailure(accepts, n, room, upTo);
    }
  }

  // ---- the writer ----

  /** An item is too long for the writer's read buffer. */
  predicate CannotHold(accepts: D.Accepts, w: W.Writer, more: Bytes) {
    && W.TakesInput(w.state) && w.input.data + more != [] && |w.input.data + more| >= w.input.max
    && D.Decode(accepts, w.decoder, w.input.data + more).result == NeedMore
  }

  /** FINISH came in parts, and the call that completes it is made in a state that waits for ACCEPT. */
  predicate FinishForAccept(accepts: D.Accepts, w: W.Writer, more: Bytes) {
    && (w.state.ReadingAccept? || w.state.DecodingAccept?) && w.input.data + more != []
    && D.Decode(accepts, w.decoder, w.input.data + more).result == EndOfData
  }

  lemma AnswerRuns(accepts: D.Accepts, s: E.EncoderState)
    ensures !RunFrom(L.Whole(accepts), D.Fresh, RT.AnswerSoFar(s)).end.Failed?
  {
    hide RunFrom, FS.ControlBytes;
    AcceptIsAccept();
    OpeningRun(accepts, FS.ACCEPT);
    M.NothingRun(L.Whole(accepts), D.Fresh);
    M.ContentTypeFits(D.Fresh);
    L.SessionRun(accepts, L.Answer([CONTENT_TYPE]), []);
    assert L.SessionBytes(L.Answer([CONTENT_TYPE])) + [] == E.AcceptBytes + E.FinishBytes;
  }

  /** The writer is sent what it can decode. */
  lemma AnswerHeldRuns(accepts: D.Accepts, n: Net, more: Bytes)
    requires Linked(accepts, n) && !n.w.writer.decoder.state.Done?
    requires n.w.received + more <= n.r.sent && n.w.writer.input.data + more != []
    ensures RunFrom(L.Whole(accepts), D.Fresh, n.w.received + more)
         == RunFrom(L.Whole(accepts), n.w.writer.decoder, n.w.writer.input.data + more)
    ensures D.Decode(accepts, n.w.writer.decoder, n.w.writer.input.data + more).result != Error
  {
    hide RunFrom, WR.Good, RR.Good, AllAccepted, RT.Heard, WR.Stream, E.AcceptBytes, E.FinishBytes;
    var env := L.Whole(accepts);
    var w, part := n.w.writer, n.w.received + more;
    var answer := RT.AnswerSoFar(n.r.reader.encoder.state);
    assert part <= n.r.sent + n.r.reader.output.data == answer;
    AnswerRuns(accepts, n.r.reader.encoder.state);
    PrefixRuns(accepts, part, answer);
    RunSplits(env, D.Fresh, n.w.received, more);
    RunSplits(env, w.decoder, w.input.data, more);
    NoErrorInside(accepts, w.decoder, w.input.data + more);
  }

  /** While ACCEPT is awaited, what comes is part of ACCEPT, or the whole of it. */
  lemma AcceptComes(accepts: D.Accepts, n: Net, more: Bytes)
    requires Linked(accepts, n) && n.w.writer.encoder.state.ControlStart? && !n.w.writer.decoder.state.Done?
    requires n.w.received + more <= n.r.sent && n.w.writer.input.data + more != []
    ensures var o := D.Decode(accepts, n.w.writer.decoder, n.w.writer.input.data + more);
      && o.result != EndOfData && o.result != HaveDnstap && o.result != Error && o.result != Result.Ok
      && (o.result == Bidirectional ==> o.decoder.acceptSupport)
  {
    hide RunFrom, D.Decode, WR.Good, RR.Good, AllAccepted, RT.Heard, RT.Conserved, WR.Stream, FS.ControlBytes,
      E.AcceptBytes;
    var w := n.w.writer;
    var held, part := w.input.data + more, n.w.received + more;
    var o := D.Decode(accepts, w.decoder, held);
    NoFinishYet(accepts, n);
    assert part <= E.AcceptBytes;
    AnswerHeldRuns(accepts, n, more);
    AcceptIsAccept();
    OpeningRun(accepts, FS.ACCEPT);
    PartRun(accepts, part);
    if o.result != NeedMore {
      assert Window(Unlimited, held) == held;
      var rest := held[o.size..];
      S.FrontTaken(L.Whole(accepts), w.decoder, held, o, rest);
      D.DecodeFollows(accepts, w.decoder, held);
      NeverBack(accepts, o.decoder, rest);
    }
  }

  /** Part of ACCEPT, or all of it, delivers nothing and ends nothing. */
  lemma PartRun(accepts: D.Accepts, part: Bytes)
    requires part <= E.AcceptBytes
    ensures var r := RunFrom(L.Whole(accepts), D.Fresh, part);
      && r.end.Waiting? && r.messages == []
      && (part == E.AcceptBytes ==> r.end.decoder == S.Negotiated(D.Fresh, FS.ACCEPT, true))
      && (part != E.AcceptBytes ==> Progress(r.end.decoder.state) <= 1)
  {
    hide RunFrom, FS.ControlBytes, E.AcceptBytes;
    AcceptIsAccept();
    OpeningRun(accepts, FS.ACCEPT);
    var rest := E.AcceptBytes[|part|..];
    assert part + rest == E.AcceptBytes;
    RunSplits(L.Whole(accepts), D.Fresh, part, rest);
    if part != E.AcceptBytes {
      PartOpening(accepts, FS.ACCEPT, part);
    }
  }

  /** What the writer's decoder may answer, in the states that wait for ACCEPT and for FINISH. */
  lemma AnswerKinds(accepts: D.Accepts, n: Net, more: Bytes)
    requires Linked(accepts, n) && !n.w.shortReady && W.TakesInput(n.w.writer.state)
    requires n.w.received + more <= n.r.sent && n.w.writer.input.data + more != []
    ensures var w := n.w.writer; var o := D.Decode(accepts, w.decoder, w.input.data + more);
      && (o.result == Again || o.result == NeedMore || o.result == EndOfData
          || (o.result == Bidirectional && o.decoder.acceptSupport))
      && (w.state.ReadingFinish? || w.state.DecodingFinish? ==> o.result == NeedMore || o.result == EndOfData)
  {
    hide D.Decode, RR.Good, RT.Heard, RT.Conserved, AllAccepted, WR.Stream, WT.Heard;
    var w := n.w.writer;
    if w.encoder.state.ControlStart? {
      AcceptComes(accepts, n, more);
    } else {
      AnswerHeldRuns(accepts, n, more);
      D.DecodeFollows(accepts, w.decoder, w.input.data + more);
    }
  }

  lemma ReceiveFails(accepts: D.Accepts, w: W.Writer, more: Bytes)
    requires W.TakesInput(w.state) && w.input.data + more != [] && w.input.Valid() && |more| <= w.input.Space()
    requires var o := D.Decode(accepts, w.decoder, w.input.data + more);
      && (o.result == Again || o.result == NeedMore || o.result == EndOfData
          || (o.result == Bidirectional && o.decoder.acceptSupport))
      && (w.state.ReadingFinish? || w.state.DecodingFinish? ==> o.result == NeedMore || o.result == EndOfData)
    ensures W.Receive(accepts, w, more).result == Error <==>
      CannotHold(accepts, w, more) || FinishForAccept(accepts, w, more)
  {
    hide D.Decode;
  }

  /** A writer that waits has room for what comes, and could not go on without it. */
  lemma WriterWaits(accepts: D.Accepts, n: Net)
    requires Joined(accepts, n) && !n.w.shortReady && W.ReadsInput(n.w.writer.state)
    ensures 0 < n.w.writer.input.Space()
    ensures !CannotHold(accepts, n.w.writer, []) && !FinishForAccept(accepts, n.w.writer, [])
  {
    hide D.Decode, RR.Good, RT.Heard, RT.Conserved, AllAccepted, WR.Stream, WT.Heard, WT.Waits, ReaderSettled;
    assert n.w.writer.input.data + [] == n.w.writer.input.data;
  }

  lemma WriterReceiveFailure(accepts: D.Accepts, n: Net, input: Bytes)
    requires Joined(accepts, n) && !n.w.shortReady && W.TakesInput(n.w.writer.state)
    requires W.ReadsInput(n.w.writer.state) ==> input != []
    requires n.w.received + input[..W.ReadCount(n.w.writer, |input|)] <= n.r.sent
    ensures var more := input[..W.ReadCount(n.w.writer, |input|)];
      W.ReceiveSome(accepts, n.w.writer, input).result == Error <==>
        CannotHold(accepts, n.w.writer, more) || FinishForAccept(accepts, n.w.writer, more)
  {
    hide D.Decode, RR.Good, RT.Heard, RT.Conserved, AllAccepted, WR.Stream, WT.Heard, WT.Waits, W.Receive,
      ReaderSettled, CannotHold, FinishForAccept, WR.InStep;
    var more := input[..W.ReadCount(n.w.writer, |input|)];
    if W.ReadsInput(n.w.writer.state) {
      WriterWaits(accepts, n);
    }
    AnswerKinds(accepts, n, more);
    ReceiveFails(accepts, n.w.writer, more);
  }

  /** A move fails exactly when the call that it makes does. */
  lemma MoveFails(accepts: D.Accepts, n: Net, first: Positive, second: Positive, upTo: Positive)
    requires WT.Kept(accepts, n.w) && n.w.writer.bidirectional && n.w.status.Running?
    ensures WR.Good(n.w.writer)
    ensures var w := n.w.writer; var t := WriterMove(accepts, n, first, second, upTo);
      t.status.Failed? <==>
        && !WriterBlocks(n)
        && if w.state.EncodingReady? then W.SendReady(w, first).result == Error
           else W.Write(accepts, w, W.Transport(first, second, Front(InTransit(n.r.sent, n.w.received), upTo))).result == Error
  {
    hide WT.Kept, W.SendReady, W.Write, InTransit, WR.InStep, W.Valid;
    WT.KeptGood(accepts, n.w);
    if !WriterBlocks(n) && !n.w.writer.state.EncodingReady? {
      var io := W.Transport(first, second, Front(InTransit(n.r.sent, n.w.received), upTo));
      if W.Write(accepts, n.w.writer, io).result != Error {
        WT.WriteKept(accepts, n.w, io);
      }
    } else if !WriterBlocks(n) && W.SendReady(n.w.writer, first).result != Error {
      WT.ReadySentKept(accepts, n.w, first);
    }
  }

  lemma WriterFailure(accepts: D.Accepts, n: Net, first: Positive, second: Positive, upTo: Positive)
    requires Joined(accepts, n) && !n.w.shortReady && n.w.status.Running? && !n.w.writer.state.Done?
    ensures var w := n.w.writer;
      var more := Front(InTransit(n.r.sent, n.w.received), W.ReadCount(w, upTo));
      WriterMove(accepts, n, first, second, upTo).status.Failed? <==>
        CannotEncode(w, first) || CannotHold(accepts, w, more) || FinishForAccept(accepts, w, more)
  {
    hide Linked, W.SendReady, W.Write, CannotEncode, CannotHold, FinishForAccept, InTransit, WriterMove, ReaderSettled, WR.InStep,
      WriterClear, W.ReadCount;
    LinkedParts(accepts, n);
    MoveFails(accepts, n, first, second, upTo);
    var w := n.w.writer;
    var more := Front(InTransit(n.r.sent, n.w.received), W.ReadCount(w, upTo));
    if W.TakesInput(w.state) {
      WaitingFailure(accepts, n, first, second, upTo);
    } else if w.state.EncodingReady? {
      ReadyFails(w, first);
      NothingTaken(accepts, w, more);
    } else {
      SendFails(accepts, w, W.Transport(first, second, Front(InTransit(n.r.sent, n.w.received), upTo)));
      NothingTaken(accepts, w, more);
    }
  }

  lemma WaitingFailure(accepts: D.Accepts, n: Net, first: Positive, second: Positive, upTo: Positive)
    requires Joined(accepts, n) && !n.w.shortReady && W.TakesInput(n.w.writer.state) && WR.Good(n.w.writer)
    ensures var w := n.w.writer; var channel := InTransit(n.r.sent, n.w.received);
      var more := Front(channel, W.ReadCount(w, upTo));
      && !CannotEncode(w, first)
      && (CannotHold(accepts, w, more) || FinishForAccept(accepts, w, more) <==>
            && !WriterBlocks(n)
            && W.Write(accepts, w, W.Transport(first, second, Front(channel, upTo))).result == Error)
  {
    hide Linked, W.Write, CannotEncode, CannotHold, FinishForAccept, InTransit, ReaderSettled, WR.InStep, WriterClear;
    LinkedParts(accepts, n);
    LinkedTaken(accepts, n);
    var w := n.w.writer;
    var channel := InTransit(n.r.sent, n.w.received);
    var more := Front(channel, W.ReadCount(w, upTo));
    var input := Front(channel, upTo);
    assert input[..W.ReadCount(w, |input|)] == more;
    TakenFromChannel(n.r.sent, n.w.received, W.ReadCount(w, upTo), |more|);
    assert more[..|more|] == more;
    OnlyEncodingCannot(w, first);
    if WriterBlocks(n) {
      WriterWaits(accepts, n);
    } else {
      WriterReceiveFailure(accepts, n, input);
      WriteReceives(accepts, w, W.Transport(first, second, input));
    }
  }

  lemma OnlyEncodingCannot(w: W.Writer, first: nat)
    requires W.TakesInput(w.state)
    ensures !CannotEncode(w, first)
  {
  }

  lemma WriteReceives(accepts: D.Accepts, w: W.Writer, io: W.Transport)
    requires WR.Good(w) && W.TakesInput(w.state)
    ensures W.Write(accepts, w, io) == W.ReceiveSome(accepts, w, io.canRead)
  {
  }

  lemma NothingTaken(accepts: D.Accepts, w: W.Writer, more: Bytes)
    requires !W.TakesInput(w.state)
    ensures !CannotHold(accepts, w, more) && !FinishForAccept(accepts, w, more)
  {
  }

  /**
   A writer whose READY left whole fails exactly when it has no message or too long a one,
   when its read buffer cannot hold the item coming in, or when the call completes a FINISH
   that came in parts.
   */
  lemma WriterFailsFor(
      accepts: D.Accepts, w: W.Writer, r: R.Reader, moves: seq<Move>, first: Positive, second: Positive, upTo: Positive)
    requires FreshPair(w, r) && forall m :: m in moves ==> Sendable(accepts, m)
    ensures Joined(accepts, Start(w, r))
    ensures var n := Moves(accepts, Start(w, r), moves);
      var more := Front(InTransit(n.r.sent, n.w.received), W.ReadCount(n.w.writer, upTo));
      !n.w.shortReady && n.w.status.Running? && !n.w.writer.state.Done? ==>
        (WriterMove(accepts, n, first, second, upTo).status.Failed? <==>
          || CannotEncode(n.w.writer, first) || CannotHold(accepts, n.w.writer, more)
          || FinishForAccept(accepts, n.w.writer, more))
  {
    hide Moves, Linked, ReaderSettled, WriterMove, W.ReadCount, CannotHold, CannotEncode, FinishForAccept;
    StartJoined(accepts, w, r);
    var n := Moves(accepts, Start(w, r), moves);
    LinkedParts(accepts, n);
    if !n.w.shortReady && n.w.status.Running? && !n.w.writer.state.Done? {
      WriterFailure(accepts, n, first, second, upTo);
    }
  }
}
