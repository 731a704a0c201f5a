/**
 Complete sessions of two parties: for every list of messages there are moves that deliver
 it and end with the writer done, and the same moves with FINISH read in two parts fail.
 */
module SessionRuns {
  import opened Wire
  import opened Results
  import opened Streams
  import opened Handshake
  import opened Failures
  import opened Prospects
  import opened Liveness
  import C = Chunking
  import CO = Completion
  import D = DecoderSpec
  import E = EncoderSpec
  import FI = Findings
  import FS = FrameStreams
  import L = Language
  import M = Mirror
  import R = ReaderSpec
  import RR = ReaderRuns
  import RT = ReaderTrace
  import S = Sessions
  import W = WriterSpec
  import WA = WriterAnswers
  import WR = WriterRuns
  import WriterSends
  import WT = WriterTrace

  // ---- waiting for FINISH ----

  /** A writer that waits for FINISH has received ACCEPT and nothing else. */
  lemma FinishAwaited(accepts: D.Accepts, n: Net)
    requires Joined(accepts, n) && !n.w.shortReady && n.w.writer.state.ReadingFinish? && 12 <= n.w.writer.input.size
    ensures FI.AwaitsFinish(n.w.writer) && n.w.received == E.AcceptBytes
  {
    hide RunFrom, WR.Stream, E.AcceptBytes, E.FinishBytes, AllAccepted, RT.Heard, RR.Good, FS.ControlBytes;
    var w := n.w.writer;
    AcceptTaken(accepts, n);
    AcceptIsAccept();
    OpeningRun(accepts, FS.ACCEPT);
    var x := n.w.received[|E.AcceptBytes|..];
    assert E.AcceptBytes + x == n.w.received;
    RunSplits(L.Whole(accepts), D.Fresh, E.AcceptBytes, x);
    M.NothingRun(L.Whole(accepts), w.decoder);
    AfterAcceptOnly(accepts, x);
  }

  lemma AfterAcceptOnly(accepts: D.Accepts, x: Bytes)
    ensures var d := S.Negotiated(D.Fresh, FS.ACCEPT, true); var r := RunFrom(L.Whole(accepts), d, [] + x);
      r.end.Waiting? ==> r.end.pending == x && r.end.decoder == d && d.reader.phase.InControl? && d.state.CheckingFinish?
  {
    assert [] + x == x;
    NeverBack(accepts, S.Negotiated(D.Fresh, FS.ACCEPT, true), x);
  }

  /** Everything is delivered, and all of FINISH is on its way. */
  ghost predicate AtFinish(n: Net) {
    && n.w.writer.state.ReadingFinish? && n.r.reader.state.Done?
    && InTransit(n.r.sent, n.w.received) == E.FinishBytes && |E.FinishBytes| == 12
    && n.r.messages == n.w.messages
  }

  /** When the reader has no more to do and something is on its way, that is all of FINISH. */
  lemma FinishOnItsWay(accepts: D.Accepts, n: Net)
    requires Joined(accepts, n) && !n.w.shortReady && Negotiates(n.r) && 12 <= n.w.writer.input.size
    requires n.w.writer.state.ReadingFinish? && !WriterBlocks(n)
    requires n.r.reader.state.Done? || ReaderBlocks(n)
    ensures AtFinish(n)
  {
    hide RunFrom, WR.Stream, E.AcceptBytes, E.FinishBytes, AllAccepted, RT.Heard, WT.Kept, ReaderSettled, WriterClear;
    E.ItemSizes();
    FinishAwaited(accepts, n);
    AnswerPrefix(n);
    SentMeansDone(accepts, n);
    AnswerSent(accepts, n);
    AllDelivered(accepts, n);
    assert (E.AcceptBytes + E.FinishBytes)[|E.AcceptBytes|..] == E.FinishBytes;
  }

  /** With more than ACCEPT sent, a reader is writing FINISH or done. */
  lemma SentMeansDone(accepts: D.Accepts, n: Net)
    requires Linked(accepts, n) && |n.r.sent| > |E.AcceptBytes|
    ensures n.r.reader.state.WritingFinish? || n.r.reader.state.Done?
  {
    hide RunFrom, E.AcceptBytes, E.FinishBytes, AllAccepted, RT.Heard, WT.Kept;
    assert |n.r.sent| + |n.r.reader.output.data| == |RT.AnswerSoFar(n.r.reader.encoder.state)|;
  }

  // ---- from any state under way to that one ----

  lemma NonNegative(accepts: D.Accepts, n: Net, todo: seq<E.Message>)
    requires Linked(accepts, n)
    ensures 0 <= Unsent(n, todo) && 0 <= Unheard(n)
  {
    hide WR.Stream, AllAccepted, WT.Heard, RT.Heard, RR.Good, E.AcceptBytes, E.FinishBytes;
    E.ItemSizes();
    WT.StreamPrefix(true, n.w.writer.encoder.state, n.w.messages);
    CO.LongerSession(true, n.w.messages, todo);
    assert |n.w.sent| <= |n.w.sent + n.w.writer.output.data|;
    AnswerPrefix(n);
  }

  lemma JoinedParts(accepts: D.Accepts, n: Net)
    requires Joined(accepts, n)
    ensures WT.Kept(accepts, n.w) && n.w.writer.bidirectional && RR.Good(n.r.reader)
  {
  }

  lemma FirstMove(accepts: D.Accepts, n: Net, move: Move, rest: seq<Move>)
    requires Joined(accepts, n) && Sendable(accepts, move) && forall m :: m in rest ==> Sendable(accepts, m)
    ensures Joined(accepts, Handshake.Step(accepts, n, move))
    ensures Moves(accepts, n, [move] + rest) == Moves(accepts, Handshake.Step(accepts, n, move), rest)
  {
    hide Joined, Handshake.Step, WT.Kept, RR.Good;
    JoinedParts(accepts, n);
    StepJoined(accepts, n, move);
    assert ([move] + rest)[1..] == rest;
  }

  /**
   The parties are played to the end of the session: the reader whenever it can do
   something, else the writer.  This comes to an end because each move lowers the measure.
   */
  lemma {:induction false} Play(accepts: D.Accepts, n: Net, todo: seq<E.Message>) returns (moves: seq<Move>)
    requires Playing(accepts, n, todo)
    ensures forall m :: m in moves ==> Sendable(accepts, m)
    ensures var n' := Moves(accepts, n, moves);
      Playing(accepts, n', []) && AtFinish(n') && n'.w.messages == n.w.messages + todo
    decreases Unsent(n, todo), Unheard(n), Undecoded(n), |InTransit(n.w.sent, n.r.taken)|, |n.r.reader.input.data|,
      n.r.reader.input.max - n.r.reader.input.size, n.r.reader.input.at, C.Rank(n.r.reader.state), |n.r.reader.output.data|
  {
    hide Linked, ReaderSettled, Informed, WriterMove, ReaderMove, WriterClear, Smooth, FramesFit, Negotiates, InTransit, WT.Session,
      CO.Later, WT.Kept, RR.Good, WR.Good;
    NonNegative(accepts, n, todo);
    LinkedParts(accepts, n);
    if !n.r.reader.state.Done? && !ReaderBlocks(n) {
      var move := ReaderCalls(54, 54);
      ReaderTurn(accepts, n, todo, 54, 54);
      var rest := Play(accepts, Handshake.Step(accepts, n, move), todo);
      FirstMove(accepts, n, move, rest);
      moves := [move] + rest;
    } else if n.w.writer.state.ReadingFinish? {
      SomebodyCan(accepts, n);
      FinishOnItsWay(accepts, n);
      WT.KeptGood(accepts, n.w);
      NothingToDo(n, todo);
      moves := [];
    } else {
      SomebodyCan(accepts, n);
      var n1, n2 := WriterTurn(accepts, n, todo);
      var todo' := CO.Later(n1.w, n2.w, todo);
      var rest := Play(accepts, n2, todo');
      FirstMove(accepts, n1, WriterCalls(42, 1, 12), rest);
      var more := [WriterCalls(42, 1, 12)] + rest;
      FirstMove(accepts, n, Preparing(todo), more);
      moves := [Preparing(todo)] + more;
    }
  }

  lemma NothingToDo(n: Net, todo: seq<E.Message>)
    requires n.w.writer.state.ReadingFinish? && WR.Good(n.w.writer)
    requires todo != [] ==> !CO.Over(n.w.writer.encoder.state)
    ensures todo == []
    ensures n.w.messages + todo == n.w.messages
  {
  }

  /** The caller prepares, and the writer makes its call. */
  lemma WriterTurn(accepts: D.Accepts, n: Net, todo: seq<E.Message>) returns (n1: Net, n2: Net)
    requires Playing(accepts, n, todo) && !WriterBlocks(n) && !n.w.writer.state.ReadingFinish?
    ensures Sendable(accepts, Preparing(todo)) && Joined(accepts, n1)
    ensures n1 == Handshake.Step(accepts, n, Preparing(todo))
    ensures n2 == Handshake.Step(accepts, n1, WriterCalls(42, 1, 12))
    ensures var todo' := CO.Later(n1.w, n2.w, todo);
      && Playing(accepts, n2, todo')
      && n2.w.messages + todo' == n.w.messages + todo
      && WriterLower(n2, todo', n, todo)
  {
    hide Linked, ReaderSettled, Informed, WriterMove, ReaderMove, WriterClear, Smooth, FramesFit, Negotiates, InTransit, WT.Session,
      CO.Later, CO.Over, Joined, WT.Kept, RR.Good, Preparing;
    JoinedParts(accepts, n);
    PrepareTurn(accepts, n, todo);
    n1 := Handshake.Step(accepts, n, Preparing(todo));
    CallTurn(accepts, n1, todo, 42, 1, 12);
    JoinedParts(accepts, n1);
    n2 := Handshake.Step(accepts, n1, WriterCalls(42, 1, 12));
  }

  // ---- the end ----

  lemma FinishRead(accepts: D.Accepts, n: Net, k: Positive)
    requires Joined(accepts, n) && !n.w.shortReady && n.w.status.Running? && 12 <= n.w.writer.input.size
    requires AtFinish(n) && k <= 12
    ensures var n' := Handshake.Step(accepts, n, WriterCalls(1, 1, k));
      && Joined(accepts, n') && !n'.w.shortReady && n'.w.status.Running? && n'.r == n.r && n'.w.messages == n.w.messages
      && (n'.w.writer.state.Done? <==> k == 12)
      && (k < 12 ==>
            && n'.w.writer.state.ReadingAccept? && n'.w.writer.input.data == E.FinishBytes[..k]
            && n'.w.writer.input.at == 0 && n'.w.writer.input.size == n.w.writer.input.size
            && n'.w.writer.decoder == n.w.writer.decoder
            && InTransit(n'.r.sent, n'.w.received) == E.FinishBytes[k..])
  {
    hide Linked, ReaderSettled, WR.InStep, WR.Stream, WT.Kept, E.FinishBytes, InTransit, WriterClear, W.Write;
    StepJoined(accepts, n, WriterCalls(1, 1, k));
    LinkedParts(accepts, n);
    FinishAwaited(accepts, n);
    var input := Front(InTransit(n.r.sent, n.w.received), k);
    assert input == E.FinishBytes[..k];
    var io := W.Transport(1, 1, input);
    WritePart(accepts, n.w.writer, k, io);
    CO.Performed(accepts, n.w, io);
    CallMode(accepts, n.w, io);
    WT.WriteKept(accepts, n.w, io);
    assert n.w.messages + [] == n.w.messages;
    LinkedTaken(accepts, n);
    Received(n.r.sent, n.w.received, k);
    assert input[..k] == InTransit(n.r.sent, n.w.received)[..k];
  }

  lemma Received(sent: Bytes, received: Bytes, k: nat)
    requires received <= sent && k <= |InTransit(sent, received)|
    ensures InTransit(sent, received + InTransit(sent, received)[..k]) == InTransit(sent, received)[k..]
  {
  }

  lemma WritePart(accepts: D.Accepts, w: W.Writer, k: Positive, io: W.Transport)
    requires FI.AwaitsFinish(w) && k <= 12 && |E.FinishBytes| == 12 && io.canRead == E.FinishBytes[..k]
    ensures var o := W.Write(accepts, w, io);
      && o.taken == k && o.sent == [] && o.result != Error && o.result != Ok
      && (o.writer.state.Done? <==> k == 12)
      && (k < 12 ==> o.writer == w.(state := W.ReadingAccept, input := w.input.(data := E.FinishBytes[..k], at := 0)))
  {
    hide FS.Read, E.FinishBytes;
    assert io.canRead[..k] == io.canRead && w.input.data + io.canRead == io.canRead;
    FI.FinishPart(w.decoder.reader, k);
  }

  lemma RestCompletes(accepts: D.Accepts, w: W.Writer, more: Bytes)
    requires w.state.ReadingAccept? && w.decoder.state.CheckingFinish? && w.decoder.reader.phase.InControl?
    requires w.input.data + more == E.FinishBytes
    ensures FinishForAccept(accepts, w, more)
  {
    hide FS.Read, E.FinishBytes;
    FI.FinishPart(w.decoder.reader, 12);
    assert E.FinishBytes[..12] == E.FinishBytes;
  }

  /** A move that fails leaves the writer as it was. */
  lemma FailedStays(accepts: D.Accepts, n: Net, first: Positive, second: Positive, upTo: Positive)
    requires WT.Kept(accepts, n.w) && n.w.writer.bidirectional && n.w.status.Running?
    ensures var t := WriterMove(accepts, n, first, second, upTo);
      t.status.Failed? ==> t.writer == n.w.writer
  {
    hide WT.Kept, W.SendReady, W.Write, InTransit, WR.InStep, W.Valid;
    WT.KeptGood(accepts, n.w);
    if !WriterBlocks(n) && !n.w.writer.state.EncodingReady? {
      var io := W.Transport(first, second, Front(InTransit(n.r.sent, n.w.received), upTo));
      if W.Write(accepts, n.w.writer, io).result != Error {
        WT.WriteKept(accepts, n.w, io);
      }
    }
  }

  /** The rest of a FINISH that came in parts makes the call that takes it fail. */
  lemma RestFails(accepts: D.Accepts, n: Net, k: Positive)
    requires Joined(accepts, n) && !n.w.shortReady && n.w.status.Running? && k < 12 <= n.w.writer.input.size
    requires |E.FinishBytes| == 12 && InTransit(n.r.sent, n.w.received) == E.FinishBytes[k..]
    requires n.w.writer.state.ReadingAccept? && n.w.writer.input.at == 0
    requires n.w.writer.input.data == E.FinishBytes[..k]
    requires n.w.writer.decoder.state.CheckingFinish? && n.w.writer.decoder.reader.phase.InControl?
    ensures WriterMove(accepts, n, 1, 1, 12).status.Failed?
  {
    hide Linked, ReaderSettled, WR.InStep, E.FinishBytes, InTransit, WriterClear, CannotHold, FinishForAccept, WriterMove,
      WriterSends.CannotEncode, WT.Kept, RR.Good;
    LinkedParts(accepts, n);
    WT.KeptGood(accepts, n.w);
    WriterFailure(accepts, n, 1, 1, 12);
    var w := n.w.writer;
    var more := Front(InTransit(n.r.sent, n.w.received), W.ReadCount(w, 12));
    assert more == E.FinishBytes[k..];
    assert w.input.data + more == E.FinishBytes;
    RestCompletes(accepts, w, more);
  }

  lemma FinishInOne(accepts: D.Accepts, n: Net)
    requires Joined(accepts, n) && !n.w.shortReady && n.w.status.Running? && 12 <= n.w.writer.input.size
    requires AtFinish(n)
    ensures var n' := Moves(accepts, n, [WriterCalls(1, 1, 12)]);
      n'.w.status.Running? && n'.w.writer.state.Done? && n'.r == n.r && n'.w.messages == n.w.messages
  {
    hide Linked, ReaderSettled, WriterMove, ReaderMove, WriterClear, InTransit;
    FinishRead(accepts, n, 12);
    FirstMove(accepts, n, WriterCalls(1, 1, 12), []);
  }

  lemma TwoMoves(accepts: D.Accepts, n: Net, a: Move, b: Move)
    requires Joined(accepts, n) && Sendable(accepts, a) && Sendable(accepts, b)
    ensures Joined(accepts, Handshake.Step(accepts, n, a))
    ensures Moves(accepts, n, [a, b]) == Handshake.Step(accepts, Handshake.Step(accepts, n, a), b)
  {
    hide Joined, Handshake.Step, WT.Kept, RR.Good;
    JoinedParts(accepts, n);
    StepJoined(accepts, n, a);
    var n1 := Handshake.Step(accepts, n, a);
    JoinedParts(accepts, n1);
    StepJoined(accepts, n1, b);
    assert [a, b][1..] == [b] && [b][1..] == [];
    assert Moves(accepts, n1, [b]) == Handshake.Step(accepts, n1, b);
  }

  lemma FinishInTwo(accepts: D.Accepts, n: Net, k: Positive)
    requires Joined(accepts, n) && !n.w.shortReady && n.w.status.Running? && 12 <= n.w.writer.input.size
    requires AtFinish(n) && k < 12
    ensures var n' := Moves(accepts, n, [WriterCalls(1, 1, k), WriterCalls(1, 1, 12)]);
      n'.w.status.Failed? && !n'.w.writer.state.Done? && n'.r == n.r
  {
    hide Joined, WriterMove, ReaderMove, InTransit, FI.AwaitsFinish, Moves, WT.Kept, RR.Good;
    JoinedParts(accepts, n);
    FinishRead(accepts, n, k);
    FinishDecoder(accepts, n);
    var n1 := Handshake.Step(accepts, n, WriterCalls(1, 1, k));
    RestFails(accepts, n1, k);
    JoinedParts(accepts, n1);
    FailedStays(accepts, n1, 1, 1, 12);
    TwoMoves(accepts, n, WriterCalls(1, 1, k), WriterCalls(1, 1, 12));
  }

  lemma FinishDecoder(accepts: D.Accepts, n: Net)
    requires Joined(accepts, n) && !n.w.shortReady && n.w.writer.state.ReadingFinish? && 12 <= n.w.writer.input.size
    ensures n.w.writer.decoder.state.CheckingFinish? && n.w.writer.decoder.reader.phase.InControl?
  {
    hide Linked, ReaderSettled, WriterClear;
    FinishAwaited(accepts, n);
  }

  // ---- what the calls answered ----

  predicate BothAnswered(n: Net) {
    WT.Answered(n.w) && RT.Answered(n.r)
  }

  lemma ReadyAnswered(accepts: D.Accepts, t: WT.Trace, first: Positive)
    requires WT.Kept(accepts, t) && WT.Answered(t) && t.writer.state.EncodingReady?
    ensures var o := W.SendReady(t.writer, first);
      o.result != Error ==> WT.Answered(WT.Record(t, o.(taken := 0), []))
  {
    hide W.SendReady, WT.Record, Count, WT.Heard, WR.Stream, WA.Grown, WA.Due;
    WA.ReadySays(t.writer, first);
    if W.SendReady(t.writer, first).result != Error {
      WT.RecordAnswered(t, W.SendReady(t.writer, first).(taken := 0), []);
    }
  }

  lemma StepAnswered(accepts: D.Accepts, n: Net, move: Move)
    requires Joined(accepts, n) && BothAnswered(n) && Sendable(accepts, move)
    ensures BothAnswered(Handshake.Step(accepts, n, move))
  {
    hide Joined, WT.Answered, RT.Answered, WT.Perform, RT.Perform, W.SendReady, WT.Kept, RR.Good, WT.Record, InTransit;
    JoinedParts(accepts, n);
    WT.KeptGood(accepts, n.w);
    match move
    case WriterSets(m) => WT.CallAnswered(accepts, n.w, WT.CallSetDnstap(m));
    case WriterStops => WT.CallAnswered(accepts, n.w, WT.CallStop);
    case WriterCalls(first, second, upTo) =>
      if n.w.writer.state.EncodingReady? {
        ReadyAnswered(accepts, n.w, first);
        FailedAnswered(n.w);
      } else {
        var input := Front(InTransit(n.r.sent, n.w.received), upTo);
        WT.CallAnswered(accepts, n.w, WT.CallWrite(W.Transport(first, second, input)));
      }
    case ReaderCalls(room, upTo) =>
      RT.CallAnswered(accepts, n.r, RT.CallRead(R.Transport(room, Front(InTransit(n.w.sent, n.r.taken), upTo))));
  }

  lemma FailedAnswered(t: WT.Trace)
    requires WT.Answered(t)
    ensures WT.Answered(t.(status := WT.Status.Failed))
  {
  }

  lemma {:induction false} MovesAnswered(accepts: D.Accepts, n: Net, moves: seq<Move>)
    requires Joined(accepts, n) && BothAnswered(n) && forall m :: m in moves ==> Sendable(accepts, m)
    ensures BothAnswered(Moves(accepts, n, moves))
    decreases |moves|
  {
    hide Joined, BothAnswered, WT.Kept, RR.Good, Handshake.Step;
    if moves != [] {
      assert moves[0] in moves;
      JoinedParts(accepts, n);
      StepJoined(accepts, n, moves[0]);
      StepAnswered(accepts, n, moves[0]);
      MovesAnswered(accepts, Handshake.Step(accepts, n, moves[0]), moves[1..]);
    }
  }

  /** All that is left is to read FINISH: in one read it ends the session, in two it spoils it. */
  ghost predicate OnlyFinishLeft(accepts: D.Accepts, n: Net, ms: seq<E.Message>)
    requires Joined(accepts, n)
  {
    && (var whole := Moves(accepts, n, [WriterCalls(1, 1, 12)]);
        && whole.w.status.Running? && whole.w.writer.state.Done? && SaidEnd(whole.w.answers)
        && whole.w.messages == ms && whole.r.messages == ms)
    && (forall k: Positive :: k < 12 ==>
          var split := Moves(accepts, n, [WriterCalls(1, 1, k), WriterCalls(1, 1, 12)]);
          split.w.status.Failed? && !SaidEnd(split.w.answers) && split.r.messages == ms)
  }

  /**
   For every list of messages that fit the buffers and unpack there is a session: moves, from
   two fresh parties, after which the reader has delivered exactly these messages, has sent
   FINISH, and has answered `endofdata` last.  One read of all of FINISH then makes the writer
   answer the same.  Two reads, of any `k` bytes and of the rest, make it fail, with every
   message delivered.
   */
  lemma SessionCompletes(accepts: D.Accepts, w: W.Writer, r: R.Reader, ms: seq<E.Message>) returns (moves: seq<Move>)
    requires FreshPair(w, r) && Ample(accepts, Start(w, r), ms)
    ensures Joined(accepts, Start(w, r)) && forall m :: m in moves ==> Sendable(accepts, m)
    ensures var n := Moves(accepts, Start(w, r), moves);
      && n.w.messages == ms && n.r.messages == ms && n.r.reader.state.Done? && FI.AwaitsFinish(n.w.writer)
      && SaidEnd(n.r.answers) && Count(HaveDnstap, n.r.answers) == |ms| && Count(Ok, n.w.answers) == |ms|
      && OnlyFinishLeft(accepts, n, ms)
  {
    hide Linked, ReaderSettled, WriterMove, ReaderMove, WriterClear, Smooth, Informed, FramesFit, Moves, FI.AwaitsFinish,
      Negotiates, InTransit;
    StartPlaying(accepts, w, r, ms);
    moves := Play(accepts, Start(w, r), ms);
    assert [] + ms == ms;
    var n := Moves(accepts, Start(w, r), moves);
    FinishAwaited(accepts, n);
    FinishInOne(accepts, n);
    MovesAnswered(accepts, Start(w, r), moves);
    MovesAnswered(accepts, n, [WriterCalls(1, 1, 12)]);
    forall k: Positive | k < 12
      ensures var split := Moves(accepts, n, [WriterCalls(1, 1, k), WriterCalls(1, 1, 12)]);
        split.w.status.Failed? && !SaidEnd(split.w.answers) && split.r.messages == ms
    {
      MovesAnswered(accepts, n, [WriterCalls(1, 1, k), WriterCalls(1, 1, 12)]);
      FinishInTwo(accepts, n, k);
    }
  }

  lemma StartPlaying(accepts: D.Accepts, w: W.Writer, r: R.Reader, ms: seq<E.Message>)
    requires FreshPair(w, r) && Ample(accepts, Start(w, r), ms)
    ensures Playing(accepts, Start(w, r), ms)
  {
    hide RunFrom, FramesFit, Linked, ReaderSettled, WriterClear;
    StartJoined(accepts, w, r);
    StartInformed(accepts, w, r);
  }

  lemma StartInformed(accepts: D.Accepts, w: W.Writer, r: R.Reader)
    requires FreshPair(w, r) && Linked(accepts, Start(w, r))
    ensures Informed(accepts, Start(w, r))
  {
    hide RunFrom, Linked;
    BeforeNothing(RunFrom(Within(accepts, r.input.max), D.Fresh, []));
  }
}
