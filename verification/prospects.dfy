/**
 Two parties whose buffers may grow large enough for what they exchange: neither ever runs
 out of space.
 */
module Prospects {
  import opened Wire
  import opened Results
  import opened Streams
  import opened Handshake
  import opened Failures
  import D = DecoderSpec
  import E = EncoderSpec
  import FS = FrameStreams
  import M = Mirror
  import R = ReaderSpec
  import RD = RoundTrip
  import RR = ReaderRuns
  import RT = ReaderTrace
  import S = Sessions
  import W = WriterSpec
  import WR = WriterRuns
  import WT = WriterTrace

  /** Reading a peer's stream with items of at most `max` bytes. */
  function Within(accepts: D.Accepts, max: Positive): Env {
    Env(accepts, AtMost(max), Pass)
  }

  // ---- what each party is sent is within its limits ----

  lemma PrefixWithin(env: Env, part: Bytes, whole: Bytes)
    requires part <= whole && !RunFrom(env, D.Fresh, whole).end.Failed?
    ensures !RunFrom(env, D.Fresh, part).end.Failed?
  {
    hide RunFrom;
    assert part + whole[|part|..] == whole;
    RunSplits(env, D.Fresh, part, whole[|part|..]);
  }

  predicate FramesFit(accepts: D.Accepts, max: nat, messages: seq<Bytes>) {
    S.Encodable(messages) && forall m :: m in messages ==> accepts(m) && 4 + |m| <= max
  }

  /** READY or ACCEPT is read with any limit from 30 bytes on. */
  lemma OpeningWithin(accepts: D.Accepts, max: Positive, kind: nat, rest: Bytes)
    requires 30 <= max && (kind == FS.READY || kind == FS.ACCEPT)
    ensures RunFrom(Within(accepts, max), D.Fresh, FS.ControlBytes(kind, [CONTENT_TYPE]) + rest)
         == RunFrom(Within(accepts, max), S.Negotiated(D.Fresh, kind, true), rest)
  {
    hide RunFrom, FS.ControlBytes, Matches, S.AnyMatch, S.Writable, S.FieldsFit;
    M.ContentTypeFits(D.Fresh);
    RD.StartFits(AtMost(max));
    S.ControlRun(Within(accepts, max), D.Fresh, kind, [CONTENT_TYPE], rest);
  }

  lemma SessionWithin(accepts: D.Accepts, max: Positive, messages: seq<Bytes>)
    requires 30 <= max && FramesFit(accepts, max, messages)
    ensures RunFrom(Within(accepts, max), D.Fresh, WT.Session(true, messages)) == Run(messages, Ended)
  {
    hide RunFrom, FS.ControlBytes, S.Negotiated, FramesFit;
    BothWays(messages);
    var env := Within(accepts, max);
    OpeningWithin(accepts, max, FS.READY, WT.Session(false, messages));
    NegotiatedStart();
    FramesThrough(accepts, max, messages);
    RD.OneWayRun(env, S.Negotiated(D.Fresh, FS.READY, true), messages);
  }

  lemma NegotiatedStart()
    ensures var d := S.Negotiated(D.Fresh, FS.READY, true); d.state.ReadingStart? && d.reader.phase.InControl?
  {
  }

  lemma FramesThrough(accepts: D.Accepts, max: Positive, messages: seq<Bytes>)
    requires FramesFit(accepts, max, messages)
    ensures S.Through(Within(accepts, max), messages) == |messages| && S.Encodable(messages)
  {
    RD.ThroughAll(Within(accepts, max), messages);
  }

  lemma BothWays(messages: seq<Bytes>)
    ensures WT.Session(true, messages) == FS.ControlBytes(FS.READY, [CONTENT_TYPE]) + WT.Session(false, messages)
  {
    hide FS.ControlBytes, FS.FramesBytes;
    var ready, start, stop := E.ReadyBytes, E.StartBytes, E.StopBytes;
    var frames := FS.FramesBytes(messages);
    assert ready + start + frames + stop == ready + ([] + start + frames + stop);
  }

  lemma AnswerWithin(accepts: D.Accepts, max: Positive)
    requires 30 <= max
    ensures RunFrom(Within(accepts, max), D.Fresh, E.AcceptBytes + E.FinishBytes).end.Ended?
  {
    hide RunFrom, FS.ControlBytes;
    AcceptIsAccept();
    OpeningWithin(accepts, max, FS.ACCEPT, E.FinishBytes);
    assert E.FinishBytes + [] == E.FinishBytes == FS.ControlBytes(FS.FINISH, []);
    S.EndRun(Within(accepts, max), S.Negotiated(D.Fresh, FS.ACCEPT, true), FS.FINISH, []);
  }

  // ---- what each party has heard, read within its limits ----

  ghost predicate Informed(accepts: D.Accepts, n: Net)
    requires Linked(accepts, n)
  {
    && RT.HeardIn(Within(accepts, n.r.reader.input.max), n.r)
    && WT.HeardIn(Within(accepts, n.w.writer.input.max), n.w.writer, n.w.received)
  }

  /** What no move changes, and a buffer that never shrinks. */
  predicate SameLimits(n: Net, n': Net) {
    && n'.w.writer.output.max == n.w.writer.output.max
    && n'.w.writer.input.max == n.w.writer.input.max && n'.w.writer.input.size >= n.w.writer.input.size
    && n'.r.reader.input.max == n.r.reader.input.max && n'.r.reader.output.max == n.r.reader.output.max
  }

  lemma ReaderMoveInformed(accepts: D.Accepts, n: Net, room: Positive, upTo: Positive)
    requires Linked(accepts, n) && Informed(accepts, n)
    ensures var n' := n.(r := ReaderMove(accepts, n, room, upTo));
      Linked(accepts, n') && Informed(accepts, n') && SameLimits(n, n')
  {
    hide WT.Kept, AllAccepted, RR.InStep, R.Valid, RT.Conserved, RT.HeardIn, RT.Perform, R.Read, InTransit, Front;
    ReaderMoveLinked(accepts, n, room, upTo);
    if !ReaderBlocks(n) {
      var c := RT.CallRead(R.Transport(room, Front(InTransit(n.w.sent, n.r.taken), upTo)));
      RT.CallTraced(Within(accepts, n.r.reader.input.max), n.r, c);
      RT.CallMax(accepts, n.r, c);
    }
  }

  lemma ReadyMode(w: W.Writer, k: nat)
    requires WR.Good(w) && w.state.EncodingReady?
    ensures var o := W.SendReady(w, k);
      o.result != Error ==> WT.SameMode(w, o.writer) && o.writer.decoder == w.decoder && o.writer.input == w.input
  {
    hide FS.ControlBytes;
  }

  /** A call that sends leaves what was received alone; one that receives hears it. */
  lemma WriteHears(accepts: D.Accepts, t: WT.Trace, io: W.Transport, env: Env)
    requires WR.Good(t.writer) && WR.Ready(t.writer, t.sent, t.messages) && !t.writer.state.EncodingReady?
    requires WT.HeardIn(env, t.writer, t.received) && WT.Suits(env, t.writer.input) && env.accepts == accepts
    ensures var o := W.Write(accepts, t.writer, io);
      o.result != Error ==> o.taken <= |io.canRead| && WT.HeardIn(env, o.writer, t.received + io.canRead[..o.taken])
  {
    hide WR.Stream, W.SendFrames, W.SendStop, W.SendRest, W.Receive, RunFrom;
    var w := t.writer;
    assert t.received + [] == t.received;
    if W.TakesInput(w.state) {
      var k := W.ReadCount(w, |io.canRead|);
      if !(W.ReadsInput(w.state) && k == 0) {
        WR.ReceiveGood(accepts, w, io.canRead[..k]);
        WT.ReceiveHeard(env, w, io.canRead[..k], t.received);
      }
    } else {
      match w.state
      case Stopping => WR.SendRestGood(w, io.first, io.second, t.sent, t.messages);
      case EncodingStop => WR.SendStopGood(w, io.first, t.sent, t.messages);
      case WritingStop => WR.SendStopGood(w, io.first, t.sent, t.messages);
      case Encoding => WR.SendFramesGood(w, io.first, t.sent, t.messages);
      case Writing => WR.SendFramesGood(w, io.first, t.sent, t.messages);
      case _ =>
    }
  }

  lemma WriterMoveInformed(accepts: D.Accepts, n: Net, first: Positive, second: Positive, upTo: Positive)
    requires Linked(accepts, n) && Informed(accepts, n)
    ensures var n' := n.(w := WriterMove(accepts, n, first, second, upTo));
      Linked(accepts, n') && Informed(accepts, n') && SameLimits(n, n')
  {
    hide WT.Heard, WR.Stream, WT.Waits, W.Write, W.SendReady, AllAccepted, RR.Good, RT.Conserved, RT.HeardIn, WT.HeardIn,
      WT.Kept, InTransit, Front, WR.InStep;
    WriterMoveLinked(accepts, n, first, second, upTo);
    var t := n.w;
    var env := Within(accepts, t.writer.input.max);
    WT.KeptGood(accepts, t);
    if t.status.Running? && !WriterBlocks(n) {
      if t.writer.state.EncodingReady? {
        ReadyMode(t.writer, first);
        SameHeard(env, t, W.SendReady(t.writer, first));
      } else {
        var io := W.Transport(first, second, Front(InTransit(n.r.sent, t.received), upTo));
        WriteHears(accepts, t, io, env);
        WT.WriteMode(accepts, t.writer, io);
        if W.Write(accepts, t.writer, io).result != Error {
          WT.WriteKept(accepts, t, io);
        }
      }
    }
  }

  lemma SameHeard(env: Env, t: WT.Trace, o: W.Outcome)
    requires WT.HeardIn(env, t.writer, t.received)
    ensures o.result != Error && o.writer.decoder == t.writer.decoder && o.writer.input == t.writer.input ==>
      WT.HeardIn(env, WT.Record(t, o.(taken := 0), []).writer, WT.Record(t, o.(taken := 0), []).received)
  {
    hide RunFrom;
    assert t.received + [] == t.received;
  }

  lemma OtherMoveInformed(accepts: D.Accepts, n: Net, c: WT.Call)
    requires Linked(accepts, n) && Informed(accepts, n)
    requires c.CallStop? || (c.CallSetDnstap? && accepts(c.m))
    ensures var n' := n.(w := WT.Perform(accepts, n.w, c));
      Linked(accepts, n') && Informed(accepts, n') && SameLimits(n, n')
  {
    hide WT.Kept, AllAccepted, RR.Good, RT.Conserved, RT.HeardIn, RunFrom;
    OtherMovesLinked(accepts, n, c);
  }

  lemma StepInformed(accepts: D.Accepts, n: Net, move: Move)
    requires Joined(accepts, n) && Informed(accepts, n) && Sendable(accepts, move)
    ensures var n' := Handshake.Step(accepts, n, move);
      Joined(accepts, n') && Informed(accepts, n') && SameLimits(n, n')
  {
    hide Linked, WriterMove, ReaderMove, ReaderSettled, RT.HeardIn, WT.HeardIn, WriterClear;
    LinkedParts(accepts, n);
    StepJoined(accepts, n, move);
    match move
    case WriterSets(m) => OtherMoveInformed(accepts, n, WT.CallSetDnstap(m));
    case WriterStops => OtherMoveInformed(accepts, n, WT.CallStop);
    case WriterCalls(first, second, upTo) => WriterMoveInformed(accepts, n, first, second, upTo);
    case ReaderCalls(room, upTo) => ReaderMoveInformed(accepts, n, room, upTo);
  }

  // ---- so nobody fails for want of space ----

  /** Each buffer may grow to hold every item that goes through it. */
  predicate Ample(accepts: D.Accepts, n: Net, todo: seq<E.Message>) {
    && 42 <= n.w.writer.output.max && 30 <= n.w.writer.input.max && 12 <= n.w.writer.input.size
    && 42 <= n.r.reader.output.max && 30 <= n.r.reader.input.max
    && FramesFit(accepts, n.r.reader.input.max, n.w.messages + todo)
    && forall m :: m in n.w.messages + todo ==> 4 + |m| <= n.w.writer.output.max
  }

  /** A limit that a run does not run into holds of what a buffer has in hand. */
  lemma NotFull(env: Env, d: D.Decoder, held: Bytes)
    requires held != [] && env.limit.AtMost? && |held| <= env.limit.max
    requires !RunFrom(env, d, held).end.Failed?
    ensures !(|held| >= env.limit.max && D.Decode(env.accepts, d, held).result == NeedMore)
  {
    hide D.Decode;
    assert Window(env.limit, held) == held;
  }

  lemma ReaderHasSpace(accepts: D.Accepts, n: Net, todo: seq<E.Message>, more: Bytes)
    requires Linked(accepts, n) && Informed(accepts, n) && Ample(accepts, n, todo)
    requires n.r.taken + more <= n.w.sent && |Held(n.r.reader, more)| <= n.r.reader.input.max
    ensures !OutOfSpace(accepts, n.r.reader, more)
  {
    hide RunFrom, WT.Kept, RR.InStep, AllAccepted, RT.Conserved, WR.Stream, D.Decode, RT.Heard;
    var r := n.r.reader;
    if R.TakesInput(r.state) && Held(r, more) != [] {
      var env := Within(accepts, r.input.max);
      NotYetDone(accepts, n);
      SentWithin(accepts, n, todo, n.r.taken + more);
      RT.HeardMore(env, n.r, more);
      NotFull(env, r.decoder, Held(r, more));
    }
  }

  lemma NotYetDone(accepts: D.Accepts, n: Net)
    requires Linked(accepts, n) && R.TakesInput(n.r.reader.state)
    ensures !n.r.reader.decoder.state.Done?
  {
    hide RunFrom, WT.Kept, AllAccepted, RT.Conserved, RT.Heard;
  }

  lemma SentWithin(accepts: D.Accepts, n: Net, todo: seq<E.Message>, part: Bytes)
    requires Linked(accepts, n) && Ample(accepts, n, todo) && part <= n.w.sent
    ensures !RunFrom(Within(accepts, n.r.reader.input.max), D.Fresh, part).end.Failed?
  {
    hide RunFrom, RR.Good, AllAccepted, RT.Conserved, RT.Heard, WT.Heard, WR.Stream;
    var max, s := n.r.reader.input.max, n.w.writer.encoder.state;
    WT.StreamPrefix(true, s, n.w.messages);
    assert part <= n.w.sent + n.w.writer.output.data;
    FewerFit(accepts, max, n.w.messages, todo);
    SessionWithin(accepts, max, n.w.messages);
    PrefixWithin(Within(accepts, max), part, WT.Session(true, n.w.messages));
  }

  lemma FewerFit(accepts: D.Accepts, max: nat, a: seq<Bytes>, b: seq<Bytes>)
    requires FramesFit(accepts, max, a + b)
    ensures FramesFit(accepts, max, a)
  {
    forall m | m in a
      ensures m in a + b
    {
    }
  }

  lemma WriterHasSpace(accepts: D.Accepts, n: Net, todo: seq<E.Message>, more: Bytes)
    requires Linked(accepts, n) && Informed(accepts, n) && Ample(accepts, n, todo)
    requires n.w.received + more <= n.r.sent && |n.w.writer.input.data + more| <= n.w.writer.input.max
    ensures !CannotHold(accepts, n.w.writer, more)
  {
    hide RunFrom, RR.Good, AllAccepted, WR.Stream, D.Decode, RT.Heard, WT.Heard, E.AcceptBytes, E.FinishBytes;
    var w := n.w.writer;
    if W.TakesInput(w.state) && w.input.data + more != [] {
      var env := Within(accepts, w.input.max);
      AnswerWithin(accepts, w.input.max);
      AnswerPrefix(n);
      PrefixWithin(env, n.w.received + more, E.AcceptBytes + E.FinishBytes);
      RunSplits(env, D.Fresh, n.w.received, more);
      RunSplits(env, w.decoder, w.input.data, more);
      NotFull(env, w.decoder, w.input.data + more);
    }
  }
}
