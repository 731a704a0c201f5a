/**
 Whole runs of a reader, in either mode and by any mixture of calls: every byte is
 accounted for, and what was delivered is what the bytes mean.
 */
module ReaderTrace {
  import opened Wire
  import opened Results
  import opened BufferSpec
  import opened ReaderSpec
  import opened ReaderRuns
  import opened Streams
  import RA = ReaderAnswers
  import D = DecoderSpec
  import E = EncoderSpec
  import L = Language
  import S = Sessions

  datatype Call =
    | CallPush(data: Bytes, room: nat)
    | CallRead(io: Transport)
    | CallSetBufsize(size: Positive)

  /**
   A reader and its history: input bytes accepted, of those the ones decoded, messages
   delivered, bytes sent back, and what the calls answered.  An error ends the run.
   */
  datatype Trace = Trace(
    reader: Reader,
    failed: bool,
    taken: Bytes,
    consumed: Bytes,
    messages: seq<Bytes>,
    sent: Bytes,
    answers: seq<Result>)

  function Begin(r: Reader): Trace {
    Trace(r, false, [], [], [], [], [])
  }

  /** The part of `held` that is gone when only `left` bytes remain. */
  function Gone(held: Bytes, left: nat): Bytes {
    if left <= |held| then held[..|held| - left] else []
  }

  function Record(t: Trace, o: Outcome, data: Bytes): Trace {
    if o.result == Error then t.(failed := true)
    else
      Trace(o.reader, false, t.taken + data,
            t.consumed + Gone(t.reader.input.data + data, |o.reader.input.data|),
            t.messages + (if o.result == HaveDnstap then [o.reader.decoder.dnstap] else []),
            t.sent + o.sent,
            t.answers + [o.result])
  }

  function Perform(accepts: D.Accepts, t: Trace, c: Call): (t': Trace)
    requires Good(t.reader)
    ensures Good(t'.reader)
  {
    if t.failed then t
    else
      match c
      case CallPush(data, room) =>
        PushGood(accepts, t.reader, data, room);
        var o := Push(accepts, t.reader, data, room);
        Record(t, o, data[..o.taken])
      case CallRead(io) =>
        ReadGood(accepts, t.reader, io);
        var o := Read(accepts, t.reader, io);
        if o.result == Error then t.(failed := true) else Record(t, o, io.canRead[..o.taken])
      case CallSetBufsize(size) =>
        SetBufsizeGood(t.reader, size);
        t.(reader := SetBufsize(t.reader, size).1)
  }

  function PerformAll(accepts: D.Accepts, t: Trace, calls: seq<Call>): Trace
    requires Good(t.reader)
    decreases |calls|
  {
    if calls == [] then t else PerformAll(accepts, Perform(accepts, t, calls[0]), calls[1..])
  }

  /** What the peer has been owed so far. */
  function AnswerSoFar(s: E.EncoderState): Bytes {
    match s
    case ControlFinish => E.AcceptBytes
    case Done => E.AcceptBytes + E.FinishBytes
    case _ => []
  }

  predicate Conserved(t: Trace) {
    && t.taken == t.consumed + t.reader.input.data
    && t.sent + t.reader.output.data == AnswerSoFar(t.reader.encoder.state)
  }

  predicate HeardIn(env: Env, t: Trace) {
    RunFrom(env, D.Fresh, t.taken) == Before(t.messages, L.Remaining(env, t.reader.decoder, t.reader.input.data))
  }

  predicate Heard(accepts: D.Accepts, t: Trace) {
    HeardIn(L.Whole(accepts), t)
  }

  /** `have_dnstap` was answered once for each message, and `endofdata` by the call that ended the reader. */
  predicate Answered(t: Trace) {
    && Count(HaveDnstap, t.answers) == |t.messages|
    && (SaidEnd(t.answers) <==> t.reader.state.Done?) && SaidEndOnce(t.answers)
  }

  /** Reading past READY, with a limit that the buffer can reach. */
  predicate Suits(env: Env, r: Reader) {
    env.policy.Pass? && (env.limit.AtMost? ==> r.input.max <= env.limit.max)
  }

  // ---- one call ----

  lemma ActSplits(r: Reader, o: D.Decoded, control: bool, unpushed: bool)
    requires o.size <= |r.input.data|
    ensures var (result, r') := Act(r, o, control, unpushed);
      result != Error ==>
        && r'.decoder == (if o.result == NeedMore then r.decoder else o.decoder)
        && r'.input.data == (if o.result == NeedMore || o.result == EndOfData then r.input.data
                             else r.input.data[o.size..])
        && (result == HaveDnstap <==> o.result == HaveDnstap)
        && o.result != Error && o.result != Result.Ok
  {
  }

  lemma GoneSplits(held: Bytes, k: nat)
    requires k <= |held|
    ensures held == Gone(held, |held[k..]|) + held[k..] && held == Gone(held, |held|) + held
  {
    assert held[..0] == [] && held[..k] + held[k..] == held;
  }

  lemma ActHeard(env: Env, r: Reader, o: D.Decoded, unpushed: bool)
    requires r.input.data != [] && !r.decoder.state.Done? && env.policy.Pass?
    requires D.Follows(r.decoder, o) && D.Plausible(o, |r.input.data|)
    requires o.result != NeedMore ==>
      RunFrom(env, r.decoder, r.input.data)
      == S.After(env, o, r.input.data[o.size..])
    ensures var (result, r') := Act(r, o, Control(r.state), unpushed);
      result != Error ==>
        && r.input.data == Gone(r.input.data, |r'.input.data|) + r'.input.data
        && RunFrom(env, r.decoder, r.input.data)
           == Before(if result == HaveDnstap then [r'.decoder.dnstap] else [],
                     L.Remaining(env, r'.decoder, r'.input.data))
  {
    hide RunFrom, Act, Gone;
    ActSplits(r, o, Control(r.state), unpushed);
    GoneSplits(r.input.data, o.size);
    var (result, r') := Act(r, o, Control(r.state), unpushed);
    if result != Error {
      BeforeNothing(L.Remaining(env, r'.decoder, r'.input.data));
    }
  }

  lemma ReceiveHeard(env: Env, r: Reader, data: Bytes, unpushed: bool)
    requires Good(r) && TakesInput(r.state) && Suits(env, r)
    requires r.input.data + data != [] && |data| <= r.input.Space()
    ensures var o := Receive(env.accepts, r, data, unpushed); var held := r.input.data + data;
      o.result != Error ==>
        && o.taken == |data| && o.sent == []
        && o.reader.output == r.output && o.reader.encoder == r.encoder
        && held == Gone(held, |o.reader.input.data|) + o.reader.input.data
        && RunFrom(env, r.decoder, held)
           == Before(if o.result == HaveDnstap then [o.reader.decoder.dnstap] else [],
                     L.Remaining(env, o.reader.decoder, o.reader.input.data))
  {
    hide RunFrom, D.Decode, L.Remaining, Gone;
    var r' := r.(input := r.input.Fill(data));
    var held := r'.input.data;
    var o := D.Decode(env.accepts, r.decoder, held);
    D.DecodeFollows(env.accepts, r.decoder, held);
    if o.result != NeedMore {
      assert Window(env.limit, held) == held;
      S.FrontTaken(env, r.decoder, held, o, held[o.size..]);
    }
    ActHeard(env, r', o, unpushed);
  }

  lemma EmitKeeps(r: Reader, room: nat, accept: bool)
    ensures var o := Emit(r, room, accept);
      && o.reader.input == r.input && o.reader.decoder == r.decoder && o.reader.encoder == r.encoder
      && o.taken == 0 && o.result != HaveDnstap && o.result != Error
      && o.sent + o.reader.output.data == r.output.data
  {
  }

  lemma EncodeKeeps(r: Reader, sent: Bytes)
    requires Good(r) && Writes(r.state)
    requires Encode(r).0 != Error
    requires sent + r.output.data == AnswerSoFar(r.encoder.state)
    ensures var r' := Encode(r).1;
      && r'.input == r.input && r'.decoder == r.decoder
      && sent + r'.output.data == AnswerSoFar(r'.encoder.state)
  {
    hide E.AcceptBytes, E.FinishBytes;
    if r.state.EncodingAccept? || r.state.EncodingFinish? {
      EncodeIntoExact(r.encoder, r.output);
      assert sent + (r.output.data + E.NextItem(r.encoder)) == sent + r.output.data + E.NextItem(r.encoder);
    }
  }

  lemma WriteKeeps(r: Reader, room: nat, sent: Bytes)
    requires Good(r) && Writes(r.state)
    requires Encode(r).0 != Error
    requires sent + r.output.data == AnswerSoFar(r.encoder.state)
    ensures var r' := Encode(r).1; var o := Emit(r', room, r'.state.WritingAccept?);
      && o.reader.input == r.input && o.reader.decoder == r.decoder && o.taken == 0
      && sent + o.sent + o.reader.output.data == AnswerSoFar(o.reader.encoder.state)
      && o.result != HaveDnstap && o.result != Error
  {
    hide Emit, Encode, AnswerSoFar;
    EncodeKeeps(r, sent);
    var r' := Encode(r).1;
    EmitKeeps(r', room, r'.state.WritingAccept?);
    var o := Emit(r', room, r'.state.WritingAccept?);
    assert sent + o.sent + o.reader.output.data == sent + r'.output.data;
  }

  lemma HeardMore(env: Env, t: Trace, data: Bytes)
    requires HeardIn(env, t) && !t.reader.decoder.state.Done?
    ensures RunFrom(env, D.Fresh, t.taken + data)
         == Before(t.messages, RunFrom(env, t.reader.decoder, t.reader.input.data + data))
  {
    hide RunFrom;
    RunSplits(env, D.Fresh, t.taken, data);
    RunSplits(env, t.reader.decoder, t.reader.input.data, data);
    BeforeResume(env, t.messages, RunFrom(env, t.reader.decoder, t.reader.input.data), data);
  }

  lemma BeforeTwice(a: seq<Bytes>, b: seq<Bytes>, r: Run)
    ensures Before(a, Before(b, r)) == Before(a + b, r)
  {
    assert a + (b + r.messages) == a + b + r.messages;
  }

  lemma ReceiveTraced(env: Env, t: Trace, data: Bytes, unpushed: bool)
    requires Good(t.reader) && TakesInput(t.reader.state) && Suits(env, t.reader)
    requires t.reader.input.data + data != [] && |data| <= t.reader.input.Space()
    requires Conserved(t) && HeardIn(env, t)
    requires Receive(env.accepts, t.reader, data, unpushed).result != Error
    ensures var t' := Record(t, Receive(env.accepts, t.reader, data, unpushed), data);
      Conserved(t') && HeardIn(env, t')
  {
    hide RunFrom, Receive, AnswerSoFar, L.Remaining;
    var o := Receive(env.accepts, t.reader, data, unpushed);
    ReceiveHeard(env, t.reader, data, unpushed);
    HeardMore(env, t, data);
    BeforeTwice(t.messages, if o.result == HaveDnstap then [o.reader.decoder.dnstap] else [],
                L.Remaining(env, o.reader.decoder, o.reader.input.data));
    var held := t.reader.input.data + data;
    assert t.taken + data == t.consumed + held;
    assert t.consumed + (Gone(held, |o.reader.input.data|) + o.reader.input.data)
        == t.consumed + Gone(held, |o.reader.input.data|) + o.reader.input.data;
  }

  lemma UnchangedTraced(env: Env, t: Trace, o: Outcome)
    requires Conserved(t) && HeardIn(env, t)
    requires o.result != HaveDnstap && o.result != Error
    requires o.reader.input.data == t.reader.input.data && o.reader.decoder == t.reader.decoder
    requires t.sent + o.sent + o.reader.output.data == AnswerSoFar(o.reader.encoder.state)
    ensures var t' := Record(t, o, []); Conserved(t') && HeardIn(env, t')
  {
    hide RunFrom, AnswerSoFar;
    assert t.reader.input.data + [] == t.reader.input.data;
    assert t.taken + [] == t.taken && t.consumed + [] == t.consumed && t.messages + [] == t.messages;
  }

  lemma PushTraced(env: Env, t: Trace, data: Bytes, room: nat)
    requires Good(t.reader) && Conserved(t) && HeardIn(env, t) && Suits(env, t.reader)
    requires Push(env.accepts, t.reader, data, room).result != Error
    ensures var o := Push(env.accepts, t.reader, data, room);
      && o.taken <= |data|
      && var t' := Record(t, o, data[..o.taken]); Conserved(t') && HeardIn(env, t')
  {
    hide RunFrom, Receive, Encode, Emit, Record, Conserved, HeardIn;
    var r := t.reader;
    if TakesInput(r.state) {
      if Decodes(r.state) || data != [] {
        var n := PushCount(r, |data|);
        ReceiveTraced(env, t, data[..n], n < |data|);
        ReceiveHeard(env, r, data[..n], n < |data|);
      } else {
        NoCall(env, t);
      }
    } else {
      WriteTraced(env, t, room);
    }
  }

  lemma NoCall(env: Env, t: Trace)
    requires Conserved(t) && HeardIn(env, t)
    ensures var t' := Record(t, Outcome(NeedMore, t.reader, 0, []), []); Conserved(t') && HeardIn(env, t')
  {
    assert t.sent + [] == t.sent;
    UnchangedTraced(env, t, Outcome(NeedMore, t.reader, 0, []));
  }

  lemma WriteTraced(env: Env, t: Trace, room: nat)
    requires Good(t.reader) && Conserved(t) && HeardIn(env, t)
    requires Writes(t.reader.state) && Encode(t.reader).0 != Error
    ensures var r' := Encode(t.reader).1; var o := Emit(r', room, r'.state.WritingAccept?);
      && o.taken == 0
      && var t' := Record(t, o, []); Conserved(t') && HeardIn(env, t')
  {
    hide RunFrom, AnswerSoFar, Record;
    WriteKeeps(t.reader, room, t.sent);
    var r' := Encode(t.reader).1;
    UnchangedTraced(env, t, Emit(r', room, r'.state.WritingAccept?));
  }

  // ---- whole runs ----

  lemma CallTraced(env: Env, t: Trace, c: Call)
    requires Good(t.reader) && Conserved(t) && HeardIn(env, t) && Suits(env, t.reader)
    ensures var t' := Perform(env.accepts, t, c); Conserved(t') && HeardIn(env, t')
  {
    hide RunFrom, Push, Read, AnswerSoFar;
    if !t.failed {
      match c
      case CallPush(data, room) =>
        if Push(env.accepts, t.reader, data, room).result != Error {
          PushTraced(env, t, data, room);
        }
      case CallRead(io) =>
        var o := Read(env.accepts, t.reader, io);
        if o.result != Error {
          ReadIsPush(env.accepts, t.reader, io);
          ReadGood(env.accepts, t.reader, io);
          var data := io.canRead[..o.taken];
          assert data[..o.taken] == data;
          PushTraced(env, t, data, |o.sent|);
        }
      case CallSetBufsize(size) =>
        SetBufsizeGood(t.reader, size);
    }
  }

  lemma ActMax(r: Reader, o: D.Decoded, control: bool, unpushed: bool)
    requires o.size <= |r.input.data|
    ensures var r' := Act(r, o, control, unpushed).1;
      r'.input.max == r.input.max && r'.output == r.output
  {
  }

  lemma PushMax(accepts: D.Accepts, r: Reader, data: Bytes, room: nat)
    requires Good(r)
    ensures Push(accepts, r, data, room).reader.input.max == r.input.max
    ensures Push(accepts, r, data, room).reader.output.max == r.output.max
  {
    hide D.Decode, InStep, Act, EncodeInto;
    if TakesInput(r.state) && (Decodes(r.state) || data != []) {
      var n := PushCount(r, |data|);
      var r' := r.(input := r.input.Fill(data[..n]));
      ActMax(r', D.Decode(accepts, r'.decoder, r'.input.data), Control(r.state), n < |data|);
    }
  }

  lemma ReadMax(accepts: D.Accepts, r: Reader, io: Transport)
    requires Good(r)
    ensures var o := Read(accepts, r, io);
      o.result != Error ==> o.reader.input.max == r.input.max && o.reader.output.max == r.output.max
  {
    hide Push, Read, InStep;
    ReadIsPush(accepts, r, io);
    var o := Read(accepts, r, io);
    if o.result != Error {
      PushMax(accepts, r, io.canRead[..o.taken], |o.sent|);
    }
  }

  lemma DoneFails(accepts: D.Accepts, r: Reader, data: Bytes, room: nat, io: Transport)
    requires Good(r)
    ensures r.state.Done? ==> Push(accepts, r, data, room).result == Error && Read(accepts, r, io).result == Error
  {
  }

  lemma RecordAnswered(t: Trace, o: Outcome, data: Bytes)
    requires Answered(t) && !t.reader.state.Done? && (o.result == EndOfData <==> o.reader.state.Done?)
    ensures o.result != Error ==> Answered(Record(t, o, data))
  {
    OneMore(t.answers, o.result);
  }

  lemma CallAnswered(accepts: D.Accepts, t: Trace, c: Call)
    requires Good(t.reader) && Answered(t)
    ensures Answered(Perform(accepts, t, c))
  {
    hide Push, Read, InStep, Valid, Count, SaidEndOnce, Record;
    if !t.failed {
      match c
      case CallPush(data, room) =>
        var o := Push(accepts, t.reader, data, room);
        RA.PushTells(accepts, t.reader, data, room);
        PushGood(accepts, t.reader, data, room);
        DoneFails(accepts, t.reader, data, room, Transport(0, []));
        if o.result != Error {
          RecordAnswered(t, o, data[..o.taken]);
        } else {
          FailedAnswered(t, o, data[..o.taken]);
        }
      case CallRead(io) =>
        var o := Read(accepts, t.reader, io);
        RA.ReadTells(accepts, t.reader, io);
        ReadGood(accepts, t.reader, io);
        DoneFails(accepts, t.reader, [], 0, io);
        if o.result != Error {
          RecordAnswered(t, o, io.canRead[..o.taken]);
        }
      case CallSetBufsize(size) =>
        SetBufsizeGood(t.reader, size);
    }
  }

  lemma FailedAnswered(t: Trace, o: Outcome, data: Bytes)
    requires Answered(t) && o.result == Error
    ensures Answered(Record(t, o, data))
  {
  }

  /** No call changes `max`. */
  lemma CallMax(accepts: D.Accepts, t: Trace, c: Call)
    requires Good(t.reader)
    ensures var t' := Perform(accepts, t, c);
      t'.reader.input.max == t.reader.input.max && t'.reader.output.max == t.reader.output.max
  {
    hide Push, Read, InStep, Valid;
    match c
    case CallPush(data, room) => PushMax(accepts, t.reader, data, room);
    case CallRead(io) => ReadMax(accepts, t.reader, io);
    case CallSetBufsize(size) => SetBufsizeGood(t.reader, size);
  }

  lemma {:induction false} RunTraced(env: Env, t: Trace, calls: seq<Call>)
    requires Good(t.reader) && Conserved(t) && HeardIn(env, t) && Suits(env, t.reader) && Answered(t)
    ensures var t' := PerformAll(env.accepts, t, calls);
      Good(t'.reader) && Conserved(t') && HeardIn(env, t') && Suits(env, t'.reader) && Answered(t')
    decreases |calls|
  {
    hide Perform, HeardIn, Conserved, Answered, Good;
    if calls != [] {
      CallAnswered(env.accepts, t, calls[0]);
      CallTraced(env, t, calls[0]);
      CallMax(env.accepts, t, calls[0]);
      RunTraced(env, Perform(env.accepts, t, calls[0]), calls[1..]);
    }
  }

  /**
   For every reader and every run of pushes, reads and resizes: the bytes accepted are the
   bytes decoded followed by the bytes still held; the messages delivered are the ones
   those bytes mean, read without a limit or with `max` for one; what was sent and what waits
   to be sent is a prefix of ACCEPT FINISH; `have_dnstap` was answered once for each
   message, and `endofdata` by the last call if the reader is done, and by no other; and
   buffers and machines are in order.
   */
  lemma ReaderConservation(env: Env, r: Reader, calls: seq<Call>)
    requires Good(r) && r.decoder == D.Fresh && r.input.data == [] && r.output.data == []
    requires r.state.ReadingControl? && Suits(env, r)
    ensures var t := PerformAll(env.accepts, Begin(r), calls);
      && Good(t.reader)
      && t.taken == t.consumed + t.reader.input.data
      && RunFrom(env, D.Fresh, t.taken)
         == Before(t.messages, L.Remaining(env, t.reader.decoder, t.reader.input.data))
      && t.sent + t.reader.output.data == AnswerSoFar(t.reader.encoder.state)
      && t.sent + t.reader.output.data <= E.AcceptBytes + E.FinishBytes
      && Answered(t)
  {
    var t := Begin(r);
    assert HeardIn(env, t) by {
      BeforeNothing(RunFrom(env, D.Fresh, []));
    }
    RunTraced(env, t, calls);
    var s := PerformAll(env.accepts, t, calls).reader.encoder.state;
    assert AnswerSoFar(s) <= E.AcceptBytes + E.FinishBytes;
  }
}
