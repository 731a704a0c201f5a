/**
 Whole runs of a writer: writes or pops of any size, and stops, new messages and resizes at
 any moment.
 */
module WriterTrace {
  import opened Wire
  import opened Results
  import opened BufferSpec
  import opened WriterSpec
  import opened WriterRuns
  import opened Streams
  import WA = WriterAnswers
  import D = DecoderSpec
  import E = EncoderSpec
  import L = Language
  import S = Sessions

  datatype Call =
    | CallWrite(io: Transport)
    | CallPop(len: Len)
    | CallStop
    | CallSetDnstap(m: E.Message)
    | CallSetBufsize(size: Positive)

  /**
   A run goes on until a call fails, until a pop overwrites pending bytes, or until a resize
   displaces them.  A resize that is refused changes nothing.
   */
  datatype Status = Running | Failed | Overwritten | Displaced

  /**
   A writer and its history: bytes sent, bytes received, the message that was set at each
   `ok`, how many stops succeeded, whether READY ever left only in part, and what the
   writes and pops answered.
   */
  datatype Trace = Trace(
    writer: Writer,
    status: Status,
    sent: Bytes,
    received: Bytes,
    messages: seq<Bytes>,
    stops: nat,
    shortReady: bool,
    answers: seq<Result>)

  function Begin(w: Writer): Trace {
    Trace(w, Running, [], [], [], 0, false, [])
  }

  function Record(t: Trace, o: Outcome, input: Bytes): Trace
    requires o.taken <= |input|
  {
    if o.result == Error then t.(status := Status.Failed)
    else
      t.(writer := o.writer,
         sent := t.sent + o.sent,
         received := t.received + input[..o.taken],
         messages := t.messages + Reported(o.result, t.writer.encoder),
         shortReady := t.shortReady || (t.writer.state.EncodingReady? && o.writer.state.Writing?),
         answers := t.answers + [o.result])
  }

  // ---- what is kept ----

  predicate HeardIn(env: Env, w: Writer, received: Bytes) {
    RunFrom(env, D.Fresh, received) == L.Remaining(env, w.decoder, w.input.data)
  }

  predicate Heard(accepts: D.Accepts, w: Writer, received: Bytes) {
    HeardIn(L.Whole(accepts), w, received)
  }

  /** Nothing from START on is encoded before ACCEPT has been read. */
  predicate Waits(w: Writer) {
    && (!w.encoder.state.ControlReady? && !w.encoder.state.ControlStart? ==> Accepted(w.decoder))
    && (w.state.Encoding? ==> Accepted(w.decoder))
    && (w.state.Writing? ==> !w.encoder.state.ControlStart?)
  }

  /** Asking for more of ACCEPT, the writer has nothing it could decode, and has room. */
  predicate Settled(accepts: D.Accepts, w: Writer) {
    w.state.ReadingAccept? ==>
      && w.input.at + |w.input.data| < w.input.size
      && (w.input.data != [] ==> D.Decode(accepts, w.decoder, w.input.data).result == NeedMore)
  }

  predicate Kept(accepts: D.Accepts, t: Trace) {
    && Good(t.writer)
    && Ready(t.writer, t.sent, t.messages)
    && Heard(accepts, t.writer, t.received)
    && Settled(accepts, t.writer)
    && S.Encodable(t.messages)
    && t.stops == (if t.writer.encoder.state.ControlStop? || t.writer.encoder.state.Done? then 1 else 0)
    && (t.writer.bidirectional && !t.shortReady ==> Waits(t.writer))
  }

  lemma ReadyKept(t: Trace, o: Outcome)
    requires Good(t.writer) && Ready(t.writer, t.sent, t.messages)
    requires Sent(t.writer, o, t.sent, t.messages) && o.result != Error
    requires o.writer.encoder.state.ControlReady? || o.writer.encoder.state.ControlStart? ==>
      o.result != Ok && (t.writer.encoder.state.ControlReady? || t.writer.encoder.state.ControlStart?)
    ensures Ready(o.writer, t.sent + o.sent, t.messages + Reported(o.result, t.writer.encoder))
  {
    hide Stream;
  }

  // ---- receiving ----

  lemma ActHeard(env: Env, w: Writer, o: D.Decoded)
    requires env.policy.Pass?
    requires InStep(w) && TakesInput(w.state) && w.input.Valid() && w.input.data != [] && !w.decoder.state.Done?
    requires D.Plausible(o, |w.input.data|) && D.Follows(w.decoder, o)
    requires o.result != NeedMore ==>
      RunFrom(env, w.decoder, w.input.data) == S.After(env, o, w.input.data[o.size..])
    ensures var (result, w') :=
        if w.state.ReadingAccept? || w.state.DecodingAccept? then ActOnAccept(w, o) else ActOnFinish(w, o);
      result != Error ==>
        RunFrom(env, w.decoder, w.input.data) == L.Remaining(env, w'.decoder, w'.input.data)
  {
    hide RunFrom;
    assert w.input.Consume(o.size).data == w.input.data[o.size..];
  }

  lemma ActWaits(w: Writer, o: D.Decoded)
    requires InStep(w) && TakesInput(w.state) && Waits(w)
    requires D.Plausible(o, |w.input.data|) && D.Follows(w.decoder, o)
    ensures var (result, w') :=
        if w.state.ReadingAccept? || w.state.DecodingAccept? then ActOnAccept(w, o) else ActOnFinish(w, o);
      result != Error ==> Waits(w')
  {
  }

  /** Reading past ACCEPT, with a limit that the read buffer can reach. */
  predicate Suits(env: Env, input: InBuf) {
    env.policy.Pass? && (env.limit.AtMost? ==> input.max <= env.limit.max)
  }

  lemma ReceiveHeard(env: Env, w: Writer, data: Bytes, received: Bytes)
    requires Good(w) && TakesInput(w.state) && w.input.data + data != [] && |data| <= w.input.Space()
    requires Suits(env, w.input) && HeardIn(env, w, received)
    ensures var o := Receive(env.accepts, w, data);
      o.result != Error ==> HeardIn(env, o.writer, received + data)
  {
    hide RunFrom, D.Decode;
    var w' := w.(input := w.input.Fill(data));
    var held := w'.input.data;
    var o := D.Decode(env.accepts, w.decoder, held);
    D.DecodeFollows(env.accepts, w.decoder, held);
    RunSplits(env, D.Fresh, received, data);
    RunSplits(env, w.decoder, w.input.data, data);
    if o.result != NeedMore {
      assert Window(env.limit, held) == held;
      S.FrontTaken(env, w.decoder, held, o, held[o.size..]);
    }
    ActHeard(env, w', o);
  }

  lemma ReceiveKept(accepts: D.Accepts, w: Writer, data: Bytes, received: Bytes)
    requires Good(w) && TakesInput(w.state) && w.input.data + data != [] && |data| <= w.input.Space()
    requires Heard(accepts, w, received)
    ensures var o := Receive(accepts, w, data);
      o.result != Error ==>
        && Heard(accepts, o.writer, received + data)
        && Settled(accepts, o.writer)
        && (Waits(w) ==> Waits(o.writer))
  {
    hide RunFrom, D.Decode, Waits, HeardIn;
    var w' := w.(input := w.input.Fill(data));
    var o := D.Decode(accepts, w.decoder, w'.input.data);
    D.DecodeFollows(accepts, w.decoder, w'.input.data);
    ReceiveHeard(L.Whole(accepts), w, data, received);
    if Waits(w) {
      WaitsFill(w, data);
      ActWaits(w', o);
    }
  }

  lemma WaitsFill(w: Writer, data: Bytes)
    requires Waits(w)
    ensures Waits(w.(input := w.input.Fill(data)))
  {
  }

  lemma ReceiveSomeKept(accepts: D.Accepts, t: Trace, w: Writer, before: Bytes, input: Bytes)
    requires Kept(accepts, t) && t.status.Running?
    requires Good(w) && TakesInput(w.state) && Heard(accepts, w, t.received)
    requires w.bidirectional && t.writer.bidirectional
    requires Ready(w, t.sent + before, t.messages)
    requires w.encoder.state == t.writer.encoder.state
          || (t.writer.encoder.state.ControlReady? && w.encoder.state.ControlStart?)
    requires t.writer.state.EncodingReady? || t.writer.state == w.state
    requires !t.shortReady ==> Waits(w)
    ensures var o := ReceiveSome(accepts, w, input).(sent := before);
      o.taken <= |input| && (o.result != Error ==> Kept(accepts, Record(t, o, input)))
  {
    hide Receive, Stream, Waits, Heard;
    var n := ReadCount(w, |input|);
    if !(ReadsInput(w.state) && n == 0) {
      ReceiveGood(accepts, w, input[..n]);
      ReceiveKept(accepts, w, input[..n], t.received);
      ReceivedState(accepts, w, input[..n]);
      assert t.messages + [] == t.messages;
    }
  }

  lemma ReceivedState(accepts: D.Accepts, w: Writer, data: Bytes)
    requires Good(w) && TakesInput(w.state) && w.input.data + data != []
    ensures !Receive(accepts, w, data).writer.state.Writing? || Receive(accepts, w, data).result == Error
  {
  }

  // ---- sending ----

  /** A sending call keeps everything, provided it keeps what is said of the handshake. */
  lemma SendKept(accepts: D.Accepts, t: Trace, o: Outcome, input: Bytes)
    requires Kept(accepts, t) && o.result != Error
    requires Sent(t.writer, o, t.sent, t.messages)
    requires o.writer.encoder.state == t.writer.encoder.state
          || (t.writer.encoder.state.ControlReady? && o.writer.encoder.state.ControlStart?)
          || (t.writer.encoder.state.ControlStart? && o.writer.encoder.state.Frames?)
          || (t.writer.encoder.state.ControlStop? && o.writer.encoder.state.Done?)
    requires o.result == Ok ==> t.writer.encoder.state.Frames? && t.writer.encoder.dnstap != []
    requires o.writer.state.ReadingAccept? ==> o.writer.input.data == []
    requires !t.shortReady && t.writer.bidirectional && Waits(t.writer) ==>
      Waits(o.writer) || (t.writer.state.EncodingReady? && o.writer.state.Writing?)
    ensures Kept(accepts, Record(t, o, input))
  {
    hide Stream, Waits, RunFrom;
    ReadyKept(t, o);
    assert t.received + input[..0] == t.received;
  }

  lemma FramesKept(accepts: D.Accepts, t: Trace, n: nat, input: Bytes)
    requires Kept(accepts, t) && (t.writer.state.Encoding? || t.writer.state.Writing?)
    requires SendFrames(t.writer, n).result != Error
    ensures Kept(accepts, Record(t, SendFrames(t.writer, n), input))
  {
    hide Stream, SendFrames, RunFrom;
    SendFramesGood(t.writer, n, t.sent, t.messages);
    SendKept(accepts, t, SendFrames(t.writer, n), input);
  }

  lemma StopKept(accepts: D.Accepts, t: Trace, n: nat, input: Bytes)
    requires Kept(accepts, t) && (t.writer.state.EncodingStop? || t.writer.state.WritingStop?)
    requires SendStop(t.writer, n).result != Error
    ensures Kept(accepts, Record(t, SendStop(t.writer, n), input))
  {
    hide Stream, SendStop, RunFrom;
    SendStopGood(t.writer, n, t.sent, t.messages);
    SendKept(accepts, t, SendStop(t.writer, n), input);
  }

  lemma RestKept(accepts: D.Accepts, t: Trace, first: nat, second: nat, input: Bytes)
    requires Kept(accepts, t) && t.writer.state.Stopping?
    requires SendRest(t.writer, first, second).result != Error
    ensures Kept(accepts, Record(t, SendRest(t.writer, first, second), input))
  {
    hide Stream, RunFrom;
    SendRestGood(t.writer, first, second, t.sent, t.messages);
    SendKept(accepts, t, SendRest(t.writer, first, second), input);
  }

  /** READY leaves; if all of it does, the same call waits for ACCEPT. */
  lemma ReadyAndWaitKept(accepts: D.Accepts, t: Trace, io: Transport)
    requires Kept(accepts, t) && t.status.Running? && t.writer.state.EncodingReady?
    requires SendReadyAndWait(accepts, t.writer, io).result != Error
    ensures var o := SendReadyAndWait(accepts, t.writer, io);
      o.taken <= |io.canRead| && Kept(accepts, Record(t, o, io.canRead))
  {
    hide Stream, RunFrom, SendReady, ReceiveSome, E.ReadyBytes, Record;
    var o := SendReady(t.writer, io.first);
    SendReadyGood(t.writer, io.first, t.sent, t.messages);
    if o.writer.state.ReadingAccept? {
      assert t.messages + [] == t.messages;
      ReadyKept(t, o);
      ReceiveSomeKept(accepts, t, o.writer, o.sent, io.canRead);
    } else {
      SendKept(accepts, t, o, io.canRead);
    }
  }

  /** The first half of that call, which is where it stands while it waits. */
  lemma ReadySentKept(accepts: D.Accepts, t: Trace, n: nat)
    requires Kept(accepts, t) && t.writer.state.EncodingReady?
    requires SendReady(t.writer, n).result != Error
    ensures Kept(accepts, Record(t, SendReady(t.writer, n), []))
  {
    hide Stream, RunFrom, SendReady, E.ReadyBytes;
    SendReadyGood(t.writer, n, t.sent, t.messages);
    SendKept(accepts, t, SendReady(t.writer, n), []);
  }

  lemma WriteKept(accepts: D.Accepts, t: Trace, io: Transport)
    requires Kept(accepts, t) && t.status.Running?
    requires Write(accepts, t.writer, io).result != Error
    ensures var o := Write(accepts, t.writer, io);
      o.taken <= |io.canRead| && Kept(accepts, Record(t, o, io.canRead))
  {
    hide Stream, RunFrom, SendReadyAndWait, ReceiveSome, SendFrames, SendStop, SendRest, Record, Kept;
    KeptGood(accepts, t);
    match t.writer.state
    case Stopping =>
      RestKept(accepts, t, io.first, io.second, io.canRead);
      SendRestGood(t.writer, io.first, io.second, t.sent, t.messages);
    case EncodingStop =>
      StopKept(accepts, t, io.first, io.canRead);
      SendStopGood(t.writer, io.first, t.sent, t.messages);
    case WritingStop =>
      StopKept(accepts, t, io.first, io.canRead);
      SendStopGood(t.writer, io.first, t.sent, t.messages);
    case Encoding =>
      FramesKept(accepts, t, io.first, io.canRead);
      SendFramesGood(t.writer, io.first, t.sent, t.messages);
    case Writing =>
      FramesKept(accepts, t, io.first, io.canRead);
      SendFramesGood(t.writer, io.first, t.sent, t.messages);
    case EncodingReady => ReadyAndWaitKept(accepts, t, io);
    case WritingReady =>
    case Done =>
    case _ => ReceiveCallKept(accepts, t, io.canRead);
  }

  lemma KeptGood(accepts: D.Accepts, t: Trace)
    requires Kept(accepts, t)
    ensures Good(t.writer) && Ready(t.writer, t.sent, t.messages)
  {
  }

  lemma ReceiveCallKept(accepts: D.Accepts, t: Trace, input: Bytes)
    requires Kept(accepts, t) && t.status.Running? && TakesInput(t.writer.state)
    requires ReceiveSome(accepts, t.writer, input).result != Error
    ensures var o := ReceiveSome(accepts, t.writer, input);
      o.taken <= |input| && Kept(accepts, Record(t, o, input))
  {
    hide Stream, RunFrom, Record, Receive;
    assert t.sent + [] == t.sent;
    ReceiveSomeKept(accepts, t, t.writer, [], input);
    var n := ReadCount(t.writer, |input|);
    ReceiveGood(accepts, t.writer, input[..n]);
  }

  lemma PopKept(accepts: D.Accepts, t: Trace, len: Len)
    requires Kept(accepts, t) && !t.writer.bidirectional && !Overwrites(t.writer, len)
    requires Pop(t.writer, len).result != Error
    ensures Pop(t.writer, len).taken == 0 && Kept(accepts, Record(t, Pop(t.writer, len), []))
  {
    hide Stream, RunFrom, Pop, Record;
    PopGood(t.writer, len, t.sent, t.messages);
    PopStates(t.writer, len, t.sent, t.messages);
    SendKept(accepts, t, Pop(t.writer, len), []);
  }

  lemma PopStates(w: Writer, len: Len, before: Bytes, messages: seq<Bytes>)
    requires Good(w) && !w.bidirectional && !Overwrites(w, len) && Ready(w, before, messages)
    requires Pop(w, len).result != Error
    ensures var s := Pop(w, len).writer.encoder.state;
      || s == w.encoder.state
      || (w.encoder.state.ControlStart? && s.Frames?)
      || (w.encoder.state.ControlStop? && s.Done?)
  {
    hide Stream, SendStop, SendFrames;
    match w.state
    case Stopping =>
      if w.output.data == [] {
        SendStopGood(w.(state := EncodingStop), len, before, messages);
      } else {
        DrainGoodStopping(w, len);
      }
    case EncodingStop => SendStopGood(w, len, before, messages);
    case WritingStop => SendStopGood(w, len, before, messages);
    case Encoding => SendFramesGood(w, len, before, messages);
    case Writing => SendFramesGood(w, len, before, messages);
    case _ =>
  }

  lemma StopCallKept(accepts: D.Accepts, t: Trace)
    requires Kept(accepts, t)
    ensures var (result, w) := WriterSpec.Stop(t.writer);
      && Kept(accepts, t.(writer := w, stops := if result == Ok then t.stops + 1 else t.stops))
      && (result == Ok ==> t.stops == 0)
  {
    hide RunFrom, D.Decode;
  }

  lemma SetKept(accepts: D.Accepts, t: Trace, m: E.Message)
    requires Kept(accepts, t)
    ensures Kept(accepts, t.(writer := SetDnstap(t.writer, m)))
  {
    hide RunFrom, Stream, D.Decode;
  }

  lemma ResizeKept(accepts: D.Accepts, t: Trace, size: Positive)
    requires Kept(accepts, t) && !t.writer.output.Displaces(size)
    ensures Kept(accepts, t.(writer := SetBufsize(t.writer, size).1))
  {
    hide RunFrom, Stream, D.Decode;
  }

  lemma StatusKept(accepts: D.Accepts, t: Trace, status: Status)
    requires Kept(accepts, t)
    ensures Kept(accepts, t.(status := status))
  {
    hide RunFrom, Stream;
  }

  // ---- calls ----

  function Perform(accepts: D.Accepts, t: Trace, c: Call): Trace
    requires Kept(accepts, t)
    requires c.CallPop? ==> !t.writer.bidirectional
  {
    KeptGood(accepts, t);
    if !t.status.Running? then t
    else
      match c
      case CallSetDnstap(m) => t.(writer := SetDnstap(t.writer, m))
      case CallSetBufsize(size) =>
        if t.writer.output.Displaces(size) then t.(status := Displaced)
        else t.(writer := SetBufsize(t.writer, size).1)
      case CallStop =>
        var (result, w) := WriterSpec.Stop(t.writer);
        t.(writer := w, stops := if result == Ok then t.stops + 1 else t.stops)
      case CallWrite(io) =>
        var o := Write(accepts, t.writer, io);
        if o.result == Error then t.(status := Status.Failed)
        else
          WriteKept(accepts, t, io);
          Record(t, o, io.canRead)
      case CallPop(len) =>
        if Overwrites(t.writer, len) then t.(status := Overwritten)
        else
          var o := Pop(t.writer, len);
          if o.result == Error then t.(status := Status.Failed)
          else
            PopKept(accepts, t, len);
            Record(t, o, [])
  }

  /** What no call changes. */
  predicate SameMode(w: Writer, w': Writer) {
    && w'.bidirectional == w.bidirectional
    && w'.output.max == w.output.max
    && w'.input.max == w.input.max && w'.input.size >= w.input.size
    && w'.encoder.dnstap == w.encoder.dnstap
    && (w'.encoder.state.ControlReady? ==> w.encoder.state.ControlReady?)
  }

  lemma StopMode(w: Writer, n: nat)
    requires Valid(w) && (w.state.EncodingStop? || w.state.WritingStop?)
    ensures SameMode(w, SendStop(w, n).writer)
  {
    hide EncodeInto;
  }

  lemma RestMode(w: Writer, first: nat, second: nat)
    requires Valid(w) && w.state.Stopping?
    ensures SameMode(w, SendRest(w, first, second).writer)
  {
    hide SendStop;
    if w.output.data == [] {
      StopMode(w.(state := EncodingStop), first);
    } else {
      var o := Drain(w, first, Again, EncodingStop);
      if o.result != Error && !o.writer.state.Stopping? {
        StopMode(o.writer, second);
      }
    }
  }

  lemma ReceiveMode(accepts: D.Accepts, w: Writer, canRead: Bytes)
    requires Valid(w) && TakesInput(w.state)
    ensures SameMode(w, ReceiveSome(accepts, w, canRead).writer)
  {
    hide D.Decode;
  }

  lemma WriteMode(accepts: D.Accepts, w: Writer, io: Transport)
    requires Good(w)
    ensures SameMode(w, Write(accepts, w, io).writer)
  {
    hide ReceiveSome, EncodeInto, SendRest, SendStop;
    if TakesInput(w.state) {
      ReceiveMode(accepts, w, io.canRead);
    } else if w.state.EncodingReady? {
      var o := SendReady(w, io.first);
      if o.writer.state.ReadingAccept? && Valid(o.writer) {
        ReceiveMode(accepts, o.writer, io.canRead);
      }
    } else if w.state.Stopping? {
      RestMode(w, io.first, io.second);
    } else if w.state.EncodingStop? || w.state.WritingStop? {
      StopMode(w, io.first);
    }
  }

  lemma FramesMode(w: Writer, n: nat)
    requires Valid(w) && (w.state.Encoding? || w.state.Writing?)
    ensures SameMode(w, SendFrames(w, n).writer)
  {
    hide EncodeInto;
  }

  lemma PopMode(w: Writer, len: Len)
    requires Good(w) && !w.bidirectional
    ensures SameMode(w, Pop(w, len).writer)
  {
    hide SendStop, SendFrames, InStep;
    match w.state
    case Stopping =>
      if w.output.data == [] {
        StopMode(w.(state := EncodingStop), len);
      } else if |w.output.data| <= len {
        StopMode(Drain(w, len, Again, EncodingStop).writer, len);
      }
    case EncodingStop => StopMode(w, len);
    case WritingStop => StopMode(w, len);
    case Encoding => FramesMode(w, len);
    case Writing => FramesMode(w, len);
    case _ =>
  }

  lemma CallKept(accepts: D.Accepts, t: Trace, c: Call)
    requires Kept(accepts, t)
    requires c.CallPop? ==> !t.writer.bidirectional
    ensures Kept(accepts, Perform(accepts, t, c))
    ensures Perform(accepts, t, c).writer.bidirectional == t.writer.bidirectional
    ensures Perform(accepts, t, c).writer.output.max == t.writer.output.max
  {
    hide Stream, RunFrom, Write, Pop, Kept;
    KeptGood(accepts, t);
    if t.status.Running? {
      match c
      case CallSetDnstap(m) => SetKept(accepts, t, m);
      case CallSetBufsize(size) =>
        if !t.writer.output.Displaces(size) {
          ResizeKept(accepts, t, size);
        }
      case CallStop => StopCallKept(accepts, t);
      case CallWrite(io) =>
        if Write(accepts, t.writer, io).result != Error {
          WriteKept(accepts, t, io);
          WriteMode(accepts, t.writer, io);
        }
      case CallPop(len) =>
        if !Overwrites(t.writer, len) && Pop(t.writer, len).result != Error {
          PopKept(accepts, t, len);
          PopMode(t.writer, len);
        }
    }
    StatusKept(accepts, t, Status.Failed);
    StatusKept(accepts, t, Overwritten);
    StatusKept(accepts, t, Displaced);
  }

  /** `ok` was answered once for each message, and `endofdata` by the call that ended the writer. */
  predicate Answered(t: Trace) {
    && Count(Ok, t.answers) == |t.messages|
    && (SaidEnd(t.answers) <==> t.writer.state.Done?) && SaidEndOnce(t.answers)
  }

  lemma RecordAnswered(t: Trace, o: Outcome, input: Bytes)
    requires Answered(t) && !t.writer.state.Done? && o.taken <= |input|
    requires o.result == EndOfData <==> o.writer.state.Done?
    ensures o.result != Error ==> Answered(Record(t, o, input))
  {
    OneMore(t.answers, o.result);
  }

  lemma DoneFails(accepts: D.Accepts, w: Writer, io: Transport, len: Len)
    requires Valid(w)
    ensures w.state.Done? ==> Write(accepts, w, io).result == Error
    ensures w.state.Done? && !w.bidirectional ==> Pop(w, len).result == Error
  {
  }

  lemma CallAnswered(accepts: D.Accepts, t: Trace, c: Call)
    requires Kept(accepts, t) && Answered(t)
    requires c.CallPop? ==> !t.writer.bidirectional
    ensures Answered(Perform(accepts, t, c))
  {
    hide Write, Pop, Kept, Record, Stream, Count, SaidEndOnce, SaidEnd;
    KeptGood(accepts, t);
    if t.status.Running? {
      match c
      case CallWrite(io) =>
        var o := Write(accepts, t.writer, io);
        if o.result != Error {
          WriteKept(accepts, t, io);
          WA.WriteTells(accepts, t.writer, io);
          DoneFails(accepts, t.writer, io, 1);
          RecordAnswered(t, o, io.canRead);
        }
      case CallPop(len) =>
        var o := Pop(t.writer, len);
        if !Overwrites(t.writer, len) && o.result != Error {
          PopKept(accepts, t, len);
          WA.PopTells(t.writer, len);
          DoneFails(accepts, t.writer, Transport(0, 0, []), len);
          RecordAnswered(t, o, []);
        }
      case CallStop => StopNotDone(t.writer);
      case _ =>
    }
  }

  lemma StopNotDone(w: Writer)
    requires Good(w)
    ensures WriterSpec.Stop(w).1.state.Done? <==> w.state.Done?
  {
  }

  function PerformAll(accepts: D.Accepts, t: Trace, calls: seq<Call>): Trace
    requires Kept(accepts, t)
    requires t.writer.bidirectional ==> forall c :: c in calls ==> !c.CallPop?
    decreases |calls|
  {
    if calls == [] then t
    else
      assert calls[0] in calls;
      CallKept(accepts, t, calls[0]);
      PerformAll(accepts, Perform(accepts, t, calls[0]), calls[1..])
  }

  lemma {:induction false} RunKept(accepts: D.Accepts, t: Trace, calls: seq<Call>)
    requires Kept(accepts, t)
    requires t.writer.bidirectional ==> forall c :: c in calls ==> !c.CallPop?
    ensures Kept(accepts, PerformAll(accepts, t, calls))
    ensures Answered(t) ==> Answered(PerformAll(accepts, t, calls))
    ensures PerformAll(accepts, t, calls).writer.bidirectional == t.writer.bidirectional
    decreases |calls|
  {
    hide Kept, Perform, Answered;
    if calls != [] {
      assert calls[0] in calls;
      CallKept(accepts, t, calls[0]);
      if Answered(t) {
        CallAnswered(accepts, t, calls[0]);
      }
      RunKept(accepts, Perform(accepts, t, calls[0]), calls[1..]);
    }
  }

  predicate Fresh(w: Writer) {
    && Good(w) && w.decoder == D.Fresh && w.output.data == [] && w.input.data == []
    && (if w.bidirectional then w.state.EncodingReady? else w.state.Encoding? && w.encoder.state.ControlStart?)
  }

  lemma BeginKept(accepts: D.Accepts, w: Writer)
    requires Fresh(w)
    ensures Kept(accepts, Begin(w))
  {
    BeforeNothing(RunFrom(L.Whole(accepts), D.Fresh, []));
  }

  /** A whole run, from a writer not yet used.  Pop is for one direction only. */
  function RunOf(accepts: D.Accepts, w: Writer, calls: seq<Call>): Trace
    requires Fresh(w)
    requires w.bidirectional ==> forall c :: c in calls ==> !c.CallPop?
  {
    BeginKept(accepts, w);
    PerformAll(accepts, Begin(w), calls)
  }

  /** A whole session of this writer. */
  function Session(bidirectional: bool, messages: seq<Bytes>): Bytes {
    Stream(bidirectional, E.Done, messages)
  }

  lemma StreamPrefix(bidirectional: bool, s: E.EncoderState, messages: seq<Bytes>)
    requires s.ControlReady? || s.ControlStart? ==> messages == []
    ensures Stream(bidirectional, s, messages) <= Session(bidirectional, messages)
  {
    hide E.ReadyBytes, E.StartBytes, E.StopBytes;
  }

  /**
   For every run of writes, pops, stops, new messages and resizes: what was sent and what waits to
   be sent is a prefix of one session, READY (if bidirectional) START frames STOP, whose
   frames are the messages that were set at each `ok`, in order.  Stop takes effect at most
   once, cuts no frame, and nothing follows STOP; when the writer is done all of it has left.
   There was one `ok` for each of these messages, and one `endofdata`, the last answer, if
   the writer is done, and else none.
   */
  lemma WriterConservation(accepts: D.Accepts, w: Writer, calls: seq<Call>)
    requires Fresh(w)
    requires w.bidirectional ==> forall c :: c in calls ==> !c.CallPop?
    ensures var t := RunOf(accepts, w, calls);
      && Kept(accepts, t) && t.writer.bidirectional == w.bidirectional
      && t.sent + t.writer.output.data == Stream(w.bidirectional, t.writer.encoder.state, t.messages)
      && t.sent <= Session(w.bidirectional, t.messages)
      && t.stops <= 1 && Answered(t)
      && (t.writer.state.Done? ==> t.sent == Session(w.bidirectional, t.messages) && t.stops == 1)
  {
    hide Stream, RunFrom, PerformAll;
    BeginKept(accepts, w);
    RunKept(accepts, Begin(w), calls);
    var t := PerformAll(accepts, Begin(w), calls);
    StreamPrefix(w.bidirectional, t.writer.encoder.state, t.messages);
    assert t.sent <= t.sent + t.writer.output.data;
    if t.writer.state.Done? {
      assert t.sent + [] == t.sent;
    }
  }
}
