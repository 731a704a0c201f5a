/**
 What every writer keeps, however it is called and whatever the transport does: its buffers
 stay in order, its machines stay in step, and its output is a prefix of a session.
 */
module WriterRuns {
  import opened Wire
  import opened Results
  import opened BufferSpec
  import opened WriterSpec
  import D = DecoderSpec
  import E = EncoderSpec
  import FS = FrameStreams

  // ---- the output stream ----

  /** All that has been encoded when the encoder is in state `s` after `messages`. */
  function Stream(bidirectional: bool, s: E.EncoderState, messages: seq<Bytes>): Bytes {
    var opening := if bidirectional then E.ReadyBytes else [];
    match s
    case ControlReady => []
    case ControlStart => opening
    case Frames => opening + E.StartBytes + FS.FramesBytes(messages)
    case ControlStop => opening + E.StartBytes + FS.FramesBytes(messages)
    case Done => opening + E.StartBytes + FS.FramesBytes(messages) + E.StopBytes
    case _ => []
  }

  predicate SendSide(bidirectional: bool, s: E.EncoderState) {
    !s.ControlAccept? && !s.ControlFinish? && (s.ControlReady? ==> bidirectional)
  }

  function Reported(result: Result, e: E.Encoder): seq<Bytes> {
    if result == Ok then [e.dnstap] else []
  }

  lemma StreamGrows(bidirectional: bool, e: E.Encoder, messages: seq<Bytes>)
    requires SendSide(bidirectional, e.state)
    requires !e.state.Frames? && !e.state.ControlStop? && !e.state.Done? ==> messages == []
    ensures Stream(bidirectional, E.AfterItem(e).state, messages + Reported(E.ItemResult(e), e))
         == Stream(bidirectional, e.state, messages) + E.NextItem(e)
  {
    hide E.ReadyBytes, E.StartBytes, E.StopBytes, FS.FrameBytes;
    assert messages + [] == messages;
    if e.state.Frames? {
      FS.FramesAppend(messages, e.dnstap);
      var s := Stream(bidirectional, e.state, messages);
      assert Stream(bidirectional, e.state, messages + [e.dnstap]) == s + FS.FrameBytes(e.dnstap);
    } else if e.state.ControlStart? {
      assert FS.FramesBytes([]) == [];
    }
  }

  // ---- the three machines ----

  /** ACCEPT has been read, and it offered the content type. */
  predicate Accepted(d: D.Decoder) {
    (d.state.CheckingFinish? || d.state.Done?) && d.acceptSupport
  }

  /** Which encoder states go with a writer state. */
  predicate InStep(w: Writer) {
    && SendSide(w.bidirectional, w.encoder.state)
    && |w.encoder.dnstap| < 0x1_0000_0000
    && (w.decoder.acceptSupport ==> w.decoder.state.CheckingAccept? || Accepted(w.decoder))
    && (w.decoder.state.Done? ==> w.state.Done?)
    && (w.state.Done? && w.bidirectional ==> w.decoder.state.Done?)
    && (w.state.EncodingReady? ==> w.decoder == D.Fresh && w.input.data == [])
    && ((w.state.ReadingAccept? || w.state.DecodingAccept?) && w.encoder.state.ControlStart? ==>
          !w.decoder.state.CheckingFinish?)
    && (!w.bidirectional ==> w.decoder == D.Fresh && !TakesInput(w.state))
    && match w.state {
         case EncodingReady => w.encoder.state.ControlReady?
         case Encoding =>
           w.encoder.state.ControlStart? || w.encoder.state.Frames? || (w.bidirectional && w.encoder.state.Done?)
         case Writing => w.encoder.state.Frames? || (w.bidirectional && w.encoder.state.ControlStart?)
         case Stopping => w.encoder.state.ControlStop?
         case EncodingStop => w.encoder.state.ControlStop?
         case WritingStop => w.encoder.state.Done?
         case WritingReady => false
         case ReadingFinish => w.encoder.state.Done?
         case DecodingFinish => w.encoder.state.Done?
         case Done => w.encoder.state.Done?
         case _ => w.encoder.state.ControlStart? || w.encoder.state.Done?
       }
  }

  /** A writer as found between two calls. */
  predicate Good(w: Writer) {
    Valid(w) && InStep(w)
  }

  lemma InitGood(size: nat, inc: nat, max: nat, inSize: nat, inInc: nat, inMax: nat, bidirectional: bool)
    requires 0 < size <= max && 0 < inc && 0 < inSize <= inMax && 0 < inInc
    ensures Good(Init(size, inc, max, inSize, inInc, inMax, bidirectional))
  {
  }

  // ---- sending ----

  /** What a sending call, `messages` having gone before, has done to the stream. */
  predicate Carries(w: Writer, result: Result, w': Writer, sent: Bytes, before: Bytes, messages: seq<Bytes>) {
    before + sent + w'.output.data
    == Stream(w.bidirectional, w'.encoder.state, messages + Reported(result, w.encoder))
  }

  predicate Ready(w: Writer, before: Bytes, messages: seq<Bytes>) {
    && before + w.output.data == Stream(w.bidirectional, w.encoder.state, messages)
    && (w.encoder.state.ControlReady? || w.encoder.state.ControlStart? ==> messages == [])
  }

  /** Encoding keeps the machines in step: what the states may be afterwards. */
  lemma EncodeGood(w: Writer, draining: WriterState, before: Bytes, messages: seq<Bytes>)
    requires Good(w) && WriterSpec.Encodes(w.state) && Ready(w, before, messages)
    requires draining == if w.state.EncodingStop? then WritingStop else Writing
    ensures var (result, w') := Encode(w, draining);
      result != Error ==>
        && Good(w') && w'.state == draining && w'.output.data == E.NextItem(w.encoder)
        && E.Encodes(w.encoder) && w'.encoder == E.AfterItem(w.encoder) && result == E.ItemResult(w.encoder)
        && w' == w.(encoder := w'.encoder, output := w'.output, state := w'.state)
        && Carries(w, result, w', [], before, messages)
  {
    hide E.ReadyBytes, E.StartBytes, E.StopBytes, Stream;
    EncodeIntoExact(w.encoder, w.output);
    StreamGrows(w.bidirectional, w.encoder, messages);
    if E.Encodes(w.encoder) {
      ItemNotEmpty(w.encoder);
    }
    assert w.output.data + E.NextItem(w.encoder) == E.NextItem(w.encoder);
    assert before + [] + E.NextItem(w.encoder) == before + w.output.data + E.NextItem(w.encoder);
  }

  lemma ItemNotEmpty(e: E.Encoder)
    requires E.Encodes(e)
    ensures E.NextItem(e) != []
  {
    E.ItemSizes();
  }

  /** Draining moves bytes from the buffer to the transport, and nothing else. */
  lemma DrainGood(w: Writer, n: nat, result: Result, empty: WriterState)
    requires Good(w) && Sends(w.state) && result != Error
    ensures var o := Drain(w, n, result, empty);
      && (o.result == Error <==> n == 0)
      && (n > 0 ==>
            && o.result == result && o.taken == 0 && |o.sent| <= n
            && o.sent + o.writer.output.data == w.output.data
            && o.writer.output.Tidy()
            && (|w.output.data| <= n <==> o.writer.output.data == [])
            && o.writer == w.(output := o.writer.output, state := if o.writer.output.data == [] then empty else w.state))
  {
  }

  /** What is claimed of every sending call. */
  predicate Sent(w: Writer, o: Outcome, before: Bytes, messages: seq<Bytes>) {
    o.result != Error ==>
      && Good(o.writer) && o.taken == 0
      && o.writer.decoder == w.decoder && o.writer.input == w.input
      && o.writer.bidirectional == w.bidirectional
      && Carries(w, o.result, o.writer, o.sent, before, messages)
  }

  /** An encoding, or none, and then a drain. */
  lemma CarriesOn(w: Writer, w1: Writer, o: Outcome, result: Result, before: Bytes, messages: seq<Bytes>)
    requires Carries(w, result, w1, [], before, messages)
    requires o.sent + o.writer.output.data == w1.output.data && o.writer.encoder == w1.encoder
    ensures Carries(w, result, o.writer, o.sent, before, messages)
  {
    hide Stream;
    assert before + o.sent + o.writer.output.data == before + [] + w1.output.data;
  }

  lemma NothingEncoded(w: Writer, result: Result, before: Bytes, messages: seq<Bytes>)
    requires Ready(w, before, messages) && result != Ok
    ensures Carries(w, result, w, [], before, messages)
  {
    hide Stream;
    assert messages + [] == messages && before + [] == before;
  }

  lemma SendReadyGood(w: Writer, n: nat, before: Bytes, messages: seq<Bytes>)
    requires Good(w) && w.state.EncodingReady? && Ready(w, before, messages)
    ensures var o := SendReady(w, n);
      && Sent(w, o, before, messages)
      && (o.result != Error ==>
            && o.result == Again && o.writer.encoder.state.ControlStart?
            && (o.writer.state == if n < |E.ReadyBytes| then Writing else ReadingAccept))
  {
    hide Encode, Drain, E.ReadyBytes, Stream, Carries;
    EncodeGood(w, Writing, before, messages);
    var (result, w1) := Encode(w, Writing);
    if result != Error {
      DrainGood(w1, n, result, ReadingAccept);
      if n > 0 {
        CarriesOn(w, w1, Drain(w1, n, result, ReadingAccept), result, before, messages);
      }
    }
  }

  lemma SendFramesGood(w: Writer, n: nat, before: Bytes, messages: seq<Bytes>)
    requires Good(w) && (w.state.Encoding? || w.state.Writing?) && Ready(w, before, messages)
    ensures Sent(w, SendFrames(w, n), before, messages)
    ensures SendFrames(w, n).result == Ok ==>
      w.state.Encoding? && w.encoder.state.Frames? && w.encoder.dnstap != []
    ensures var o := SendFrames(w, n);
      o.result != Error ==> o.result == Ok || o.result == Again
    ensures var o := SendFrames(w, n);
      o.result != Error && w.encoder.state.ControlStart? && w.state.Encoding? ==> o.writer.encoder.state.Frames?
    ensures var o := SendFrames(w, n);
      o.result != Error && !(w.encoder.state.ControlStart? && w.state.Encoding?) ==> o.writer.encoder == w.encoder
    ensures var o := SendFrames(w, n);
      o.result != Error ==> o.writer.state.Encoding? || o.writer.state.Writing?
  {
    hide Encode, Drain, Stream, Carries;
    if w.state.Encoding? {
      EncodeGood(w, Writing, before, messages);
    } else {
      NothingEncoded(w, Again, before, messages);
    }
    var (result, w1) := if w.state.Encoding? then Encode(w, Writing) else (Again, w);
    if result != Error {
      DrainGood(w1, n, result, WriterState.Encoding);
      if n > 0 {
        CarriesOn(w, w1, Drain(w1, n, result, WriterState.Encoding), result, before, messages);
      }
    }
  }

  lemma SendStopGood(w: Writer, n: nat, before: Bytes, messages: seq<Bytes>)
    requires Good(w) && (w.state.EncodingStop? || w.state.WritingStop?) && Ready(w, before, messages)
    ensures Sent(w, SendStop(w, n), before, messages)
    ensures var o := SendStop(w, n);
      o.result != Error ==>
        && o.writer.encoder.state.Done?
        && (o.result == if o.writer.state.Done? then EndOfData else Again)
        && (o.writer.state.WritingStop? || o.writer.state == if w.bidirectional then ReadingFinish else Done)
  {
    hide Encode, Drain, Stream, Carries;
    if w.state.EncodingStop? {
      EncodeGood(w, WritingStop, before, messages);
    } else {
      NothingEncoded(w, EndOfData, before, messages);
    }
    var (result, w1) := if w.state.EncodingStop? then Encode(w, WritingStop) else (EndOfData, w);
    if result == EndOfData {
      var empty := if w.bidirectional then ReadingFinish else Done;
      DrainGood(w1, n, Again, empty);
      if n > 0 {
        CarriesOn(w, w1, Drain(w1, n, Again, empty), result, before, messages);
        ReportsNothing(w, EndOfData, Again, Drain(w1, n, Again, empty), before, messages);
      }
    }
  }

  lemma ReportsNothing(w: Writer, a: Result, b: Result, o: Outcome, before: Bytes, messages: seq<Bytes>)
    requires a != Ok && b != Ok
    ensures Carries(w, a, o.writer, o.sent, before, messages) == Carries(w, b, o.writer, o.sent, before, messages)
  {
  }

  lemma SendRestGood(w: Writer, first: nat, second: nat, before: Bytes, messages: seq<Bytes>)
    requires Good(w) && w.state.Stopping? && Ready(w, before, messages)
    ensures Sent(w, SendRest(w, first, second), before, messages)
    ensures var o := SendRest(w, first, second);
      o.result != Error ==>
        && (o.result == if o.writer.state.Done? then EndOfData else Again)
        && (o.writer.state.Stopping? || o.writer.state.WritingStop?
            || o.writer.state == if w.bidirectional then ReadingFinish else Done)
  {
    hide SendStop, Drain, Stream;
    if w.output.data == [] {
      SendStopGood(w.(state := EncodingStop), first, before, messages);
    } else {
      DrainGoodStopping(w, first);
      var o := Drain(w, first, Again, EncodingStop);
      if o.result != Error {
        NothingEncoded(w, Again, before, messages);
        CarriesOn(w, w, o, Again, before, messages);
        if !o.writer.state.Stopping? {
          ReadyAfter(w, o, before, messages);
          SendStopGood(o.writer, second, before + o.sent, messages);
          var p := SendStop(o.writer, second);
          assert before + o.sent + p.sent == before + (o.sent + p.sent);
        }
      }
    }
  }

  lemma DrainGoodStopping(w: Writer, n: nat)
    requires Good(w) && w.state.Stopping? && w.output.data != []
    ensures var o := Drain(w, n, Again, EncodingStop);
      && (o.result == Error <==> n == 0)
      && (n > 0 ==>
            && o.result == Again && o.taken == 0 && Good(o.writer)
            && o.sent == w.output.data[..|o.sent|]
            && o.sent + o.writer.output.data == w.output.data
            && (|w.output.data| <= n <==> o.writer.output.data == [])
            && o.writer == w.(output := o.writer.output,
                              state := if o.writer.output.data == [] then EncodingStop else Stopping))
  {
  }

  lemma ReadyAfter(w: Writer, o: Outcome, before: Bytes, messages: seq<Bytes>)
    requires Ready(w, before, messages)
    requires o.writer.encoder == w.encoder && o.writer.bidirectional == w.bidirectional
    requires o.sent + o.writer.output.data == w.output.data
    ensures Ready(o.writer, before + o.sent, messages)
  {
    hide Stream;
    assert before + o.sent + o.writer.output.data == before + w.output.data;
  }

  /**
   A pop keeps the stream whole in every state but one: called in `stopping` with bytes
   pending and room for all of them, it hands out STOP in their place.
   */
  predicate Overwrites(w: Writer, len: nat) {
    w.state.Stopping? && w.output.data != [] && |w.output.data| <= len
  }

  lemma PopGood(w: Writer, len: Len, before: Bytes, messages: seq<Bytes>)
    requires Good(w) && !w.bidirectional && Ready(w, before, messages) && !Overwrites(w, len)
    ensures Sent(w, Pop(w, len), before, messages) && |Pop(w, len).sent| <= len
    ensures Pop(w, len).result == Ok ==>
      w.state.Encoding? && w.encoder.state.Frames? && w.encoder.dnstap != []
  {
    hide SendStop, SendFrames, Drain, Stream;
    match w.state
    case Stopping =>
      if w.output.data == [] {
        SendStopGood(w.(state := EncodingStop), len, before, messages);
        SendsAtMost(w.(state := EncodingStop), len);
      } else {
        DrainGoodStopping(w, len);
        NothingEncoded(w, Again, before, messages);
        CarriesOn(w, w, Drain(w, len, Again, EncodingStop), Again, before, messages);
        SendsAtMost(w, len);
      }
    case EncodingStop => SendStopGood(w, len, before, messages); SendsAtMost(w, len);
    case WritingStop => SendStopGood(w, len, before, messages); SendsAtMost(w, len);
    case Encoding => SendFramesGood(w, len, before, messages); SendsAtMost(w, len);
    case Writing => SendFramesGood(w, len, before, messages); SendsAtMost(w, len);
    case _ =>
  }

  lemma SendsAtMost(w: Writer, n: nat)
    requires Valid(w)
    ensures |Drain(w, n, Again, EncodingStop).sent| <= n
    ensures w.state.EncodingStop? || w.state.WritingStop? ==> |SendStop(w, n).sent| <= n
    ensures w.state.Encoding? || w.state.Writing? ==> |SendFrames(w, n).sent| <= n
  {
  }

  // ---- receiving ----

  lemma ActGood(w: Writer, o: D.Decoded)
    requires InStep(w) && TakesInput(w.state)
    requires w.output.Tidy() && w.output.data == [] && w.input.Valid() && w.input.data != []
    requires D.Plausible(o, |w.input.data|) && D.Follows(w.decoder, o)
    ensures var (result, w') :=
        if w.state.ReadingAccept? || w.state.DecodingAccept? then ActOnAccept(w, o) else ActOnFinish(w, o);
      result != Error ==>
        && Good(w')
        && w' == w.(state := w'.state, decoder := w'.decoder, input := w'.input)
        && result != Ok && result != HaveDnstap
  {
  }

  /** What the decoder holds once more: the run of what has been received. */
  lemma ReceiveGood(accepts: D.Accepts, w: Writer, data: Bytes)
    requires Good(w) && TakesInput(w.state) && w.input.data + data != [] && |data| <= w.input.Space()
    ensures var o := Receive(accepts, w, data);
      && o.sent == [] && o.taken == |data|
      && (o.result != Error ==>
            && Good(o.writer)
            && o.writer.encoder == w.encoder && o.writer.output == w.output
            && o.writer.bidirectional == w.bidirectional
            && o.result != Ok && o.result != HaveDnstap)
  {
    hide D.Decode;
    var w' := w.(input := w.input.Fill(data));
    D.DecodeFollows(accepts, w.decoder, w'.input.data);
    ActGood(w', D.Decode(accepts, w.decoder, w'.input.data));
  }
}
