/**
 What every reader keeps, whatever bytes arrive and however it is called: its buffers stay
 in order, its three state machines stay in step, and no byte is lost, repeated or moved.
 */
module ReaderRuns {
  import opened Wire
  import opened Results
  import opened BufferSpec
  import opened ReaderSpec
  import D = DecoderSpec
  import E = EncoderSpec

  // ---- buffers ----

  lemma ActValid(r: Reader, o: D.Decoded, control: bool, unpushed: bool)
    requires r.input.Valid() && r.output.Valid() && r.output.data == [] && r.output.at == 0
    requires r.input.data != [] && D.Plausible(o, |r.input.data|)
    ensures var (result, r') := Act(r, o, control, unpushed);
      result != Error ==> Valid(r')
  {
  }

  lemma ReceiveValid(accepts: D.Accepts, r: Reader, data: Bytes, unpushed: bool)
    requires Valid(r) && TakesInput(r.state)
    requires r.input.data + data != [] && |data| <= r.input.Space()
    ensures var o := Receive(accepts, r, data, unpushed);
      o.result != Error ==> Valid(o.reader)
  {
    var r' := r.(input := r.input.Fill(data));
    ActValid(r', D.Decode(accepts, r'.decoder, r'.input.data), Control(r.state), unpushed);
  }

  lemma EncodeValid(r: Reader)
    requires Valid(r) && Writes(r.state)
    ensures var (result, r') := Encode(r);
      result != Error ==> Valid(r') && (r'.state.WritingAccept? || r'.state.WritingFinish?)
  {
    if r.state.EncodingAccept? || r.state.EncodingFinish? {
      EncodeIntoExact(r.encoder, r.output);
      E.ItemSizes();
    }
  }

  lemma EmitValid(r: Reader, room: nat)
    requires Valid(r) && (r.state.WritingAccept? || r.state.WritingFinish?)
    ensures var o := Emit(r, room, r.state.WritingAccept?);
      Valid(o.reader) && |o.sent| <= room
  {
  }

  /** Every call that does not fail leaves the buffers in order. */
  lemma PushValid(accepts: D.Accepts, r: Reader, data: Bytes, room: nat)
    requires Valid(r)
    ensures var o := Push(accepts, r, data, room);
      && o.taken <= |data| && |o.sent| <= room
      && (o.result != Error ==> Valid(o.reader))
  {
    if TakesInput(r.state) {
      if Decodes(r.state) || data != [] {
        var n := PushCount(r, |data|);
        ReceiveValid(accepts, r, data[..n], n < |data|);
      }
    } else if Writes(r.state) {
      EncodeValid(r);
      var (result, r') := Encode(r);
      if result != Error {
        EmitValid(r', room);
      }
    }
  }


  // ---- the three machines ----

  /** Which decoder and encoder states go with a reader state. */
  predicate InStep(r: Reader) {
    && (r.isBidirectional ==> r.allowBidirectional && r.decoder.readySupport)
    && (r.decoder.readySupport && !r.isBidirectional ==> r.decoder.state.CheckingReady?)
    && r.encoder.state == EncoderStateOf(r)
    && match r.state {
         case ReadingControl => Opening(r)
         case DecodingControl => Opening(r)
         case Reading => r.decoder.state.ReadingFrames?
         case Decoding => r.decoder.state.ReadingFrames?
         case Done => r.decoder.state.Done?
         case EncodingAccept => r.isBidirectional && r.decoder.state.ReadingStart?
         case WritingAccept => r.isBidirectional && r.decoder.state.ReadingStart?
         case _ => r.isBidirectional && r.decoder.state.Done?
       }
  }

  predicate Opening(r: Reader) {
    match r.decoder.state
    case CheckingStart => true
    case ReadingFrames => true
    case ReadingStart => r.isBidirectional
    case CheckingFinish => false
    case Done => false
    case _ => !r.isBidirectional
  }

  function EncoderStateOf(r: Reader): E.EncoderState {
    if !r.allowBidirectional then E.ControlStart
    else if !r.isBidirectional || r.state.EncodingAccept? then E.ControlAccept
    else if r.state.WritingFinish? || r.state.Done? then E.Done
    else E.ControlFinish
  }

  /** A reader as found between two calls. */
  predicate Good(r: Reader) {
    Valid(r) && InStep(r)
  }

  lemma InitGood(size: nat, inc: nat, max: nat, outSize: nat, outInc: nat, outMax: nat, bidirectional: bool)
    requires 0 < size <= max && 0 < inc && 0 < outSize <= outMax && 0 < outInc
    ensures Good(Init(size, inc, max, outSize, outInc, outMax, bidirectional))
  {
  }

  lemma ActInStep(r: Reader, o: D.Decoded, unpushed: bool)
    requires InStep(r) && TakesInput(r.state)
    requires D.Plausible(o, |r.input.data|) && D.Follows(r.decoder, o)
    ensures var (result, r') := Act(r, o, Control(r.state), unpushed);
      result != Error ==> InStep(r')
  {
  }

  lemma ReceiveInStep(accepts: D.Accepts, r: Reader, data: Bytes, unpushed: bool)
    requires InStep(r) && TakesInput(r.state) && r.input.data + data != []
    ensures var o := Receive(accepts, r, data, unpushed);
      o.result != Error ==> InStep(o.reader)
  {
    var r' := r.(input := r.input.Fill(data));
    D.DecodeFollows(accepts, r.decoder, r'.input.data);
    ActInStep(r', D.Decode(accepts, r.decoder, r'.input.data), unpushed);
  }

  lemma WriteInStep(r: Reader, room: nat)
    requires Good(r) && Writes(r.state)
    ensures var (result, r') := Encode(r);
      result != Error ==> InStep(r') && InStep(Emit(r', room, r'.state.WritingAccept?).reader)
  {
    if r.state.EncodingAccept? || r.state.EncodingFinish? {
      EncodeIntoExact(r.encoder, r.output);
    }
  }

  /** ACCEPT and FINISH fail to be encoded for want of space, and for nothing else. */
  lemma AnswerEncodes(r: Reader)
    requires Good(r) && Writes(r.state)
    ensures Encode(r).0 == Error <==>
      || (r.state.EncodingAccept? && r.output.max < 42)
      || (r.state.EncodingFinish? && r.output.max < 12)
  {
    E.ItemSizes();
    if r.state.EncodingAccept? || r.state.EncodingFinish? {
      EncodeIntoExact(r.encoder, r.output);
    }
  }

  lemma PushGood(accepts: D.Accepts, r: Reader, data: Bytes, room: nat)
    requires Good(r)
    ensures var o := Push(accepts, r, data, room);
      o.taken <= |data| && |o.sent| <= room && (o.result != Error ==> Good(o.reader))
  {
    PushValid(accepts, r, data, room);
    if TakesInput(r.state) {
      if Decodes(r.state) || data != [] {
        var n := PushCount(r, |data|);
        ReceiveInStep(accepts, r, data[..n], n < |data|);
      }
    } else if Writes(r.state) {
      WriteInStep(r, room);
    }
  }

  // ---- push and read ----

  /** The transport can do what the call wants of it. */
  predicate Offers(r: Reader, io: Transport) {
    && (ReadsInput(r.state) ==> io.canRead != [])
    && (Writes(r.state) ==> 0 < io.canWrite)
  }

  /** The next call asks for input, and there is nowhere to read it into. */
  predicate NoRoom(r: Reader)
    requires r.input.Valid()
  {
    ReadsInput(r.state) && r.input.Space() == 0
  }

  /**
   Pulling from a transport and being pushed to are one machine, but for this: a read with
   no room in the buffer is an error whatever the transport, where a push makes room.  Given
   room and a transport that moves something, a read is the push of exactly the bytes that
   call took, with room for exactly the bytes it sent.
   */
  lemma ReadIsPush(accepts: D.Accepts, r: Reader, io: Transport)
    requires Good(r)
    ensures var o := Read(accepts, r, io);
      if !Offers(r, io) || NoRoom(r) then o.result == Error
      else
        && o.taken == PushCount(r, |io.canRead|)
        && (o.result == Error ==> Push(accepts, r, io.canRead[..o.taken], 0).result == Error)
        && (o.result != Error ==> o == Push(accepts, r, io.canRead[..o.taken], |o.sent|))
  {
    var o := Read(accepts, r, io);
    if TakesInput(r.state) {
      var n := PushCount(r, |io.canRead|);
      assert io.canRead[..n][..n] == io.canRead[..n];
    } else if Writes(r.state) {
      EncodeValid(r);
    }
  }

  lemma ReadGood(accepts: D.Accepts, r: Reader, io: Transport)
    requires Good(r)
    ensures var o := Read(accepts, r, io);
      o.result != Error ==> o.taken <= |io.canRead| && Good(o.reader)
  {
    ReadIsPush(accepts, r, io);
    var o := Read(accepts, r, io);
    if o.result != Error {
      PushGood(accepts, r, io.canRead[..o.taken], |o.sent|);
    }
  }

  lemma SetBufsizeGood(r: Reader, size: nat)
    requires Good(r) && 0 < size
    ensures var (result, r') := SetBufsize(r, size);
      && Good(r') && r'.input.data == r.input.data
      && (result == Ok <==> |r.input.data| <= size <= r.input.max)
      && r' == r.(input := r'.input)
  {
  }
}
