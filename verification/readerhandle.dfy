/**
 `struct dnswire_reader` and its calls, in place.  Every method is proved to do exactly
 what ReaderSpec says, so all that is proved of ReaderSpec holds of it.
 */
module ReaderHandle {
  import opened Wire
  import opened Results
  import opened CodecHandles
  import opened BufferHandles
  import opened ReaderSpec
  import B = BufferSpec
  import D = DecoderSpec
  import E = EncoderSpec
  import RR = ReaderRuns

  class Handle {
    var state: ReaderState
    const decoder: Decoder
    const input: InBuffer
    var pushed: nat
    const encoder: Encoder
    const output: OutBuffer
    var allowBidirectional: bool
    var isBidirectional: bool

    ghost function Repr(): set<object>
      reads this, input, output
    {
      {this, decoder, input, input.buf, encoder, output, output.buf}
    }

    ghost predicate Ok()
      reads this, input, output
    {
      input.Ok() && output.Ok() && input.buf != output.buf
    }

    ghost function Model(): Reader
      requires Ok()
      reads this, decoder, input, input.buf, encoder, output, output.buf
    {
      Reader(state, decoder.Model(), input.Model(), encoder.Model(), output.Model(),
             allowBidirectional, isBidirectional)
    }

    /** What every call does to the objects: new buffers at most, and no others. */
    twostate predicate Stable()
      reads this, input, output
    {
      && Ok()
      && (input.buf == old(input.buf) || fresh(input.buf))
      && (output.buf == old(output.buf) || fresh(output.buf))
    }

    /** `dnswire_reader_init`, with the default sizes. */
    constructor ()
      ensures Ok() && fresh(Repr())
      ensures Model() == Reader(
        ReadingControl, D.Fresh, B.InBuf([], 0, 4096, 4096, 65536),
        E.Encoder(E.ControlStart, []), B.OutBuf([], 0, 4096, 4096, 65536), false, false)
    {
      hide InBuffer.Model, OutBuffer.Model;
      state, pushed, allowBidirectional, isBidirectional := ReadingControl, 0, false, false;
      decoder := new Decoder();
      input := new InBuffer(B.DEFAULT_SIZE, B.DEFAULT_SIZE, B.MAXIMUM_SIZE);
      encoder := new Encoder(E.ControlStart);
      output := new OutBuffer(B.DEFAULT_SIZE, B.DEFAULT_SIZE, B.MAXIMUM_SIZE);
    }

    method AllowBidirectional(allow: bool)
      requires Ok()
      modifies this, encoder
      ensures Ok() && Model() == old(Model()).(
        allowBidirectional := allow,
        encoder := old(encoder.Model()).(state := if allow then E.ControlAccept else E.ControlStart))
    {
      encoder.state := if allow then E.ControlAccept else E.ControlStart;
      allowBidirectional := allow;
    }

    method SetBufsize(size: nat) returns (result: Result)
      requires Ok() && 0 < size
      modifies Repr()
      ensures Stable() && (result, Model()) == ReaderSpec.SetBufsize(old(Model()), size)
    {
      hide InBuffer.Model, OutBuffer.Model;
      result := input.SetSize(size);
    }

    // ---- input ----

    method Consume(more: ReaderState, empty: ReaderState)
      requires Ok() && decoder.decoded <= input.left
      modifies this`state, input`at, input`left
      ensures Ok()
      ensures var r := old(Model()); Model() == ReaderSpec.Consume(r, r.decoder, decoder.decoded, more, empty)
    {
      hide InBuffer.Model, OutBuffer.Model, B.InBuf.Consume;
      input.Consume(decoder.decoded);
      state := if input.left == 0 then empty else more;
    }

    /** READY or ACCEPT has been read: whether to answer. */
    method Negotiate() returns (result: Result)
      requires Ok() && decoder.decoded <= input.left
      modifies this`state, this`isBidirectional, input`at, input`left
      ensures Ok()
      ensures (result, Model())
           == ReaderSpec.Act(old(Model()), D.Decoded(Bidirectional, decoder.Model(), decoder.decoded), true, false)
    {
      hide InBuffer.Model, OutBuffer.Model, B.InBuf.Consume, ReaderSpec.Consume;
      Consume(DecodingControl, ReadingControl);
      ghost var r := Model();
      if !allowBidirectional {
        return Error;
      }
      isBidirectional := true;
      assert Model() == r.(isBidirectional := true);
      if !decoder.readySupport {
        return Error;
      }
      state := EncodingAccept;
      return Again;
    }

    /** An incomplete item: make room for more of it, if that can be done. */
    method WaitForMore(reading: ReaderState, unpushed: bool) returns (result: Result)
      requires Ok() && (reading.ReadingControl? || reading.Reading?)
      modifies this`state, input, input.buf
      ensures Stable() && output.buf == old(output.buf)
      ensures (result, Model())
           == ReaderSpec.Act(old(Model()), D.Decoded(NeedMore, decoder.Model(), 0), reading.ReadingControl?, unpushed)
    {
      hide InBuffer.Model, OutBuffer.Model;
      var room := input.MakeRoom();
      if !room {
        return Error;
      }
      state := reading;
      return if unpushed then Again else NeedMore;
    }

    /** The end of the stream, or of the peer's half of it. */
    method Finish() returns (result: Result)
      requires Ok()
      modifies this`state
      ensures Ok()
      ensures (result, Model())
           == ReaderSpec.Act(old(Model()), D.Decoded(EndOfData, decoder.Model(), 0), true, false)
    {
      hide InBuffer.Model, OutBuffer.Model;
      if isBidirectional {
        state := EncodingFinish;
        return Again;
      }
      state := ReaderState.Done;
      return EndOfData;
    }

    /** What follows the decoder's answer, in either of the two decoding states. */
    method Act(answer: Result, control: bool, unpushed: bool) returns (result: Result)
      requires Ok()
      requires D.Plausible(D.Decoded(answer, decoder.Model(), decoder.decoded), input.left)
      modifies this`state, this`isBidirectional, input, input.buf
      ensures Stable() && output.buf == old(output.buf)
      ensures (result, Model())
           == ReaderSpec.Act(old(Model()), D.Decoded(answer, decoder.Model(), decoder.decoded), control, unpushed)
    {
      hide InBuffer.Model, OutBuffer.Model;
      var reading := if control then ReadingControl else Reading;
      match answer {
        case Bidirectional =>
          if !control {
            return Error;
          }
          result := Negotiate();
        case Again =>
          Consume(if control then DecodingControl else Decoding, reading);
          result := Again;
        case NeedMore => result := WaitForMore(reading, unpushed);
        case HaveDnstap =>
          Consume(Decoding, Reading);
          result := HaveDnstap;
        case EndOfData => result := Finish();
        case _ => result := Error;
      }
    }

    /** The spec's step starts from the decoder as it was, which only NeedMore keeps. */
    lemma ActFrom(r: Reader, o: D.Decoded, control: bool, unpushed: bool)
      requires o.size <= |r.input.data|
      requires o.result == NeedMore || o.result == Error ==> o.decoder == r.decoder
      ensures ReaderSpec.Act(r.(decoder := o.decoder), o, control, unpushed)
           == ReaderSpec.Act(r, o, control, unpushed)
    {
    }

    /** `memcpy` of `data` behind what is held, and one decoding. */
    method Receive(accepts: D.Accepts, data: Bytes, unpushed: bool) returns (result: Result)
      requires Ok() && RR.Good(Model()) && TakesInput(state)
      requires input.Model().data + data != [] && |data| <= input.Model().Space()
      modifies Repr()
      ensures Stable()
      ensures var o := ReaderSpec.Receive(accepts, old(Model()), data, unpushed);
        result == o.result && Model() == o.reader && o.taken == |data| && o.sent == []
      ensures pushed == old(pushed)
    {
      hide InBuffer.Model, OutBuffer.Model, D.Decode, ReaderSpec.Act, RR.InStep, ReaderSpec.Valid;
      var control := Control(state);
      input.Fill(data);
      ghost var held := Model();
      var answer := decoder.Decode(accepts, input.Held());
      ActFrom(held, D.Decoded(answer, decoder.Model(), decoder.decoded), control, unpushed);
      result := Act(answer, control, unpushed);
    }

    // ---- output ----

    /** `_encoding`, in the two states that begin with it. */
    method Encode() returns (result: Result)
      requires Ok() && RR.Good(Model()) && Writes(state)
      modifies Repr()
      ensures Stable() && pushed == old(pushed)
      ensures (result, Model()) == ReaderSpec.Encode(old(Model()))
    {
      hide InBuffer.Model, OutBuffer.Model, B.EncodeInto;
      if state.EncodingAccept? {
        var r := output.AppendItem(encoder);
        if r != Again {
          return Error;
        }
        state := WritingAccept;
      } else if state.EncodingFinish? {
        var r := output.AppendItem(encoder);
        if r != EndOfData {
          return Error;
        }
        state := WritingFinish;
      }
      return Again;
    }

    /** Up to `room` bytes leave, and the state follows the last of them. */
    method Emit(room: nat) returns (result: Result, sent: Bytes)
      requires Ok() && (state.WritingAccept? || state.WritingFinish?)
      modifies this`state, output`at, output`left
      ensures Ok() && pushed == old(pushed)
      ensures var o := ReaderSpec.Emit(old(Model()), room, old(state).WritingAccept?);
        result == o.result && Model() == o.reader && sent == o.sent && o.taken == 0 && |sent| <= room
    {
      hide InBuffer.Model, OutBuffer.Model, B.OutBuf.Drain;
      ghost var r := Model();
      var n := if output.left < room then output.left else room;
      sent := output.Take(n);
      assert Model() == r.(output := r.output.Drain(n));
      result := Again;
      if output.left == 0 {
        if state.WritingAccept? {
          state := ReadingControl;
        } else {
          state, result := ReaderState.Done, EndOfData;
        }
      }
    }

    // ---- calls ----

    /** The input states of push: copy what there is room for, and decode one item. */
    method PushInput(accepts: D.Accepts, data: Bytes) returns (result: Result)
      requires Ok() && RR.Good(Model()) && TakesInput(state) && pushed == 0
      modifies Repr()
      ensures Stable()
      ensures var o := ReaderSpec.Push(accepts, old(Model()), data, 0);
        result == o.result && Model() == o.reader && pushed == o.taken && o.sent == []
    {
      hide InBuffer.Model, OutBuffer.Model, ReaderSpec.Receive, ReaderSpec.Encode, ReaderSpec.Emit, RR.InStep, D.Decode;
      if ReadsInput(state) {
        if data == [] {
          return NeedMore;
        }
        var space := input.size - input.at - input.left;
        pushed := if space < |data| then space else |data|;
      }
      result := Receive(accepts, data[..pushed], pushed < |data|);
    }

    /** The output states: encode if that is still to be done, and hand out what fits. */
    method PushOutput(room: nat) returns (result: Result, sent: Bytes)
      requires Ok() && RR.Good(Model()) && Writes(state)
      modifies Repr()
      ensures Stable() && pushed == old(pushed) && |sent| <= room
      ensures var (encoded, r) := ReaderSpec.Encode(old(Model()));
        if encoded == Error then result == Error && sent == [] && Model() == r
        else
          var o := ReaderSpec.Emit(r, room, r.state.WritingAccept?);
          result == o.result && sent == o.sent && o.taken == 0 && Model() == o.reader
    {
      hide InBuffer.Model, OutBuffer.Model, ReaderSpec.Encode, ReaderSpec.Emit, RR.InStep;
      RR.EncodeValid(Model());
      var encoded := Encode();
      if encoded == Error {
        return Error, [];
      }
      result, sent := Emit(room);
    }

    /**
     `dnswire_reader_push`: what was taken of `data` is counted in `pushed`, and what there
     is to send is copied to the front of `out`, at most `room` bytes.
     */
    method Push(accepts: D.Accepts, data: Bytes, out: array<byte>, room: nat) returns (result: Result, written: nat)
      requires Ok() && RR.Good(Model()) && room <= out.Length && out !in Repr()
      modifies Repr(), out
      ensures Stable()
      ensures var o := ReaderSpec.Push(accepts, old(Model()), data, room);
        && result == o.result && Model() == o.reader && pushed == o.taken
        && written <= room && out[..written] == o.sent && out[written..] == old(out[..])[written..]
    {
      hide InBuffer.Model, OutBuffer.Model, ReaderSpec.Receive, ReaderSpec.Encode, ReaderSpec.Emit, RR.InStep, Valid;
      pushed, written := 0, 0;
      if TakesInput(state) {
        result := PushInput(accepts, data);
      } else if Writes(state) {
        var sent;
        result, sent := PushOutput(room);
        written := |sent|;
        Copy(out, 0, sent);
      } else {
        result := Error;
      }
    }

    /**
     `dnswire_reader_read`: `io` is what the transport would do, a read of up to
     `io.canRead` and a write of up to `io.canWrite` bytes.
     */
    method Read(accepts: D.Accepts, io: Transport) returns (result: Result, taken: nat, sent: Bytes)
      requires Ok() && RR.Good(Model())
      modifies Repr()
      ensures Stable() && pushed == old(pushed)
      ensures var o := ReaderSpec.Read(accepts, old(Model()), io);
        result == o.result && Model() == o.reader && taken == o.taken && sent == o.sent
    {
      hide InBuffer.Model, OutBuffer.Model, ReaderSpec.Receive, ReaderSpec.Encode, ReaderSpec.Emit, RR.InStep, D.Decode;
      taken, sent := 0, [];
      if TakesInput(state) {
        if ReadsInput(state) {
          var space := input.size - input.at - input.left;
          taken := if space < |io.canRead| then space else |io.canRead|;
          if taken == 0 {
            return Error, 0, [];
          }
        }
        result := Receive(accepts, io.canRead[..taken], false);
      } else if Writes(state) {
        RR.EncodeValid(Model());
        var encoded := Encode();
        if encoded == Error || io.canWrite == 0 {
          return Error, 0, [];
        }
        result, sent := Emit(io.canWrite);
      } else {
        result := Error;
      }
    }
  }
}
