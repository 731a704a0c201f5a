/**
 `struct dnswire_writer` and its calls, in place.  Every method is proved to do exactly
 what WriterSpec says, so all that is proved of WriterSpec holds of it.
 */
module WriterHandle {
  import opened Wire
  import opened Results
  import opened CodecHandles
  import opened BufferHandles
  import opened WriterSpec
  import B = BufferSpec
  import D = DecoderSpec
  import E = EncoderSpec
  import WR = WriterRuns

  class Handle {
    var state: WriterState
    const encoder: Encoder
    const output: OutBuffer
    const decoder: Decoder
    const input: InBuffer
    var bidirectional: bool

    ghost function Repr(): set<object>
      reads this, input, output
    {
      {this, decoder, input, input.buf, encoder, output, output.buf}
    }

    ghost predicate Ok()
      reads this, input, output
    {
      input.Ok() && output.Ok() && input.buf != output.buf
    }

    ghost function Model(): Writer
      requires Ok()
      reads this, decoder, input, input.buf, encoder, output, output.buf
    {
      Writer(state, encoder.Model(), output.Model(), decoder.Model(), input.Model(), bidirectional)
    }

    /** What every call does to the objects: new buffers at most, and no others. */
    twostate predicate Stable()
      reads this, input, output
    {
      && Ok()
      && (input.buf == old(input.buf) || fresh(input.buf))
      && (output.buf == old(output.buf) || fresh(output.buf))
    }

    /** `dnswire_writer_init`, with the default sizes. */
    constructor ()
      ensures Ok() && fresh(Repr())
      ensures Model() == Writer(
        WriterState.Encoding, E.Encoder(E.ControlStart, []), B.OutBuf([], 0, 4096, 4096, 65536),
        D.Fresh, B.InBuf([], 0, 4096, 4096, 65536), false)
    {
      hide InBuffer.Model, OutBuffer.Model;
      state, bidirectional := WriterState.Encoding, false;
      encoder := new Encoder(E.ControlStart);
      output := new OutBuffer(B.DEFAULT_SIZE, B.DEFAULT_SIZE, B.MAXIMUM_SIZE);
      decoder := new Decoder();
      input := new InBuffer(B.DEFAULT_SIZE, B.DEFAULT_SIZE, B.MAXIMUM_SIZE);
    }

    method SetBidirectional(both: bool)
      requires Ok()
      modifies this, encoder
      ensures Ok() && Model() == old(Model()).(
        bidirectional := both,
        state := if both then EncodingReady else WriterState.Encoding,
        encoder := old(encoder.Model()).(state := if both then E.ControlReady else E.ControlStart))
    {
      if both {
        encoder.state, state := E.ControlReady, EncodingReady;
      } else {
        encoder.state, state := E.ControlStart, WriterState.Encoding;
      }
      bidirectional := both;
    }

    /** `dnswire_writer_set_dnstap` */
    method SetDnstap(m: E.Message)
      requires Ok()
      modifies encoder
      ensures Ok() && Model() == WriterSpec.SetDnstap(old(Model()), m)
    {
      encoder.SetDnstap(m);
    }

    /** `dnswire_writer_stop` */
    method Stop() returns (result: Result)
      requires Ok()
      modifies this`state, encoder
      ensures Ok() && (result, Model()) == WriterSpec.Stop(old(Model()))
    {
      result := encoder.Stop();
      if result == Result.Ok {
        state := Stopping;
      }
    }

    /** `dnswire_writer_set_bufsize`, for the sizes that lose nothing. */
    method SetBufsize(size: nat) returns (result: Result)
      requires Ok() && 0 < size && !output.Model().Displaces(size)
      modifies Repr()
      ensures Stable() && (result, Model()) == WriterSpec.SetBufsize(old(Model()), size)
    {
      hide InBuffer.Model, OutBuffer.Model;
      result := output.SetSize(size);
    }

    // ---- output ----

    /** `_encoding`, and the state its bytes are drained in. */
    method Encode(draining: WriterState) returns (result: Result)
      requires Ok() && Valid(Model()) && output.left == 0
      modifies this`state, encoder, output, output.buf
      ensures Stable() && input.buf == old(input.buf)
      ensures (result, Model()) == WriterSpec.Encode(old(Model()), draining)
    {
      hide InBuffer.Model, OutBuffer.Model, B.EncodeInto;
      result := output.AppendItem(encoder);
      if result != Error && output.left != 0 {
        state := draining;
      }
    }

    /** A write of up to `n` bytes. */
    method Drain(n: nat, outcome: Result, empty: WriterState) returns (result: Result, sent: Bytes)
      requires Ok()
      modifies this`state, output`at, output`left
      ensures Ok()
      ensures var o := WriterSpec.Drain(old(Model()), n, outcome, empty);
        result == o.result && Model() == o.writer && sent == o.sent && o.taken == 0
    {
      hide InBuffer.Model, OutBuffer.Model;
      var k := if n < output.left then n else output.left;
      if k == 0 {
        return Error, [];
      }
      sent := output.Take(k);
      if output.left == 0 {
        state := empty;
      }
      result := outcome;
    }

    method SendReady(n: nat) returns (result: Result, sent: Bytes)
      requires Ok() && Valid(Model()) && (state.EncodingReady? || state.WritingReady?)
      modifies this`state, encoder, output, output.buf
      ensures Stable() && input.buf == old(input.buf)
      ensures var o := WriterSpec.SendReady(old(Model()), n);
        result == o.result && Model() == o.writer && sent == o.sent && o.taken == 0
    {
      hide InBuffer.Model, OutBuffer.Model, WriterSpec.Encode, WriterSpec.Drain;
      sent, result := [], Again;
      if state.EncodingReady? {
        result := Encode(Writing);
      }
      if result != Error && output.left != 0 {
        result, sent := Drain(n, result, ReadingAccept);
      }
    }

    method SendFrames(n: nat) returns (result: Result, sent: Bytes)
      requires Ok() && Valid(Model()) && (state.Encoding? || state.Writing?)
      modifies this`state, encoder, output, output.buf
      ensures Stable() && input.buf == old(input.buf)
      ensures var o := WriterSpec.SendFrames(old(Model()), n);
        result == o.result && Model() == o.writer && sent == o.sent && o.taken == 0
    {
      hide InBuffer.Model, OutBuffer.Model, WriterSpec.Encode, WriterSpec.Drain;
      sent, result := [], Again;
      if state.Encoding? {
        result := Encode(Writing);
      }
      if result != Error && output.left != 0 {
        result, sent := Drain(n, result, WriterState.Encoding);
      }
    }

    method SendStop(n: nat) returns (result: Result, sent: Bytes)
      requires Ok() && Valid(Model()) && (state.EncodingStop? || state.WritingStop?)
      modifies this`state, encoder, output, output.buf
      ensures Stable() && input.buf == old(input.buf)
      ensures var o := WriterSpec.SendStop(old(Model()), n);
        result == o.result && Model() == o.writer && sent == o.sent && o.taken == 0
    {
      hide InBuffer.Model, OutBuffer.Model, WriterSpec.Encode, WriterSpec.Drain;
      sent, result := [], EndOfData;
      if state.EncodingStop? {
        result := Encode(WritingStop);
      }
      if result == EndOfData {
        result, sent := Drain(n, Again, if bidirectional then ReadingFinish else WriterState.Done);
        if result != Error && state.Done? {
          result := EndOfData;
        }
      }
    }

    method SendRest(first: nat, second: nat) returns (result: Result, sent: Bytes)
      requires Ok() && Valid(Model()) && state.Stopping?
      modifies this`state, encoder, output, output.buf
      ensures Stable() && input.buf == old(input.buf)
      ensures var o := WriterSpec.SendRest(old(Model()), first, second);
        result == o.result && Model() == o.writer && sent == o.sent && o.taken == 0
    {
      hide InBuffer.Model, OutBuffer.Model, WriterSpec.SendStop, WriterSpec.Drain;
      if output.left == 0 {
        state := EncodingStop;
        result, sent := SendStop(first);
      } else {
        StopAfterDrain(Model(), first);
        result, sent := Drain(first, Again, EncodingStop);
        if result != Error && !state.Stopping? {
          var more;
          result, more := SendStop(second);
          sent := sent + more;
        }
      }
    }

    lemma StopAfterDrain(w: Writer, n: nat)
      requires Valid(w) && w.state.Stopping? && w.output.data != []
      ensures var o := WriterSpec.Drain(w, n, Again, EncodingStop);
        o.result != Error && !o.writer.state.Stopping? ==>
          o.writer.state.EncodingStop? && Valid(o.writer)
    {
    }

    // ---- input ----

    method WaitForMore() returns (result: Result)
      requires Ok()
      modifies this`state, input, input.buf
      ensures Stable() && output.buf == old(output.buf)
      ensures (result, Model()) == WriterSpec.WaitForMore(old(Model()))
    {
      hide InBuffer.Model, OutBuffer.Model;
      var room := input.MakeRoom();
      if !room {
        return Error;
      }
      state := ReadingAccept;
      result := NeedMore;
    }

    method Consume()
      requires Ok() && decoder.decoded <= input.left
      modifies input`at, input`left
      ensures Ok() && Model() == WriterSpec.Consume(old(Model()), decoder.Model(), decoder.decoded)
    {
      hide InBuffer.Model, OutBuffer.Model, B.InBuf.Consume;
      input.Consume(decoder.decoded);
    }

    method ActOnAccept(answer: Result) returns (result: Result)
      requires Ok() && decoder.decoded <= input.left
      modifies this`state, input, input.buf
      ensures Stable() && output.buf == old(output.buf)
      ensures (result, Model())
           == WriterSpec.ActOnAccept(old(Model()), D.Decoded(answer, decoder.Model(), decoder.decoded))
    {
      hide InBuffer.Model, OutBuffer.Model, WriterSpec.WaitForMore, B.InBuf.Consume;
      match answer {
        case Bidirectional =>
          Consume();
          if !decoder.acceptSupport {
            return Error;
          }
          state := WriterState.Encoding;
          return Again;
        case Again =>
          Consume();
          state := if input.left == 0 then ReadingAccept else DecodingAccept;
          return Again;
        case NeedMore => result := WaitForMore();
        case _ => result := Error;
      }
    }

    method ActOnFinish(answer: Result) returns (result: Result)
      requires Ok()
      modifies this`state, input, input.buf
      ensures Stable() && output.buf == old(output.buf)
      ensures (result, Model())
           == WriterSpec.ActOnFinish(old(Model()), D.Decoded(answer, decoder.Model(), decoder.decoded))
    {
      hide InBuffer.Model, OutBuffer.Model, WriterSpec.WaitForMore;
      match answer {
        case EndOfData =>
          state := WriterState.Done;
          return EndOfData;
        case NeedMore => result := WaitForMore();
        case _ => result := Error;
      }
    }

    lemma ActFrom(w: Writer, o: D.Decoded)
      requires o.size <= |w.input.data|
      requires o.result == NeedMore ==> o.decoder == w.decoder
      ensures WriterSpec.ActOnAccept(w.(decoder := o.decoder), o) == WriterSpec.ActOnAccept(w, o)
      ensures WriterSpec.ActOnFinish(w.(decoder := o.decoder), o) == WriterSpec.ActOnFinish(w, o)
    {
    }

    /** `memcpy` of `data` behind what is held, and one decoding. */
    method Receive(accepts: D.Accepts, data: Bytes) returns (result: Result)
      requires Ok() && TakesInput(state)
      requires input.Model().data + data != [] && |data| <= input.Model().Space()
      modifies this`state, decoder, input, input.buf
      ensures Stable() && output.buf == old(output.buf)
      ensures var o := WriterSpec.Receive(accepts, old(Model()), data);
        result == o.result && Model() == o.writer && o.taken == |data| && o.sent == []
    {
      hide InBuffer.Model, OutBuffer.Model, D.Decode, WriterSpec.ActOnAccept, WriterSpec.ActOnFinish;
      input.Fill(data);
      ghost var held := Model();
      var answer := decoder.Decode(accepts, input.Held());
      ActFrom(held, D.Decoded(answer, decoder.Model(), decoder.decoded));
      if state.ReadingAccept? || state.DecodingAccept? {
        result := ActOnAccept(answer);
      } else {
        result := ActOnFinish(answer);
      }
    }

    method ReceiveSome(accepts: D.Accepts, canRead: Bytes) returns (result: Result, taken: nat)
      requires Ok() && Valid(Model()) && TakesInput(state)
      modifies this`state, decoder, input, input.buf
      ensures Stable() && output.buf == old(output.buf)
      ensures var o := WriterSpec.ReceiveSome(accepts, old(Model()), canRead);
        result == o.result && Model() == o.writer && taken == o.taken && o.sent == []
    {
      hide InBuffer.Model, OutBuffer.Model, WriterSpec.Receive;
      taken := 0;
      if ReadsInput(state) {
        var space := input.size - input.at - input.left;
        taken := if space < |canRead| then space else |canRead|;
        if taken == 0 {
          return Error, 0;
        }
      }
      result := Receive(accepts, canRead[..taken]);
    }

    // ---- calls ----

    method SendReadyAndWait(accepts: D.Accepts, io: Transport) returns (result: Result, sent: Bytes, taken: nat)
      requires Ok() && WR.Good(Model()) && state.EncodingReady?
      modifies Repr()
      ensures Stable()
      ensures var o := WriterSpec.SendReadyAndWait(accepts, old(Model()), io);
        result == o.result && Model() == o.writer && sent == o.sent && taken == o.taken
    {
      hide InBuffer.Model, OutBuffer.Model, WriterSpec.SendReady, WriterSpec.ReceiveSome, WR.Stream, E.ReadyBytes;
      ghost var w := Model();
      WR.SendReadyGood(w, io.first, WR.Stream(true, E.ControlReady, []), []);
      result, sent := SendReady(io.first);
      taken := 0;
      if result != Error && state.ReadingAccept? {
        result, taken := ReceiveSome(accepts, io.canRead);
      }
    }

    /** `dnswire_writer_write`, `io` being what the transport would do. */
    method Write(accepts: D.Accepts, io: Transport) returns (result: Result, sent: Bytes, taken: nat)
      requires Ok() && WR.Good(Model())
      modifies Repr()
      ensures Stable()
      ensures var o := WriterSpec.Write(accepts, old(Model()), io);
        result == o.result && Model() == o.writer && sent == o.sent && taken == o.taken
    {
      hide InBuffer.Model, OutBuffer.Model, WriterSpec.SendReadyAndWait, WriterSpec.ReceiveSome, WriterSpec.SendRest, WriterSpec.SendStop,
        WriterSpec.SendFrames;
      sent, taken := [], 0;
      match state {
        case EncodingReady => result, sent, taken := SendReadyAndWait(accepts, io);
        case Encoding => result, sent := SendFrames(io.first);
        case Writing => result, sent := SendFrames(io.first);
        case Stopping => result, sent := SendRest(io.first, io.second);
        case EncodingStop => result, sent := SendStop(io.first);
        case WritingStop => result, sent := SendStop(io.first);
        case Done => result := Error;
        case WritingReady =>
        case _ => result, taken := ReceiveSome(accepts, io.canRead);
      }
    }

    /** Pending bytes are copied to the front of `data`. */
    method PopPending(data: array<byte>, len: Len) returns (sent: Bytes)
      requires Ok() && Valid(Model()) && state.Stopping? && output.left != 0
      requires len <= data.Length && data !in Repr()
      modifies this`state, output`at, output`left, data
      ensures Ok()
      ensures var o := WriterSpec.Drain(old(Model()), len, Again, EncodingStop);
        o.result == Again && Model() == o.writer && sent == o.sent && data[..|sent|] == sent
    {
      hide InBuffer.Model, OutBuffer.Model, WriterSpec.Drain;
      DrainFits(Model(), len);
      var result;
      result, sent := Drain(len, Again, EncodingStop);
      Copy(data, 0, sent);
    }

    /** `stopping`: what is pending is copied to `data`; the caller of this copies `sent` there. */
    method PopRest(data: array<byte>, len: Len) returns (result: Result, sent: Bytes)
      requires Ok() && Valid(Model()) && !bidirectional && state.Stopping?
      requires len <= data.Length && data !in Repr()
      modifies this`state, encoder, output, output.buf, data
      ensures Stable() && input.buf == old(input.buf)
      ensures var o := WriterSpec.Pop(old(Model()), len);
        result == o.result && Model() == o.writer && sent == o.sent
    {
      hide InBuffer.Model, OutBuffer.Model, WriterSpec.SendStop, WriterSpec.Drain;
      if output.left != 0 {
        StopAfterDrain(Model(), len);
        sent := PopPending(data, len);
        if state.Stopping? {
          return Again, sent;
        }
      } else {
        state := EncodingStop;
      }
      result, sent := SendStop(len);
    }

    lemma DrainFits(w: Writer, len: Len)
      requires Valid(w) && w.state.Stopping? && w.output.data != []
      ensures var o := WriterSpec.Drain(w, len, Again, EncodingStop); |o.sent| <= len && o.result == Again
    {
    }

    /** The switch over the states; `sent` is still to be copied to `data`. */
    method PopSent(data: array<byte>, len: Len) returns (result: Result, sent: Bytes)
      requires Ok() && Valid(Model()) && !bidirectional
      requires len <= data.Length && data !in Repr()
      modifies this`state, encoder, output, output.buf, data
      ensures Stable() && input.buf == old(input.buf)
      ensures var o := WriterSpec.Pop(old(Model()), len);
        result == o.result && Model() == o.writer && sent == o.sent
    {
      hide InBuffer.Model, OutBuffer.Model, WriterSpec.SendStop, WriterSpec.SendFrames, WriterSpec.Drain, B.EncodeInto;
      match state {
        case Encoding => result, sent := SendFrames(len);
        case Writing => result, sent := SendFrames(len);
        case Stopping => result, sent := PopRest(data, len);
        case EncodingStop => result, sent := SendStop(len);
        case WritingStop => result, sent := SendStop(len);
        case _ => result, sent := Error, [];
      }
    }

    /**
     `dnswire_writer_pop` in one direction: up to `len` bytes are copied to the front of
     `data`, and `popped` says how many.
     */
    method Pop(data: array<byte>, len: Len) returns (result: Result, popped: nat)
      requires Ok() && Valid(Model()) && !bidirectional
      requires len <= data.Length && data !in Repr()
      modifies this`state, encoder, output, output.buf, data
      ensures Stable()
      ensures var o := WriterSpec.Pop(old(Model()), len);
        && result == o.result && Model() == o.writer
        && popped <= len && data[..popped] == o.sent
    {
      hide InBuffer.Model, OutBuffer.Model, WriterSpec.Pop;
      PopFits(Model(), len);
      var sent;
      result, sent := PopSent(data, len);
      popped := |sent|;
      Copy(data, 0, sent);
    }

    lemma PopFits(w: Writer, len: Len)
      requires Valid(w) && !w.bidirectional
      ensures |WriterSpec.Pop(w, len).sent| <= len
    {
      hide B.EncodeInto;
    }
  }
}
