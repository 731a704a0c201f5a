/**
 One sending call of a writer: exactly when it fails, and that otherwise bytes leave.
 */
module WriterSends {
  import opened Wire
  import opened Results
  import opened BufferSpec
  import opened WriterSpec
  import opened WriterRuns
  import opened Streams
  import D = DecoderSpec
  import E = EncoderSpec

  /**
   What a sending call cannot do: encode with no message set, encode an item that is over
   `max`, or encode STOP in too small a buffer, once its first write has made way for it.
   */
  predicate CannotEncode(w: Writer, first: nat) {
    || (WriterSpec.Encodes(w.state) && (!E.Encodes(w.encoder) || w.output.max < |E.NextItem(w.encoder)|))
    || (w.state.Stopping? && w.output.max < 12 && |w.output.data| <= first)
  }

  /** The item that is encoded, or else was encoded before, leaves at least in part. */
  predicate Leaves(o: Outcome) {
    o.result != Error ==> o.sent != []
  }

  lemma EncodeFails(w: Writer, draining: WriterState)
    requires Good(w) && WriterSpec.Encodes(w.state)
    ensures var (result, w') := Encode(w, draining);
      && (result == Error <==> !E.Encodes(w.encoder) || w.output.max < |E.NextItem(w.encoder)|)
      && (result != Error ==> w'.output.data == E.NextItem(w.encoder) != [] && result == E.ItemResult(w.encoder))
  {
    hide E.NextItem, InStep;
    EncodeIntoExact(w.encoder, w.output);
    if E.Encodes(w.encoder) {
      ItemNotEmpty(w.encoder);
    }
  }

  lemma ReadyFails(w: Writer, n: Positive)
    requires Good(w) && w.state.EncodingReady?
    ensures SendReady(w, n).result == Error <==> CannotEncode(w, n)
    ensures Leaves(SendReady(w, n))
  {
    hide Encode, E.NextItem, InStep;
    EncodeFails(w, Writing);
  }

  lemma FramesFail(w: Writer, n: Positive)
    requires Good(w) && (w.state.Encoding? || w.state.Writing?)
    ensures SendFrames(w, n).result == Error <==> CannotEncode(w, n)
    ensures Leaves(SendFrames(w, n))
  {
    hide Encode, E.NextItem, InStep;
    if w.state.Encoding? {
      EncodeFails(w, Writing);
    }
  }

  lemma StopFails(w: Writer, n: Positive)
    requires Good(w) && (w.state.EncodingStop? || w.state.WritingStop?)
    ensures SendStop(w, n).result == Error <==> w.state.EncodingStop? && w.output.max < 12
    ensures Leaves(SendStop(w, n))
  {
    hide Encode;
    E.ItemSizes();
    if w.state.EncodingStop? {
      EncodeFails(w, WritingStop);
    }
  }

  lemma RestFails(w: Writer, first: Positive, second: Positive)
    requires Good(w) && w.state.Stopping?
    ensures SendRest(w, first, second).result == Error <==> w.output.max < 12 && |w.output.data| <= first
    ensures Leaves(SendRest(w, first, second))
  {
    hide SendStop;
    if w.output.data == [] {
      StopFails(w.(state := EncodingStop), first);
    } else {
      DrainGoodStopping(w, first);
      var o := Drain(w, first, Again, EncodingStop);
      if !o.writer.state.Stopping? {
        StopFails(o.writer, second);
      }
    }
  }

  /** A sending call fails exactly when it cannot encode; otherwise at least one byte leaves. */
  lemma SendFails(accepts: D.Accepts, w: Writer, io: Transport)
    requires Good(w) && !TakesInput(w.state) && !w.state.Done? && !w.state.EncodingReady?
    requires 0 < io.first && 0 < io.second
    ensures Write(accepts, w, io).result == Error <==> CannotEncode(w, io.first)
    ensures Leaves(Write(accepts, w, io))
  {
    hide SendFrames, SendStop, SendRest, E.NextItem;
    if w.state.Stopping? {
      RestFails(w, io.first, io.second);
    } else if w.state.Encoding? || w.state.Writing? {
      FramesFail(w, io.first);
    } else {
      StopFails(w, io.first);
      StopIsNext(w);
    }
  }

  lemma StopIsNext(w: Writer)
    requires Good(w) && (w.state.EncodingStop? || w.state.WritingStop?)
    ensures w.state.EncodingStop? ==> E.Encodes(w.encoder) && |E.NextItem(w.encoder)| == 12
    ensures !w.state.Encoding? && !w.state.Writing? && !w.state.EncodingReady?
  {
    E.ItemSizes();
  }
}
