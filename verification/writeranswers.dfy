/**
 What a writer's answers mean: for every call, its result, the bytes it hands out and takes,
 and the state and buffers it leaves behind.
 */
module WriterAnswers {
  import opened Wire
  import opened Results
  import opened BufferSpec
  import opened WriterSpec
  import opened WriterRuns
  import opened WriterSends
  import opened Streams
  import D = DecoderSpec
  import E = EncoderSpec

  // ---- output ----

  /** What the next bytes to leave are: an item still to be encoded, or the rest of one. */
  function Due(w: Writer): Bytes {
    if WriterSpec.Encodes(w.state) then E.NextItem(w.encoder) else w.output.data
  }

  /** The size the buffer has: grown to the first that fits, if there was an item to encode. */
  ghost predicate Grown(w: Writer, size: nat) {
    if WriterSpec.Encodes(w.state) then FirstFit(w.output.size, w.output.inc, w.output.max, |Due(w)|, size)
    else size == w.output.size
  }

  /** As much leaves as the transport takes; the state is `empty` once nothing is left, and else `more`. */
  ghost predicate Hands(w: Writer, n: nat, o: Outcome, more: WriterState, empty: WriterState) {
    && o.taken == 0 && HandsOut(Due(w), n, o.sent, o.writer.output.data)
    && o.writer.state == (if o.sent == Due(w) then empty else more)
    && o.writer.encoder == (if WriterSpec.Encodes(w.state) then E.AfterItem(w.encoder) else w.encoder)
    && o.writer == w.(state := o.writer.state, encoder := o.writer.encoder, output := o.writer.output)
    && o.writer.output.inc == w.output.inc && o.writer.output.max == w.output.max && Grown(w, o.writer.output.size)
    && o.writer.output.at
       == (if o.sent == Due(w) then 0 else if WriterSpec.Encodes(w.state) then |Due(w)| else w.output.at)
  }

  lemma EncodeDue(w: Writer, draining: WriterState)
    requires Good(w) && WriterSpec.Encodes(w.state)
    ensures var (result, w') := Encode(w, draining);
      result != Error ==>
        && w'.output.data == Due(w) != [] && w'.output.at == |Due(w)| && result == E.ItemResult(w.encoder)
        && w'.output.inc == w.output.inc && w'.output.max == w.output.max && Grown(w, w'.output.size)
        && w'.encoder == E.AfterItem(w.encoder)
        && w' == w.(state := draining, encoder := w'.encoder, output := w'.output)
  {
    hide E.NextItem, E.AfterItem, E.ItemResult, InStep, FirstFit;
    EncodeIntoExact(w.encoder, w.output);
    if E.Encodes(w.encoder) {
      ItemNotEmpty(w.encoder);
    }
    assert [] + E.NextItem(w.encoder) == E.NextItem(w.encoder);
  }

  /** A write out of a buffer that holds what is due. */
  predicate Drains(w: Writer, n: nat, o: Outcome, empty: WriterState) {
    && o.taken == 0 && HandsOut(w.output.data, n, o.sent, o.writer.output.data)
    && o.writer == w.(
         state := if o.sent == w.output.data then empty else w.state,
         output := w.output.(data := o.writer.output.data, at := if o.sent == w.output.data then 0 else w.output.at))
  }

  lemma DrainDrains(w: Writer, n: Positive, result: Result, empty: WriterState)
    requires w.output.data != [] && result != Error
    ensures var o := Drain(w, n, result, empty);
      o.result == result && o.sent != [] && Drains(w, n, o, empty)
  {
    var data, o := w.output.data, Drain(w, n, result, empty);
    assert data == data[..|o.sent|] + data[|o.sent|..];
    assert o.sent == data ==> data[|data|..] == [];
  }

  lemma EncodedDrains(w: Writer, w1: Writer, n: nat, o: Outcome, empty: WriterState)
    requires WriterSpec.Encodes(w.state) && Drains(w1, n, o, empty)
    requires w1.output.data == Due(w) && w1.output.at == |Due(w)| && w1.encoder == E.AfterItem(w.encoder)
    requires w1.output.inc == w.output.inc && w1.output.max == w.output.max && Grown(w, w1.output.size)
    requires w1 == w.(state := w1.state, encoder := w1.encoder, output := w1.output)
    ensures Hands(w, n, o, w1.state, empty)
  {
    hide E.NextItem, E.AfterItem, FirstFit;
  }

  lemma JustDrains(w: Writer, n: nat, o: Outcome, empty: WriterState)
    requires !WriterSpec.Encodes(w.state) && Drains(w, n, o, empty)
    ensures Hands(w, n, o, w.state, empty)
  {
  }

  /** READY: `again`, and on to ACCEPT only when all of it has left; otherwise into `writing`. */
  lemma ReadySays(w: Writer, n: Positive)
    requires Good(w) && w.state.EncodingReady?
    ensures var o := SendReady(w, n);
      o.result != Error ==> o.result == Again && Hands(w, n, o, Writing, ReadingAccept)
  {
    hide Encode, Drain, Drains, Hands, Due, Grown;
    EncodeDue(w, Writing);
    var (result, w1) := Encode(w, Writing);
    if result != Error {
      DrainDrains(w1, n, result, ReadingAccept);
      EncodedDrains(w, w1, n, Drain(w1, n, result, ReadingAccept), ReadingAccept);
    }
  }

  /** START and the frames: `ok` for the call that encodes a frame, `again` for every other. */
  lemma FramesSay(w: Writer, n: Positive)
    requires Good(w) && (w.state.Encoding? || w.state.Writing?)
    ensures var o := SendFrames(w, n);
      o.result != Error ==>
        && o.result == (if w.state.Encoding? && w.encoder.state.Frames? then Ok else Again)
        && Hands(w, n, o, Writing, WriterState.Encoding)
  {
    hide Encode, Drain, Drains, Hands, Due, Grown;
    var empty := WriterState.Encoding;
    if w.state.Encoding? {
      EncodeDue(w, Writing);
      var (result, w1) := Encode(w, Writing);
      if result != Error {
        DrainDrains(w1, n, result, empty);
        EncodedDrains(w, w1, n, Drain(w1, n, result, empty), empty);
        FrameIsOk(w);
      }
    } else {
      DrainDrains(w, n, Again, empty);
      JustDrains(w, n, Drain(w, n, Again, empty), empty);
    }
  }

  lemma FrameIsOk(w: Writer)
    requires Good(w) && w.state.Encoding? && E.ItemResult(w.encoder) != Error
    ensures E.ItemResult(w.encoder) == (if w.encoder.state.Frames? then Ok else Again)
  {
  }

  /** STOP: `endofdata` with its last byte in one direction; in two, `again` and on to FINISH. */
  lemma StopSays(w: Writer, n: Positive)
    requires Good(w) && (w.state.EncodingStop? || w.state.WritingStop?)
    ensures var o := SendStop(w, n);
      o.result != Error ==>
        && o.result == (if o.sent == Due(w) && !w.bidirectional then EndOfData else Again)
        && Hands(w, n, o, WritingStop, if w.bidirectional then ReadingFinish else WriterState.Done)
  {
    hide Encode, Drain, Drains, Hands, Due, Grown;
    var empty := if w.bidirectional then ReadingFinish else WriterState.Done;
    if w.state.EncodingStop? {
      EncodeDue(w, WritingStop);
      var (result, w1) := Encode(w, WritingStop);
      if result == EndOfData {
        DrainDrains(w1, n, Again, empty);
        EncodedDrains(w, w1, n, Drain(w1, n, Again, empty), empty);
        StateAfter(w1, n, Drain(w1, n, Again, empty), empty);
        ResultAside(w, n, Drain(w1, n, Again, empty), EndOfData, WritingStop, empty);
      } else {
        StopEnds(w);
      }
    } else {
      DrainDrains(w, n, Again, empty);
      JustDrains(w, n, Drain(w, n, Again, empty), empty);
      StateAfter(w, n, Drain(w, n, Again, empty), empty);
      ResultAside(w, n, Drain(w, n, Again, empty), EndOfData, WritingStop, empty);
      PendingIsDue(w);
    }
  }

  lemma ResultAside(w: Writer, n: nat, o: Outcome, result: Result, more: WriterState, empty: WriterState)
    ensures Hands(w, n, o.(result := result), more, empty) == Hands(w, n, o, more, empty)
  {
    hide Due, Grown;
  }

  lemma StateAfter(w: Writer, n: nat, o: Outcome, empty: WriterState)
    requires Drains(w, n, o, empty) && w.state.WritingStop?
    ensures o.writer.state == if o.sent == w.output.data then empty else WritingStop
  {
  }

  lemma PendingIsDue(w: Writer)
    requires !WriterSpec.Encodes(w.state)
    ensures Due(w) == w.output.data
  {
  }

  lemma StopEnds(w: Writer)
    requires Good(w) && w.state.EncodingStop?
    ensures E.ItemResult(w.encoder) == EndOfData
  {
  }

  /** The writer once what was pending at a stop has left. */
  function Emptied(w: Writer): Writer {
    w.(state := EncodingStop, output := w.output.(data := [], at := 0))
  }

  /** Part of what was pending at a stop leaves; the rest stays, and so does the state. */
  predicate StillStopping(w: Writer, n: nat, o: Outcome) {
    && n < |w.output.data|
    && o == Outcome(Again, w.(output := w.output.(data := w.output.data[n..])), w.output.data[..n], 0)
  }

  /** A stopping write: the rest of what is pending, and when all of that has left, STOP. */
  lemma RestSays(w: Writer, first: Positive, second: Positive)
    requires Good(w) && w.state.Stopping?
    ensures var o := SendRest(w, first, second); var data := w.output.data;
      o.result != Error ==>
        if first < |data| then StillStopping(w, first, o)
        else
          var n := if data == [] then first else second;
          && data <= o.sent
          && var stop := o.(sent := o.sent[|data|..]);
             stop == SendStop(Emptied(w), n) && Good(Emptied(w))
  {
    hide SendStop, InStep;
    var data := w.output.data;
    EmptiedGood(w);
    if data == [] {
      assert Emptied(w) == w.(state := EncodingStop);
    } else {
      DrainGoodStopping(w, first);
      var o := Drain(w, first, Again, EncodingStop);
      if first >= |data| {
        assert data[..|data|] == data;
        assert o.writer == Emptied(w);
        var p := SendStop(Emptied(w), second);
        assert (data + p.sent)[|data|..] == p.sent;
      }
    }
  }

  lemma EmptiedGood(w: Writer)
    requires Good(w) && w.state.Stopping?
    ensures Good(Emptied(w))
  {
  }

  // ---- input ----

  /** The states that wait for ACCEPT; the others that take input wait for FINISH. */
  predicate ForAccept(s: WriterState) {
    s.ReadingAccept? || s.DecodingAccept?
  }

  /** The decoder, or the writer for it, will not have what it is given. */
  predicate Refused(w: Writer, d: D.Decoded) {
    if ForAccept(w.state) then
      !(d.result == Again || d.result == NeedMore || (d.result == Bidirectional && d.decoder.acceptSupport))
    else !(d.result == EndOfData || d.result == NeedMore)
  }

  predicate TooLong(w: Writer, held: Bytes, d: D.Decoded) {
    d.result == NeedMore && |held| >= w.input.max
  }

  /** What an answer says of the bytes held, and what it leaves behind. */
  predicate Says(w: Writer, held: Bytes, d: D.Decoded, result: Result, w': Writer) {
    && (result == NeedMore <==> d.result == NeedMore)
    && (result == EndOfData <==> d.result == EndOfData)
    && (result == Again <==> d.result == Again || d.result == Bidirectional)
    && (result == NeedMore || result == EndOfData || result == Again)
    && w'.decoder == d.decoder && w' == w.(state := w'.state, decoder := w'.decoder, input := w'.input)
    && (result == NeedMore ==> RoomMade(w.input, held, w'.input) && w'.state.ReadingAccept?)
    && (result == EndOfData ==> w'.input == w.input.(data := held) && w'.state.Done?)
    && (result == Again ==>
          && ItemGone(w.input, held, d.size, w'.input)
          && w'.state == if d.result == Bidirectional then WriterState.Encoding
                         else if w'.input.data == [] then ReadingAccept else DecodingAccept)
  }

  lemma ActSays(w: Writer, held: Bytes, d: D.Decoded)
    requires TakesInput(w.state) && w.input.Valid() && held != [] && |held| <= w.input.size
    requires D.Plausible(d, |held|) && (d.result == NeedMore ==> d.decoder == w.decoder)
    ensures var w1 := w.(input := w.input.(data := held));
      var (result, w') := if ForAccept(w.state) then ActOnAccept(w1, d) else ActOnFinish(w1, d);
      && (result == Error <==> Refused(w, d) || TooLong(w, held, d))
      && (result != Error ==> Says(w, held, d, result, w'))
  {
  }

  /**
   A write that waits.  It reads what there is room for, and then answers by the decoder's
   verdict on all that is held: `need_more` for part of an item, `again` for an item of ACCEPT
   and for the whole of it, `endofdata` for FINISH.  It fails exactly when nothing can be read, or
   when what is held is refused or is part of too long an item.
   */
  lemma WaitSays(accepts: D.Accepts, w: Writer, io: Transport)
    requires Good(w) && TakesInput(w.state)
    ensures var o := Write(accepts, w, io);
      if ReadsInput(w.state) && (io.canRead == [] || w.input.Space() == 0) then o.result == Error
      else
        && o.sent == [] && o.taken <= |io.canRead| && TakesAll(w.input, ReadsInput(w.state), |io.canRead|, o.taken)
        && var held := w.input.data + io.canRead[..o.taken];
           && held != []
           && var d := D.Decode(accepts, w.decoder, held);
              && (o.result == Error <==> Refused(w, d) || TooLong(w, held, d))
              && (o.result != Error ==> Says(w, held, d, o.result, o.writer))
  {
    hide D.Decode, ActOnAccept, ActOnFinish, Says, Refused, TooLong, InStep;
    if !(ReadsInput(w.state) && (io.canRead == [] || w.input.Space() == 0)) {
      var k := ReadCount(w, |io.canRead|);
      var held := w.input.data + io.canRead[..k];
      assert held != [] && |held| <= w.input.size;
      ActSays(w, held, D.Decode(accepts, w.decoder, held));
    }
  }

  // ---- the end ----

  /** `endofdata` is the answer of the call that ends a writer, and of no other; `ok` tells of a frame. */
  predicate TellsTheEnd(w: Writer, result: Result, w': Writer) {
    && (result == EndOfData <==> w'.state.Done?)
    && (result == Ok <==> w.state.Encoding? && w.encoder.state.Frames?)
    && (result == NeedMore ==> TakesInput(w.state) || w.state.EncodingReady?)
    && (result == Ok || result == EndOfData || result == NeedMore || result == Again)
  }

  lemma SendTells(w: Writer, n: Positive)
    requires Good(w)
    ensures w.state.Encoding? || w.state.Writing? ==>
      var o := SendFrames(w, n); o.result != Error ==> TellsTheEnd(w, o.result, o.writer)
    ensures w.state.EncodingStop? || w.state.WritingStop? ==>
      var o := SendStop(w, n); o.result != Error ==> TellsTheEnd(w, o.result, o.writer)
  {
    hide SendFrames, SendStop, Grown, InStep, Due;
    if w.state.Encoding? || w.state.Writing? {
      FramesSay(w, n);
    } else if w.state.EncodingStop? || w.state.WritingStop? {
      StopSays(w, n);
    }
  }

  lemma RestTells(w: Writer, first: Positive, second: Positive)
    requires Good(w) && w.state.Stopping?
    ensures var o := SendRest(w, first, second); o.result != Error ==> TellsTheEnd(w, o.result, o.writer)
  {
    hide SendRest, SendStop, InStep;
    RestSays(w, first, second);
    if first >= |w.output.data| && SendRest(w, first, second).result != Error {
      SendTells(Emptied(w), if w.output.data == [] then first else second);
    }
  }

  lemma WaitTells(accepts: D.Accepts, w: Writer, io: Transport)
    requires Good(w) && TakesInput(w.state)
    ensures var o := Write(accepts, w, io); o.result != Error ==> TellsTheEnd(w, o.result, o.writer)
  {
    hide D.Decode, Write, RoomMade, ItemGone, InStep, Refused, TooLong;
    WaitSays(accepts, w, io);
  }

  /** READY, and then the wait for ACCEPT in the same call. */
  lemma ReadyTells(accepts: D.Accepts, w: Writer, io: Transport)
    requires Good(w) && w.state.EncodingReady? && 0 < io.first
    ensures var o := Write(accepts, w, io); o.result != Error ==> TellsTheEnd(w, o.result, o.writer)
  {
    hide SendReady, ReceiveSome, Hands, Stream, E.ReadyBytes;
    ReadySays(w, io.first);
    SendReadyGood(w, io.first, Stream(true, E.ControlReady, []), []);
    var o := SendReady(w, io.first);
    if o.result != Error && o.writer.state.ReadingAccept? {
      WaitTells(accepts, o.writer, io);
    }
  }

  lemma NothingMoved(w: Writer)
    requires Good(w)
    ensures w.state.EncodingReady? ==> SendReady(w, 0).result == Error
    ensures w.state.Encoding? || w.state.Writing? ==> SendFrames(w, 0).result == Error
    ensures w.state.EncodingStop? || w.state.WritingStop? ==> SendStop(w, 0).result == Error
  {
    hide Encode, Due, Grown;
    if WriterSpec.Encodes(w.state) {
      EncodeDue(w, if w.state.EncodingStop? then WritingStop else Writing);
      if w.state.EncodingStop? {
        StopEnds(w);
      }
    }
  }

  /** A sending call whose transport moves nothing, when it comes to use it, is an error. */
  lemma NothingMoves(accepts: D.Accepts, w: Writer, io: Transport)
    requires Good(w) && !TakesInput(w.state)
    ensures io.first == 0 ==> Write(accepts, w, io).result == Error
    ensures io.second == 0 && w.state.Stopping? && w.output.data != [] && |w.output.data| <= io.first ==>
      Write(accepts, w, io).result == Error
  {
    hide SendReady, SendFrames, SendStop, D.Decode;
    NothingMoved(w);
    if w.state.Stopping? {
      EmptiedGood(w);
      NothingMoved(Emptied(w));
      if w.output.data == [] {
        assert Emptied(w) == w.(state := EncodingStop);
      } else if |w.output.data| <= io.first {
        DrainGoodStopping(w, io.first);
        assert Drain(w, io.first, Again, EncodingStop).writer == Emptied(w);
      }
    }
  }

  lemma SecondUnused(w: Writer, first: nat, a: nat, b: nat)
    requires Good(w) && w.state.Stopping? && (w.output.data == [] || first < |w.output.data|)
    ensures SendRest(w, first, a) == SendRest(w, first, b)
  {
    hide SendStop;
  }

  lemma WriteTells(accepts: D.Accepts, w: Writer, io: Transport)
    requires Good(w)
    ensures var o := Write(accepts, w, io); o.result != Error ==> TellsTheEnd(w, o.result, o.writer)
  {
    hide SendRest, SendFrames, SendStop, ReceiveSome, SendReadyAndWait, TellsTheEnd;
    if TakesInput(w.state) {
      WaitTells(accepts, w, io);
    } else {
      NothingMoves(accepts, w, io);
      if io.first != 0 && Write(accepts, w, io).result != Error {
        SendingTells(accepts, w, io);
      }
    }
  }

  lemma SendingTells(accepts: D.Accepts, w: Writer, io: Transport)
    requires Good(w) && !TakesInput(w.state) && 0 < io.first && Write(accepts, w, io).result != Error
    ensures var o := Write(accepts, w, io); TellsTheEnd(w, o.result, o.writer)
  {
    hide SendRest, SendFrames, SendStop, ReceiveSome, SendReadyAndWait, TellsTheEnd;
    match w.state
    case EncodingReady => ReadyTells(accepts, w, io);
    case Stopping =>
      if io.second != 0 {
        RestTells(w, io.first, io.second);
      } else {
        NothingMoves(accepts, w, io);
        SecondUnused(w, io.first, io.second, 1);
        RestTells(w, io.first, 1);
      }
    case Encoding => SendTells(w, io.first);
    case Writing => SendTells(w, io.first);
    case EncodingStop => SendTells(w, io.first);
    case WritingStop => SendTells(w, io.first);
    case _ =>
  }

  // ---- pop ----

  /**
   Pop in one direction.  As the writes of the same states, but for `stopping`: what does not
   fit leaves the state as it is, and what does fit is overwritten by STOP.
   */
  lemma PopSays(w: Writer, len: Len)
    requires Good(w) && !w.bidirectional
    ensures var o := Pop(w, len); var data := w.output.data;
      match w.state
      case Encoding => o == SendFrames(w, len)
      case Writing => o == SendFrames(w, len)
      case EncodingStop => o == SendStop(w, len)
      case WritingStop => o == SendStop(w, len)
      case Stopping =>
        Good(Emptied(w)) && if len < |data| then StillStopping(w, len, o) else o == SendStop(Emptied(w), len)
      case _ => o.result == Error && o.sent == []
  {
    hide SendStop, SendFrames;
    if w.state.Stopping? {
      EmptiedGood(w);
      if w.output.data == [] {
        assert Emptied(w) == w.(state := EncodingStop);
      } else {
        DrainGoodStopping(w, len);
        if len >= |w.output.data| {
          assert Drain(w, len, Again, EncodingStop).writer == Emptied(w);
        }
      }
    }
  }

  lemma PopTells(w: Writer, len: Len)
    requires Good(w) && !w.bidirectional
    ensures var o := Pop(w, len); o.result != Error ==> TellsTheEnd(w, o.result, o.writer) && o.result != NeedMore
  {
    hide SendStop, SendFrames, Pop;
    PopSays(w, len);
    SendTells(w, len);
    if w.state.Stopping? && len >= |w.output.data| {
      SendTells(Emptied(w), len);
    }
  }

  // ---- stop ----

  /** Stop is answered `ok` while frames are being encoded, and only then; it works once. */
  lemma StopAnswers(w: Writer)
    requires Good(w)
    ensures var (result, w') := WriterSpec.Stop(w);
      && (result == Ok || result == Error)
      && (result == Ok <==> w.encoder.state.Frames?)
      && (result == Ok ==> Good(w') && w' == w.(state := Stopping, encoder := w.encoder.(state := E.ControlStop)))
      && (result == Error ==> w' == w)
      && WriterSpec.Stop(w').0 == Error
  {
  }

  // ---- resizing ----

  /** A resize that goes through has the new size, and what is pending where it was. */
  lemma SetBufsizeSays(w: Writer, size: nat)
    requires Good(w) && 0 < size && !w.output.Displaces(size)
    ensures var (result, w') := SetBufsize(w, size);
      if |w.output.data| <= size <= w.output.max then
        result == Ok && Good(w') && w' == w.(output := w.output.(size := size))
      else result == Error && w' == w
  {
  }
}
