/**
 What a reader's answers mean: for every call, its result, the bytes it takes and hands out,
 and where it leaves the buffers, by what the decoder makes of the bytes held.
 */
module ReaderAnswers {
  import opened Wire
  import opened Results
  import opened BufferSpec
  import opened ReaderSpec
  import opened ReaderRuns
  import D = DecoderSpec
  import E = EncoderSpec

  /** The decoder, or the reader for it, will not have what it is given. */
  predicate Refused(accepts: D.Accepts, r: Reader, held: Bytes) {
    held != [] &&
    var o := D.Decode(accepts, r.decoder, held);
    o.result == Error || (o.result == Bidirectional && !(r.allowBidirectional && o.decoder.readySupport))
  }

  /** An item is longer than `max`. */
  predicate TooLong(accepts: D.Accepts, r: Reader, held: Bytes) {
    held != [] && |held| >= r.input.max && D.Decode(accepts, r.decoder, held).result == NeedMore
  }

  // ---- input ----

  /** What an answer says of the bytes held, and what it leaves behind. */
  predicate Says(accepts: D.Accepts, r: Reader, held: Bytes, unpushed: bool, result: Result, r': Reader)
    requires held != []
  {
    var d := D.Decode(accepts, r.decoder, held);
    && (result == HaveDnstap <==> d.result == HaveDnstap)
    && (result == EndOfData <==> d.result == EndOfData && !r.isBidirectional)
    && (result == NeedMore <==> d.result == NeedMore && !unpushed)
    && (result == HaveDnstap || result == EndOfData || result == NeedMore || result == Again)
    && r'.decoder == d.decoder && r'.encoder == r.encoder && r'.output == r.output
    && r'.allowBidirectional == r.allowBidirectional
    && (r'.isBidirectional <==> r.isBidirectional || d.result == Bidirectional)
    && (d.result == NeedMore ==> RoomMade(r.input, held, r'.input))
    && (d.result == EndOfData ==> r'.input == r.input.(data := held))
    && (d.result != NeedMore && d.result != EndOfData ==> ItemGone(r.input, held, d.size, r'.input))
    && Leads(r, d.result, r')
  }

  /** The state an answer leads to. */
  predicate Leads(r: Reader, verdict: Result, r': Reader) {
    && (r'.state.EncodingAccept? <==> verdict == Bidirectional)
    && (r'.state.EncodingFinish? <==> verdict == EndOfData && r.isBidirectional)
    && (r'.state.Done? <==> verdict == EndOfData && !r.isBidirectional)
    && (TakesInput(r'.state) <==> verdict == Again || verdict == NeedMore || verdict == HaveDnstap)
    && (verdict == NeedMore ==> ReadsInput(r'.state))
    && (verdict == Again || verdict == HaveDnstap ==> (ReadsInput(r'.state) <==> r'.input.data == []))
    && (Control(r'.state) <==> Control(r.state) && (verdict == Again || verdict == NeedMore))
  }

  lemma ActSays(r: Reader, held: Bytes, o: D.Decoded, unpushed: bool)
    requires r.input.Valid() && |held| <= r.input.size && TakesInput(r.state)
    requires held != [] && D.Plausible(o, |held|) && o.result != Result.Ok
    requires o.result == NeedMore ==> o.decoder == r.decoder
    requires o.result == Bidirectional ==> Control(r.state)
    ensures var (result, r') := Act(r.(input := r.input.(data := held)), o, Control(r.state), unpushed);
      && (result == Error <==>
            || o.result == Error
            || (o.result == Bidirectional && !(r.allowBidirectional && o.decoder.readySupport))
            || (o.result == NeedMore && |held| >= r.input.max))
      && (result != Error ==>
            && (result == HaveDnstap <==> o.result == HaveDnstap)
            && (result == EndOfData <==> o.result == EndOfData && !r.isBidirectional)
            && (result == NeedMore <==> o.result == NeedMore && !unpushed)
            && (result == HaveDnstap || result == EndOfData || result == NeedMore || result == Again)
            && r'.decoder == o.decoder && r'.encoder == r.encoder && r'.output == r.output
            && r'.allowBidirectional == r.allowBidirectional
            && (r'.isBidirectional <==> r.isBidirectional || o.result == Bidirectional)
            && (o.result == NeedMore ==> RoomMade(r.input, held, r'.input))
            && (o.result == EndOfData ==> r'.input == r.input.(data := held))
            && (o.result != NeedMore && o.result != EndOfData ==> ItemGone(r.input, held, o.size, r'.input))
            && Leads(r, o.result, r'))
  {
  }

  lemma ReceiveSays(accepts: D.Accepts, r: Reader, data: Bytes, unpushed: bool)
    requires Good(r) && TakesInput(r.state)
    requires r.input.data + data != [] && |data| <= r.input.Space()
    ensures var o := Receive(accepts, r, data, unpushed); var held := r.input.data + data;
      && o.taken == |data| && o.sent == []
      && (o.result == Error <==> Refused(accepts, r, held) || TooLong(accepts, r, held))
      && (o.result != Error ==> Says(accepts, r, held, unpushed, o.result, o.reader))
  {
    hide D.Decode, Act, Leads, RoomMade, ItemGone;
    var held := r.input.data + data;
    D.DecodeFollows(accepts, r.decoder, held);
    ActSays(r, held, D.Decode(accepts, r.decoder, held), unpushed);
  }

  /**
   A push of input.  It takes what there is room for, and then answers by the decoder's verdict
   on all that is held: `have_dnstap` for a message, `endofdata` for the end of a stream in
   one direction, `need_more` for part of an item with nothing left to push, and `again`
   otherwise.  It fails exactly when what is held is refused or is part of too long an item.
   */
  lemma PushSays(accepts: D.Accepts, r: Reader, data: Bytes, room: nat)
    requires Good(r) && TakesInput(r.state)
    ensures var o := Push(accepts, r, data, room);
      if ReadsInput(r.state) && data == [] then o == Outcome(NeedMore, r, 0, [])
      else
        && o.sent == [] && o.taken <= |data| && TakesAll(r.input, ReadsInput(r.state), |data|, o.taken)
        && var held := r.input.data + data[..o.taken];
           && held != []
           && (o.result == Error <==> Refused(accepts, r, held) || TooLong(accepts, r, held))
           && (o.result != Error ==> Says(accepts, r, held, o.taken < |data|, o.result, o.reader))
  {
    hide Receive, Says, Refused, TooLong, InStep;
    if Decodes(r.state) || data != [] {
      var n := PushCount(r, |data|);
      PushHolds(r, data);
      ReceiveSays(accepts, r, data[..n], n < |data|);
    }
  }

  lemma PushHolds(r: Reader, data: Bytes)
    requires Valid(r) && TakesInput(r.state) && (ReadsInput(r.state) ==> data != [])
    ensures var n := PushCount(r, |data|);
      TakesAll(r.input, ReadsInput(r.state), |data|, n) && n <= r.input.Space() && r.input.data + data[..n] != []
  {
  }

  /** A read likewise, of what the transport has, as long as there is room for a byte of it. */
  lemma ReadSays(accepts: D.Accepts, r: Reader, io: Transport)
    requires Good(r) && TakesInput(r.state) && !NoRoom(r) && Offers(r, io)
    ensures var o := Read(accepts, r, io);
      && o.sent == [] && o.taken <= |io.canRead| && TakesAll(r.input, ReadsInput(r.state), |io.canRead|, o.taken)
      && var held := r.input.data + io.canRead[..o.taken];
         && held != []
         && (o.result == Error <==> Refused(accepts, r, held) || TooLong(accepts, r, held))
         && (o.result != Error ==> Says(accepts, r, held, false, o.result, o.reader))
  {
    hide Receive, Says, Refused, TooLong, InStep;
    PushHolds(r, io.canRead);
    ReceiveSays(accepts, r, io.canRead[..PushCount(r, |io.canRead|)], false);
  }

  // ---- output ----

  /** What a reader has to hand out: an item still to be encoded, or the rest of one. */
  function Due(r: Reader): Bytes {
    if r.state.EncodingAccept? then E.AcceptBytes
    else if r.state.EncodingFinish? then E.FinishBytes
    else r.output.data
  }

  predicate OfAccept(s: ReaderState) {
    s.EncodingAccept? || s.WritingAccept?
  }

  /** The size the buffer has: grown to the first that fits, if there was an item to encode. */
  ghost predicate Grown(r: Reader, size: nat) {
    if r.output.data != [] then size == r.output.size
    else FirstFit(r.output.size, r.output.inc, r.output.max, |Due(r)|, size)
  }

  /**
   What handing out comes to: `endofdata` goes with the last byte of FINISH, and with
   nothing else; the last byte of ACCEPT leads back to the input.
   */
  ghost predicate Hands(r: Reader, room: nat, o: Outcome) {
    && o.taken == 0 && HandsOut(Due(r), room, o.sent, o.reader.output.data)
    && (o.result == EndOfData <==> !OfAccept(r.state) && o.sent == Due(r))
    && (o.result == Again <==> OfAccept(r.state) || o.sent != Due(r))
    && (o.reader.state == if o.sent != Due(r) then (if OfAccept(r.state) then WritingAccept else WritingFinish)
                          else if OfAccept(r.state) then ReadingControl else Done)
    && o.reader == r.(state := o.reader.state, encoder := o.reader.encoder, output := o.reader.output)
    && o.reader.output.inc == r.output.inc && o.reader.output.max == r.output.max
    && Grown(r, o.reader.output.size)
    && o.reader.output.at == (if o.sent == Due(r) then 0 else if r.output.data == [] then |Due(r)| else r.output.at)
  }

  lemma EncodeDue(r: Reader)
    requires Good(r) && Writes(r.state) && Encode(r).0 != Error
    ensures var r' := Encode(r).1;
      && r'.output.data == Due(r) != [] && OfAccept(r'.state) == OfAccept(r.state)
      && (r'.state.WritingAccept? || r'.state.WritingFinish?)
      && r'.output.at == (if r.output.data == [] then |Due(r)| else r.output.at)
      && Grown(r, r'.output.size) && r'.output.inc == r.output.inc && r'.output.max == r.output.max
      && r' == r.(state := r'.state, encoder := r'.encoder, output := r'.output)
  {
    E.ItemSizes();
    EncodeValid(r);
    if r.state.EncodingAccept? || r.state.EncodingFinish? {
      EncodeIntoExact(r.encoder, r.output);
      assert [] + E.NextItem(r.encoder) == E.NextItem(r.encoder);
    }
  }

  lemma EmitHands(r: Reader, room: nat)
    requires r.output.data != [] && (r.state.WritingAccept? || r.state.WritingFinish?)
    ensures Hands(r, room, Emit(r, room, r.state.WritingAccept?))
  {
    var data, o := r.output.data, Emit(r, room, r.state.WritingAccept?);
    assert data == data[..|o.sent|] + data[|o.sent|..];
    assert o.sent == data ==> data[|data|..] == [];
  }

  lemma HandsOn(r: Reader, r1: Reader, room: nat, o: Outcome)
    requires Hands(r1, room, o) && Due(r1) == Due(r) != [] && OfAccept(r1.state) == OfAccept(r.state)
    requires r1.output.data == Due(r1) && r1.output.at == (if r.output.data == [] then |Due(r)| else r.output.at)
    requires Grown(r, r1.output.size) && r1.output.inc == r.output.inc && r1.output.max == r.output.max
    requires r1 == r.(state := r1.state, encoder := r1.encoder, output := r1.output)
    ensures Hands(r, room, o)
  {
    hide Due;
  }

  lemma WriteHands(r: Reader, room: nat)
    requires Good(r) && Writes(r.state) && Encode(r).0 != Error
    ensures var r' := Encode(r).1; Hands(r, room, Emit(r', room, r'.state.WritingAccept?))
  {
    hide Encode, Emit, Hands, E.AcceptBytes, E.FinishBytes;
    EncodeDue(r);
    var r' := Encode(r).1;
    EmitHands(r', room);
    HandsOn(r, r', room, Emit(r', room, r'.state.WritingAccept?));
  }

  /** A push of output fails exactly when ACCEPT or FINISH cannot be encoded for want of space. */
  lemma PushHands(accepts: D.Accepts, r: Reader, data: Bytes, room: nat)
    requires Good(r) && Writes(r.state)
    ensures var o := Push(accepts, r, data, room);
      && (o.result == Error <==> r.output.max < |Due(r)| && (r.state.EncodingAccept? || r.state.EncodingFinish?))
      && (o.result != Error ==> Hands(r, room, o))
  {
    hide Encode, Emit, Hands, E.AcceptBytes, E.FinishBytes;
    E.ItemSizes();
    AnswerEncodes(r);
    if Encode(r).0 != Error {
      WriteHands(r, room);
      EmitNoError(Encode(r).1, room);
    }
  }

  lemma EmitNoError(r: Reader, room: nat)
    ensures Emit(r, room, r.state.WritingAccept?).result != Error
  {
  }

  /** A read that finds output to write does the same, and needs a transport that moves something. */
  lemma ReadHands(accepts: D.Accepts, r: Reader, io: Transport)
    requires Good(r) && Writes(r.state)
    ensures var o := Read(accepts, r, io);
      && (o.result == Error <==>
            || io.canWrite == 0
            || (r.output.max < |Due(r)| && (r.state.EncodingAccept? || r.state.EncodingFinish?)))
      && (o.result != Error ==> Hands(r, io.canWrite, o))
  {
    hide Encode, Emit, Hands, E.AcceptBytes, E.FinishBytes;
    E.ItemSizes();
    AnswerEncodes(r);
    if Encode(r).0 != Error {
      EncodeDue(r);
      WriteHands(r, io.canWrite);
      EmitNoError(Encode(r).1, io.canWrite);
    }
  }

  // ---- the end ----

  /** `endofdata` is the answer of the call that ends a reader, and of no other. */
  predicate TellsTheEnd(r: Reader, result: Result, r': Reader) {
    && (result == EndOfData <==> r'.state.Done?)
    && (Writes(r.state) && !r'.state.Done? ==> result == Again)
  }

  lemma HandsTells(r: Reader, room: nat, o: Outcome)
    requires Hands(r, room, o) && Writes(r.state)
    ensures TellsTheEnd(r, o.result, o.reader)
  {
  }

  lemma PushTells(accepts: D.Accepts, r: Reader, data: Bytes, room: nat)
    requires Good(r)
    ensures var o := Push(accepts, r, data, room); o.result != Error ==> TellsTheEnd(r, o.result, o.reader)
  {
    hide D.Decode, InStep, Receive, Encode, Emit, Hands, RoomMade, ItemGone, Valid;
    if TakesInput(r.state) {
      PushSays(accepts, r, data, room);
    } else if Writes(r.state) {
      PushHands(accepts, r, data, room);
      if Push(accepts, r, data, room).result != Error {
        HandsTells(r, room, Push(accepts, r, data, room));
      }
    }
  }

  lemma ReadTells(accepts: D.Accepts, r: Reader, io: Transport)
    requires Good(r)
    ensures var o := Read(accepts, r, io); o.result != Error ==> TellsTheEnd(r, o.result, o.reader)
  {
    hide Push, Read, InStep;
    ReadIsPush(accepts, r, io);
    var o := Read(accepts, r, io);
    if o.result != Error {
      PushTells(accepts, r, io.canRead[..o.taken], |o.sent|);
    }
  }

  // ---- resizing ----

  /** A resize that goes through has the new size, and moves what is held only where it must. */
  lemma SetBufsizeSays(r: Reader, size: nat)
    requires Good(r) && 0 < size
    ensures var (result, r') := SetBufsize(r, size);
      if |r.input.data| <= size <= r.input.max then
        && result == Result.Ok && r'.input.size == size && r'.input.data == r.input.data
        && r'.input.at == (if r.input.at + |r.input.data| <= size then r.input.at else 0)
        && r' == r.(input := r.input.(size := size, at := r'.input.at))
      else result == Error && r' == r
  {
  }
}
