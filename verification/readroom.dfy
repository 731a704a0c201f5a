/**
 Room to read into.  `dnswire_reader_read` offers the transport what is left of the buffer,
 and takes nothing read for an error; so it fails with bytes waiting when that is nothing.
 */
module ReadRoom {
  import opened Wire
  import opened Results
  import opened BufferSpec
  import opened ReaderSpec
  import opened ReaderRuns
  import opened ReaderAnswers
  import AA = AfterAccept
  import D = DecoderSpec
  import E = EncoderSpec
  import RT = ReaderTrace

  /**
   Exactly when a read that is offered bytes fails: there is no room for any, or what is
   then held is refused, or is part of an item that is too long.
   */
  lemma ReadFails(accepts: D.Accepts, r: Reader, io: Transport)
    requires Good(r) && TakesInput(r.state) && (ReadsInput(r.state) ==> io.canRead != [])
    ensures var held := r.input.data + io.canRead[..PushCount(r, |io.canRead|)];
      Read(accepts, r, io).result == Error <==> NoRoom(r) || Refused(accepts, r, held) || TooLong(accepts, r, held)
  {
    hide D.Decode, Says, InStep;
    if !NoRoom(r) {
      if ReadsInput(r.state) || Decodes(r.state) {
        ReadSays(accepts, r, io);
        TakesCount(r, |io.canRead|, Read(accepts, r, io).taken);
      }
    }
  }

  lemma TakesCount(r: Reader, offered: nat, taken: nat)
    requires Valid(r) && TakesAll(r.input, ReadsInput(r.state), offered, taken)
    ensures taken == PushCount(r, offered)
  {
  }

  lemma SomethingHeld(r: Reader, io: Transport)
    requires Valid(r) && TakesInput(r.state) && !NoRoom(r) && (ReadsInput(r.state) ==> io.canRead != [])
    ensures ReadsInput(r.state) ==> 0 < PushCount(r, |io.canRead|)
    ensures r.input.data + io.canRead[..PushCount(r, |io.canRead|)] != []
    ensures |r.input.data| + PushCount(r, |io.canRead|) <= r.input.size <= r.input.max
  {
  }

  // ---- when there is room ----

  lemma ActRoom(r: Reader, o: D.Decoded, control: bool, unpushed: bool)
    requires r.input.Valid() && o.size <= |r.input.data|
    ensures var (result, r') := Act(r, o, control, unpushed);
      result != Error && r'.input.Valid() ==> !NoRoom(r')
  {
  }

  /** A push keeps room for the next read, but for the one that ends ACCEPT with a full buffer. */
  lemma PushRoom(accepts: D.Accepts, r: Reader, data: Bytes, room: nat)
    requires Good(r)
    ensures var o := Push(accepts, r, data, room);
      o.result != Error ==>
        && o.reader.input.Valid()
        && (NoRoom(o.reader) ==> (NoRoom(r) && data == []) || (r.isBidirectional && Writes(r.state) && r.input.Space() == 0))
  {
    hide D.Decode, InStep;
    PushGood(accepts, r, data, room);
    if TakesInput(r.state) {
      if Decodes(r.state) || data != [] {
        var n := PushCount(r, |data|);
        var r' := r.(input := r.input.Fill(data[..n]));
        ActRoom(r', D.Decode(accepts, r'.decoder, r'.input.data), Control(r.state), n < |data|);
      }
    } else if Writes(r.state) && Encode(r).0 != Error {
      EmitRoom(r, room);
    }
  }

  lemma EmitRoom(r: Reader, room: nat)
    requires Good(r) && Writes(r.state) && Encode(r).0 != Error
    ensures var r1 := Encode(r).1; var r' := Emit(r1, room, r1.state.WritingAccept?).reader;
      r'.input == r.input && r.isBidirectional && (NoRoom(r') ==> r.input.Space() == 0)
  {
    hide EncodeInto;
  }

  lemma ReadKeepsRoom(accepts: D.Accepts, r: Reader, io: Transport)
    requires Good(r)
    ensures var o := Read(accepts, r, io);
      o.result != Error ==>
        && o.reader.input.Valid()
        && (NoRoom(o.reader) ==> r.isBidirectional && Writes(r.state) && r.input.Space() == 0)
  {
    hide Push, Read, InStep;
    ReadIsPush(accepts, r, io);
    var o := Read(accepts, r, io);
    if o.result != Error {
      PushRoom(accepts, r, io.canRead[..o.taken], |o.sent|);
    }
  }

  /** A resize takes the room away exactly when it goes through and leaves no byte beyond the data. */
  lemma ResizeRoom(r: Reader, size: nat)
    requires Good(r) && ReadsInput(r.state) && 0 < size
    ensures var (result, r') := SetBufsize(r, size);
      && r'.input.Valid()
      && (result == Ok ==> (NoRoom(r') <==> size == |r.input.data| || size == r.input.at + |r.input.data|))
      && (result != Ok ==> r' == r)
  {
  }

  /** No ACCEPT yet, or else one that found room. */
  predicate Roomy(t: RT.Trace)
    requires t.reader.input.Valid()
  {
    NoRoom(t.reader) ==> t.reader.isBidirectional
  }

  /**
   In a run of pushes and reads without resizes, up to ACCEPT, and throughout for a reader in
   one direction, a reader that asks for input has room for it.
   */
  lemma {:induction false} RoomKept(accepts: D.Accepts, t: RT.Trace, calls: seq<RT.Call>)
    requires Good(t.reader) && Roomy(t)
    requires forall c :: c in calls ==> !c.CallSetBufsize?
    ensures var t' := RT.PerformAll(accepts, t, calls);
      Good(t'.reader) && (NoRoom(t'.reader) ==> t'.reader.isBidirectional)
    decreases |calls|
  {
    hide RT.Perform, Good, NoRoom;
    if calls != [] {
      assert calls[0] in calls;
      CallRoom(accepts, t, calls[0]);
      RoomKept(accepts, RT.Perform(accepts, t, calls[0]), calls[1..]);
    }
  }

  lemma CallRoom(accepts: D.Accepts, t: RT.Trace, c: RT.Call)
    requires Good(t.reader) && Roomy(t) && !c.CallSetBufsize?
    ensures Good(RT.Perform(accepts, t, c).reader) && Roomy(RT.Perform(accepts, t, c))
  {
    hide Push, Read, NoRoom, InStep, Valid;
    if !t.failed {
      match c
      case CallPush(data, room) =>
        PushRoom(accepts, t.reader, data, room);
        PushSides(accepts, t.reader, data, room);
      case CallRead(io) =>
        ReadKeepsRoom(accepts, t.reader, io);
        ReadIsPush(accepts, t.reader, io);
        var o := Read(accepts, t.reader, io);
        if o.result != Error {
          PushSides(accepts, t.reader, io.canRead[..o.taken], |o.sent|);
        }
    }
  }

  /** A reader that is bidirectional stays so. */
  lemma PushSides(accepts: D.Accepts, r: Reader, data: Bytes, room: nat)
    requires Good(r)
    ensures Push(accepts, r, data, room).reader.isBidirectional || !r.isBidirectional
  {
    hide D.Decode, EncodeInto, InStep;
  }

  // ---- the reads that fail ----

  /** Whatever the transport has, the next read fails; a push makes room first. */
  ghost predicate Starved(accepts: D.Accepts, r: Reader)
    requires Good(r)
  {
    && NoRoom(r)
    && (forall io: Transport :: Read(accepts, r, io).result == Error)
    && (forall data: Bytes, room: nat ::
          |r.input.data| < r.input.max && D.Decode(accepts, r.decoder, r.input.data).result == NeedMore && data != [] ==>
            Push(accepts, r, data, room).result == Again)
  }

  lemma NoRoomStarves(accepts: D.Accepts, r: Reader)
    requires Good(r) && NoRoom(r)
    ensures Starved(accepts, r)
  {
    hide D.Decode, InStep;
    forall io: Transport
      ensures Read(accepts, r, io).result == Error
    {
      ReadIsPush(accepts, r, io);
    }
    forall data: Bytes, room: nat
      | |r.input.data| < r.input.max && D.Decode(accepts, r.decoder, r.input.data).result == NeedMore && data != []
      ensures Push(accepts, r, data, room).result == Again
    {
      assert data[..0] == [] && r.input.data + [] == r.input.data;
    }
  }

  /** A resize to just what is held of an item is accepted, and then no read succeeds. */
  lemma ResizeStarves(accepts: D.Accepts, r: Reader)
    requires Good(r) && ReadsInput(r.state) && r.input.data != []
    ensures var (result, r') := SetBufsize(r, |r.input.data|);
      result == Ok && Good(r') && Starved(accepts, r')
  {
    hide InStep, Starved;
    SetBufsizeGood(r, |r.input.data|);
    ResizeRoom(r, |r.input.data|);
    NoRoomStarves(accepts, SetBufsize(r, |r.input.data|).1);
  }

  /** So does a chunk that fills the buffer and has bytes after READY, once ACCEPT has left. */
  lemma AcceptStarves(accepts: D.Accepts, r: Reader, rest: Bytes)
    requires AA.FreshReader(r) && rest != [] && 42 + |rest| == r.input.size
    ensures var t := RT.PerformAll(accepts, RT.Begin(r), AA.Opening(rest));
      !t.failed && t.sent == E.AcceptBytes && Good(t.reader) && Starved(accepts, t.reader)
  {
    hide RT.PerformAll, InStep, Starved, E.AcceptBytes;
    AA.OpeningHolds(accepts, r, rest);
    NoRoomStarves(accepts, RT.PerformAll(accepts, RT.Begin(r), AA.Opening(rest)).reader);
  }
}
