/**
 What becomes of input that a reader holds when it has written ACCEPT.  It goes back to
 asking for more, whatever it holds; that is right exactly when it holds no whole item.
 */
module AfterAccept {
  import opened Wire
  import opened Results
  import opened BufferSpec
  import opened ReaderSpec
  import opened ReaderRuns
  import opened Streams
  import C = Chunking
  import D = DecoderSpec
  import E = EncoderSpec
  import FS = FrameStreams
  import M = Mirror
  import RT = ReaderTrace
  import RD = RoundTrip
  import S = Sessions
  import WT = WriterTrace

  /** Nothing is held, or part of an item that `max` has room for more of. */
  predicate NoWholeItem(r: Reader) {
    r.input.data == [] || (|r.input.data| < r.input.max && FS.Read(r.decoder.reader, r.input.data).NeedMore?)
  }

  /** Asking, and offered nothing: the reader answers that it needs more, and stays as it is. */
  ghost predicate Asks(accepts: D.Accepts, r: Reader)
    requires Good(r)
  {
    r.state.ReadingControl? && forall room: nat :: Push(accepts, r, [], room) == Outcome(NeedMore, r, 0, [])
  }

  /** What the reference run makes of the bytes held is that there is nothing to do but wait. */
  ghost predicate HasToAsk(accepts: D.Accepts, r: Reader)
    requires Good(r)
  {
    RunFrom(C.EnvOf(accepts, r), r.decoder, r.input.data) == Run([], Waiting(r.decoder, r.input.data))
  }

  /**
   The push that hands out the last byte of ACCEPT leaves a reader that asks for input and
   has decoded none of what it held.  It has to ask if and only if that is no whole item.
   In either case, one byte more and everything is decoded as it should be.
   */
  lemma AcceptThenAsks(accepts: D.Accepts, r: Reader, data: Bytes, room: nat)
    requires Good(r) && r.state.WritingAccept? && |r.output.data| <= room
    ensures var o := Push(accepts, r, data, room);
      && Good(o.reader) && o.result == Again && o.taken == 0 && o.sent == r.output.data
      && o.reader.input == r.input && o.reader.decoder == r.decoder
      && Asks(accepts, o.reader)
      && (HasToAsk(accepts, o.reader) <==> NoWholeItem(r))
      && forall ds: seq<C.Delivery> :: C.Refines(accepts, o.reader, ds) <==> C.Chunks(ds) != [] || NoWholeItem(r)
  {
    hide RunFrom, FS.Read, InStep;
    PushGood(accepts, r, data, room);
    var r' := Push(accepts, r, data, room).reader;
    C.RightToAsk(accepts, r');
    assert r.output.data[..|r.output.data|] == r.output.data;
    SettledOrNot(accepts, r, r');
    forall ds: seq<C.Delivery>
      ensures C.Refines(accepts, r', ds) <==> C.Chunks(ds) != [] || NoWholeItem(r)
    {
      C.DriveAllRefines(accepts, r', ds);
    }
  }

  lemma SettledOrNot(accepts: D.Accepts, r: Reader, r': Reader)
    requires Good(r) && r.state.WritingAccept? && Good(r') && r'.state.ReadingControl?
    requires r'.input == r.input && r'.decoder == r.decoder
    ensures C.Settled(accepts, r') <==> NoWholeItem(r)
  {
    hide FS.Read;
  }

  // ---- READY and what follows it, in one chunk ----

  predicate FreshReader(r: Reader) {
    RD.FreshReader(r) && r.allowBidirectional && 42 <= r.output.max
  }

  /** READY and `rest` are pushed at once; then READY is decoded, and ACCEPT handed out. */
  function Opening(rest: Bytes): seq<RT.Call> {
    [RT.CallPush(E.ReadyBytes + rest, 0), RT.CallPush([], 0), RT.CallPush([], 42)]
  }

  /** The decoder that has read READY. */
  const Negotiated := S.Negotiated(D.Fresh, FS.READY, true)

  lemma HeaderPushed(accepts: D.Accepts, r: Reader, rest: Bytes)
    requires FreshReader(r) && 42 + |rest| <= r.input.size
    ensures |E.ReadyBytes| == 42
    ensures var o := Push(accepts, r, E.ReadyBytes + rest, 0);
      && o.result == Again && o.taken == 42 + |rest| && o.sent == [] && Good(o.reader)
      && o.reader == r.(state := DecodingControl,
                        decoder := D.Fresh.(state := D.CheckingReady, reader := FS.FrameReader(FS.InField, FS.READY, 30)),
                        input := r.input.(data := FS.FieldBytes(FS.FIELD_CONTENT_TYPE, CONTENT_TYPE) + rest, at := 12))
  {
    hide FS.Header, FS.FieldBytes, FS.Read;
    E.ItemSizes();
    var field := FS.FieldBytes(FS.FIELD_CONTENT_TYPE, CONTENT_TYPE);
    ReadyParts();
    var data := E.ReadyBytes + rest;
    assert data == FS.Header(FS.READY, 30) + (field + rest);
    assert data[..|data|] == data && [] + data == data && data[12..] == field + rest;
    FS.ReadHeader(FS.Fresh, FS.READY, 30, field + rest);
    PushGood(accepts, r, data, 0);
  }

  lemma ReadyParts()
    ensures E.ReadyBytes == FS.Header(FS.READY, 30) + FS.FieldBytes(FS.FIELD_CONTENT_TYPE, CONTENT_TYPE)
  {
    assert |CONTENT_TYPE| == 22 && [CONTENT_TYPE][1..] == [];
    assert FS.FieldsBytes([CONTENT_TYPE]) == FS.FieldBytes(FS.FIELD_CONTENT_TYPE, CONTENT_TYPE) + FS.FieldsBytes([]);
    assert FS.FieldsBytes([]) == [];
  }

  lemma FieldPushed(accepts: D.Accepts, r: Reader, rest: Bytes)
    requires Good(r) && r.state.DecodingControl? && r.allowBidirectional && !r.isBidirectional
    requires r.decoder == D.Fresh.(state := D.CheckingReady, reader := FS.FrameReader(FS.InField, FS.READY, 30))
    requires r.input.data == FS.FieldBytes(FS.FIELD_CONTENT_TYPE, CONTENT_TYPE) + rest && r.input.at == 12
    ensures var o := Push(accepts, r, [], 0);
      && o.result == Again && o.taken == 0 && o.sent == [] && Good(o.reader)
      && o.reader == r.(state := EncodingAccept, decoder := Negotiated, isBidirectional := true,
                        input := r.input.(data := rest, at := if rest == [] then 0 else 42))
  {
    hide FS.FieldBytes, FS.Read, Matches;
    FS.ReadFieldBack(r.decoder.reader, FS.FIELD_CONTENT_TYPE, CONTENT_TYPE, rest);
    M.ContentTypeFits(r.decoder);
    assert r.input.data + [] == r.input.data && r.input.data[30..] == rest;
    PushGood(accepts, r, [], 0);
  }

  lemma AcceptPushed(accepts: D.Accepts, r: Reader)
    requires Good(r) && r.state.EncodingAccept? && 42 <= r.output.max
    ensures var o := Push(accepts, r, [], 42);
      && o.result == Again && o.taken == 0 && o.sent == E.AcceptBytes && Good(o.reader)
      && o.reader.state.ReadingControl? && o.reader.input == r.input && o.reader.decoder == r.decoder
      && o.reader.isBidirectional == r.isBidirectional && o.reader.allowBidirectional == r.allowBidirectional
  {
    E.ItemSizes();
    EncodeIntoExact(r.encoder, r.output);
    PushGood(accepts, r, [], 42);
    assert [] + E.AcceptBytes == E.AcceptBytes && E.AcceptBytes[..42] == E.AcceptBytes;
  }

  /** Whatever follows READY in its chunk is still there, not decoded, when ACCEPT has left. */
  lemma OpeningHolds(accepts: D.Accepts, r: Reader, rest: Bytes)
    requires FreshReader(r) && 42 + |rest| <= r.input.size
    ensures var t := RT.PerformAll(accepts, RT.Begin(r), Opening(rest)); var r' := t.reader;
      && !t.failed && t.taken == E.ReadyBytes + rest && t.sent == E.AcceptBytes && t.messages == []
      && Good(r') && r'.isBidirectional && r'.decoder == Negotiated
      && r'.input == r.input.(data := rest, at := if rest == [] then 0 else 42)
      && C.EnvOf(accepts, r') == C.EnvOf(accepts, r)
      && Asks(accepts, r')
      && (HasToAsk(accepts, r') <==> NoWholeItem(r'))
  {
    hide Push, InStep, E.ReadyBytes, E.AcceptBytes, FS.FieldBytes, RunFrom, C.Settled, Valid;
    var calls := Opening(rest);
    var t0 := RT.Begin(r);
    HeaderPushed(accepts, r, rest);
    var t1 := RT.Perform(accepts, t0, calls[0]);
    FieldPushed(accepts, t1.reader, rest);
    var t2 := RT.Perform(accepts, t1, calls[1]);
    AcceptPushed(accepts, t2.reader);
    var t3 := RT.Perform(accepts, t2, calls[2]);
    ThreeCalls(accepts, t0, calls[0], calls[1], calls[2]);
    assert (E.ReadyBytes + rest)[..42 + |rest|] == E.ReadyBytes + rest;
    assert [] + (E.ReadyBytes + rest) == E.ReadyBytes + rest;
    AsksOrNot(accepts, t3.reader);
  }

  lemma AsksOrNot(accepts: D.Accepts, r: Reader)
    requires Good(r) && r.state.ReadingControl?
    ensures Asks(accepts, r) && (HasToAsk(accepts, r) <==> NoWholeItem(r))
  {
    hide RunFrom, FS.Read;
    C.RightToAsk(accepts, r);
  }

  lemma ThreeCalls(accepts: D.Accepts, t: RT.Trace, a: RT.Call, b: RT.Call, c: RT.Call)
    requires Good(t.reader)
    ensures RT.PerformAll(accepts, t, [a, b, c])
         == RT.Perform(accepts, RT.Perform(accepts, RT.Perform(accepts, t, a), b), c)
  {
    hide RT.Perform, Good;
    assert [a, b, c][1..] == [b, c] && [b, c][1..] == [c] && [c][1..] == [];
    var t1 := RT.Perform(accepts, t, a);
    var t2 := RT.Perform(accepts, t1, b);
    assert RT.PerformAll(accepts, t2, [c]) == RT.Perform(accepts, t2, c);
    assert RT.PerformAll(accepts, t1, [b, c]) == RT.Perform(accepts, t2, c);
  }

  /** The smallest failing run: READY and START in one chunk. */
  lemma StartStalls(accepts: D.Accepts, r: Reader)
    requires FreshReader(r) && 84 <= r.input.size
    ensures |E.ReadyBytes + E.StartBytes| == 84
    ensures var t := RT.PerformAll(accepts, RT.Begin(r), Opening(E.StartBytes)); var r' := t.reader;
      && !t.failed && t.taken == E.ReadyBytes + E.StartBytes && t.sent == E.AcceptBytes
      && Good(r') && Asks(accepts, r') && r'.input.data == E.StartBytes && r'.decoder == Negotiated
      && RunFrom(C.EnvOf(accepts, r'), r'.decoder, r'.input.data) == Run([], Waiting(S.Started(Negotiated), []))
      && !HasToAsk(accepts, r')
  {
    hide RunFrom, RT.PerformAll, FS.ControlBytes, Matches, S.FieldsFit;
    E.ItemSizes();
    OpeningHolds(accepts, r, E.StartBytes);
    var env := C.EnvOf(accepts, r);
    RD.ContentTypeSize();
    RD.StartFits(env.limit);
    assert E.StartBytes + [] == E.StartBytes;
    S.StartRun(env, Negotiated, CONTENT_TYPE, []);
    M.NothingRun(env, S.Started(Negotiated));
  }

  /**
   The failing run.  A whole session, READY START frames STOP, pushed as one chunk: the
   reader answers READY and then asks for more for ever, having delivered nothing, while
   what it holds is START, every message and the end.
   */
  lemma WholeSessionStalls(accepts: D.Accepts, r: Reader, messages: seq<Bytes>)
    requires FreshReader(r) && S.Encodable(messages)
    requires forall m :: m in messages ==> accepts(m) && 4 + |m| <= r.input.max
    requires 42 + |WT.Session(false, messages)| <= r.input.size
    ensures var t := RT.PerformAll(accepts, RT.Begin(r), Opening(WT.Session(false, messages))); var r' := t.reader;
      && !t.failed && t.messages == [] && Good(r') && Asks(accepts, r')
      && t.taken == E.ReadyBytes + WT.Session(false, messages)
      && r'.input.data == WT.Session(false, messages) && r'.decoder.state.ReadingStart?
      && RunFrom(C.EnvOf(accepts, r'), r'.decoder, r'.input.data) == Run(messages, Ended)
      && !HasToAsk(accepts, r')
  {
    hide RunFrom, RT.PerformAll, WT.Session;
    E.ItemSizes();
    RD.SessionShape(messages);
    OpeningHolds(accepts, r, WT.Session(false, messages));
    var env := C.EnvOf(accepts, r);
    RD.OneWayRun(env, Negotiated, messages);
    RD.ThroughAll(env, messages);
  }
}
