/**
 End to end, in one direction: what a writer sends, a reader delivers, under every
 schedule of either.  And the opening negotiation, over any list of content types.
 */
module RoundTrip {
  import opened Wire
  import opened Results
  import opened Streams
  import opened Sessions
  import FS = FrameStreams
  import D = DecoderSpec
  import E = EncoderSpec
  import R = ReaderSpec
  import RR = ReaderRuns
  import C = Chunking
  import WS = WriterSpec
  import WR = WriterRuns
  import WT = WriterTrace
  import CO = Completion
  import M = Mirror

  /** The longest item START comes in is its content-type field, of 30 bytes. */
  const START_NEEDS: nat := 30

  lemma ContentTypeSize()
    ensures |CONTENT_TYPE| == 22 && Writable([CONTENT_TYPE]) && Matches(CONTENT_TYPE)
  {
    MatchesMeaning(CONTENT_TYPE);
    assert [CONTENT_TYPE][1..] == [];
    assert FS.FieldsBytes([CONTENT_TYPE]) == FS.FieldBytes(FS.FIELD_CONTENT_TYPE, CONTENT_TYPE) + FS.FieldsBytes([]);
  }

  /**
   A session in one direction, read with any limit and policy: the messages come out in
   order up to the first that is too long or does not unpack, and the end is reached just
   when there is none such and START fits.
   */
  lemma OneWayRun(env: Env, d: D.Decoder, messages: seq<Bytes>)
    requires (d.state.ReadingControl? || d.state.ReadingStart?) && d.reader.phase.InControl?
    requires Encodable(messages)
    ensures var n := Through(env, messages);
      RunFrom(env, d, WT.Session(false, messages)) ==
      if !Fits(env.limit, START_NEEDS) then Run([], Failed)
      else if n == |messages| then Run(messages, Ended)
      else Run(messages[..n], Failed)
  {
    hide RunFrom, FS.ControlBytes, FS.FramesBytes, Matches, Through, Writable, FieldsFit, WR.Stream;
    ContentTypeSize();
    StartFits(env.limit);
    SessionShape(messages);
    var frames, stop := FS.FramesBytes(messages), E.StopBytes;
    StartRun(env, d, CONTENT_TYPE, frames + stop);
    var d' := Started(d);
    FramesRun(env, d', messages, stop);
    assert stop + [] == stop;
    EndRun(env, d'.(dnstap := LastOf(messages, d'.dnstap)), FS.STOP, []);
    assert messages + [] == messages;
  }

  lemma StartFits(limit: Limit)
    ensures FieldsFit(limit, [CONTENT_TYPE]) <==> Fits(limit, START_NEEDS)
    ensures Fits(limit, START_NEEDS) ==> Fits(limit, 12)
  {
    assert CONTENT_TYPE in [CONTENT_TYPE];
    assert |CONTENT_TYPE| == 22;
  }

  lemma SessionShape(messages: seq<Bytes>)
    ensures WT.Session(false, messages) == E.StartBytes + (FS.FramesBytes(messages) + E.StopBytes)
  {
    hide FS.FramesBytes, FS.ControlBytes;
  }

  /** A reader as `dnswire_reader_init` leaves it, with any sizes. */
  predicate FreshReader(r: R.Reader) {
    && RR.Good(r) && r.state.ReadingControl? && r.decoder == D.Fresh && !r.isBidirectional
    && r.input.data == []
  }

  /**
   A whole session, cut into any chunks and pushed to any fresh reader.  The reader delivers
   its messages in order and reports the end of data if and only if its `max` holds START's
   field and every framed message, and every message unpacks.  Otherwise it delivers those
   before the first that does not, and fails.
   */
  lemma SessionDelivered(accepts: D.Accepts, messages: seq<Bytes>, r: R.Reader, deliveries: seq<C.Delivery>)
    requires FreshReader(r) && Encodable(messages)
    requires C.Chunks(deliveries) == WT.Session(false, messages)
    ensures var d := C.DriveAll(accepts, r, deliveries);
      var env := C.EnvOf(accepts, r);
      && ((d.messages == messages && d.result == EndOfData)
            <==> START_NEEDS <= r.input.max && forall m :: m in messages ==> accepts(m) && 4 + |m| <= r.input.max)
      && (d.result == EndOfData <==> d.result != Error)
      && (d.result == Error ==>
            d.messages == if START_NEEDS <= r.input.max then messages[..Through(env, messages)] else [])
  {
    hide RunFrom, C.DriveAll, WR.Stream;
    var env := C.EnvOf(accepts, r);
    OneWayRun(env, D.Fresh, messages);
    assert [] + C.Chunks(deliveries) == C.Chunks(deliveries);
    C.DriveAllRefines(accepts, r, deliveries);
    ThroughAll(env, messages);
  }

  /** Part of a session ends a reader only if it is all of it. */
  lemma PartDelivered(
      accepts: D.Accepts, messages: seq<Bytes>, part: Bytes, r: R.Reader, deliveries: seq<C.Delivery>)
    requires FreshReader(r) && Encodable(messages)
    requires C.Chunks(deliveries) == part <= WT.Session(false, messages)
    requires C.DriveAll(accepts, r, deliveries).result == EndOfData
    ensures C.DriveAll(accepts, r, deliveries).messages == messages && part != []
  {
    hide RunFrom, C.DriveAll, WR.Stream;
    var env := C.EnvOf(accepts, r);
    assert [] + part == part;
    C.DriveAllRefines(accepts, r, deliveries);
    var session := WT.Session(false, messages);
    RunSplits(env, D.Fresh, part, session[|part|..]);
    assert part + session[|part|..] == session;
    OneWayRun(env, D.Fresh, messages);
    M.NothingRun(env, D.Fresh);
  }

  /** Whatever calls a writer's run is made of: once it is done, its messages are delivered. */
  lemma AnyUseRoundTrip(
      accepts: D.Accepts, w: WS.Writer, calls: seq<WT.Call>, r: R.Reader, deliveries: seq<C.Delivery>)
    requires WT.Fresh(w) && !w.bidirectional && FreshReader(r)
    requires WT.RunOf(accepts, w, calls).writer.state.Done?
    requires C.Chunks(deliveries) == WT.RunOf(accepts, w, calls).sent
    ensures var messages := WT.RunOf(accepts, w, calls).messages;
      var d := C.DriveAll(accepts, r, deliveries);
      && ((d.messages == messages && d.result == EndOfData)
            <==> START_NEEDS <= r.input.max && forall m :: m in messages ==> accepts(m) && 4 + |m| <= r.input.max)
      && (d.result == EndOfData <==> d.result != Error)
  {
    hide WT.RunOf, C.DriveAll, WR.Stream, WT.Heard, WT.Session;
    WT.WriterConservation(accepts, w, calls);
    SessionDelivered(accepts, WT.RunOf(accepts, w, calls).messages, r, deliveries);
  }

  /**
   The round trip, and exactly when it holds.  The caller's loop writes a list of messages
   through a transport that moves any positive numbers of bytes, for at least as many calls
   as the session has bytes.  What was sent is cut into any chunks and pushed to any fresh
   reader.  The reader then delivers just those messages, in order, and reports the end of
   data, if and only if START and every framed message fit the writer's `max`, START's field
   and every framed message fit the reader's, and every message unpacks.  If it is the reader
   that cannot have a message, those before it are delivered, and the reader fails.
   */
  lemma OneWayRoundTrip(
      accepts: D.Accepts, w: WS.Writer, ms: seq<E.Message>, counts: seq<CO.Count>,
      r: R.Reader, deliveries: seq<C.Delivery>)
    requires WT.Fresh(w) && !w.bidirectional && FreshReader(r)
    requires |WT.Session(false, ms)| <= |counts|
    requires C.Chunks(deliveries) == CO.FeedOf(accepts, w, ms, counts).sent
    ensures var d := C.DriveAll(accepts, r, deliveries);
      var env := C.EnvOf(accepts, r);
      && ((d.messages == ms && d.result == EndOfData) <==>
            && CO.AllFit(w.output.max, ms)
            && START_NEEDS <= r.input.max && forall m :: m in ms ==> accepts(m) && 4 + |m| <= r.input.max)
      && (CO.AllFit(w.output.max, ms) ==>
            && (d.result == EndOfData <==> d.result != Error)
            && (d.result == Error ==>
                  d.messages == if START_NEEDS <= r.input.max then ms[..Through(env, ms)] else []))
  {
    hide CO.FeedOf, C.DriveAll, WR.Stream, WT.Heard, WT.Session;
    CO.FeedCompletes(accepts, w, ms, counts);
    var t := CO.FeedOf(accepts, w, ms, counts);
    if t.writer.state.Done? {
      SessionDelivered(accepts, ms, r, deliveries);
    } else if C.DriveAll(accepts, r, deliveries).result == EndOfData {
      SentIsPart(accepts, t);
      PartDelivered(accepts, t.messages, t.sent, r, deliveries);
    }
  }

  lemma SentIsPart(accepts: D.Accepts, t: WT.Trace)
    requires WT.Kept(accepts, t) && !t.writer.bidirectional
    ensures t.sent <= WT.Session(false, t.messages) && Encodable(t.messages)
  {
    hide WR.Stream, WT.Heard;
    WT.StreamPrefix(false, t.writer.encoder.state, t.messages);
    assert t.sent <= t.sent + t.writer.output.data;
  }

  lemma ThroughAll(env: Env, messages: seq<Bytes>)
    ensures Through(env, messages) == |messages| <==> forall m :: m in messages ==> Deliverable(env, m)
  {
    var n := Through(env, messages);
    if n < |messages| {
      assert messages[n] in messages;
    }
  }

  /**
   Capacity.  Whatever its sizes and the chunks, a reader that holds nothing deals with the
   next item just as the decoder does if that is no longer than `max`, and otherwise fails
   on it without delivering anything.
   */
  lemma CapacityExact(accepts: D.Accepts, r: R.Reader, item: Bytes, rest: Bytes, deliveries: seq<C.Delivery>)
    requires RR.Good(r) && R.ReadsInput(r.state) && r.input.data == []
    requires item != [] && FS.Read(r.decoder.reader, item).Got? && FS.Read(r.decoder.reader, item).size == |item|
    requires C.Chunks(deliveries) == item + rest
    ensures var d := C.DriveAll(accepts, r, deliveries); var o := D.Decode(accepts, r.decoder, item);
      Run(d.messages, C.EndOf(d)) ==
      if |item| <= r.input.max then After(C.EnvOf(accepts, r), o, rest) else Run([], Failed)
  {
    hide RunFrom, C.DriveAll, FS.Read, D.Decode, After;
    assert [] + C.Chunks(deliveries) == C.Chunks(deliveries);
    C.DriveAllRefines(accepts, r, deliveries);
    FrontItem(C.EnvOf(accepts, r), r.decoder, item, rest);
  }

  // ---- the same, over messages instead of their bytes ----

  /** The protobuf packing, of which only this is assumed: what is packed unpacks to itself. */
  datatype Codec<!M(!new)> = Codec(pack: M -> Bytes, unpack: Bytes -> Option<M>) {
    ghost predicate Faithful() {
      forall m :: 0 < |pack(m)| < 0x1_0000_0000 && unpack(pack(m)) == Some(m)
    }

    function Unpacks(): D.Accepts {
      b => unpack(b).Some?
    }

    ghost function PackAll(ms: seq<M>): (r: seq<E.Message>)
      requires Faithful()
      ensures |r| == |ms| && forall i :: 0 <= i < |ms| ==> r[i] == pack(ms[i])
    {
      if ms == [] then [] else [pack(ms[0])] + PackAll(ms[1..])
    }

    function UnpackAll(bs: seq<Bytes>): seq<Option<M>> {
      if bs == [] then [] else [unpack(bs[0])] + UnpackAll(bs[1..])
    }

    lemma {:induction false} PackedUnpacks(ms: seq<M>)
      requires Faithful()
      ensures UnpackAll(PackAll(ms)) == seq(|ms|, i requires 0 <= i < |ms| => Some(ms[i]))
    {
      if ms != [] {
        PackedUnpacks(ms[1..]);
        assert PackAll(ms)[1..] == PackAll(ms[1..]);
      }
    }
  }

  /** Whatever the packing: the reader hands out the very messages the writer was given. */
  lemma MessagesRoundTrip<M(!new)>(
      codec: Codec<M>, ms: seq<M>, w: WS.Writer, counts: seq<CO.Count>, r: R.Reader, deliveries: seq<C.Delivery>)
    requires codec.Faithful()
    requires WT.Fresh(w) && !w.bidirectional && FreshReader(r)
    requires |WT.Session(false, codec.PackAll(ms))| <= |counts|
    requires C.Chunks(deliveries) == CO.FeedOf(codec.Unpacks(), w, codec.PackAll(ms), counts).sent
    requires START_NEEDS <= r.input.max && 42 <= w.output.max
    requires forall m :: m in ms ==> 4 + |codec.pack(m)| <= r.input.max && 4 + |codec.pack(m)| <= w.output.max
    ensures var d := C.DriveAll(codec.Unpacks(), r, deliveries);
      && codec.UnpackAll(d.messages) == seq(|ms|, i requires 0 <= i < |ms| => Some(ms[i]))
      && d.result == EndOfData
  {
    hide CO.FeedOf, C.DriveAll, RR.Good, WT.Session, WR.Good;
    var packed := codec.PackAll(ms);
    OneWayRoundTrip(codec.Unpacks(), w, packed, counts, r, deliveries);
    forall b | b in packed
      ensures codec.Unpacks()(b) && 4 + |b| <= r.input.max && 4 + |b| <= w.output.max
    {
      var i :| 0 <= i < |packed| && packed[i] == b;
      assert ms[i] in ms;
    }
    codec.PackedUnpacks(ms);
  }

  // ---- negotiation ----

  /** The loop ended because ACCEPT is to be written. */
  predicate Answers(d: C.Driven) {
    d.reader.state.EncodingAccept? && d.result != Error && d.result != NeedMore
  }

  predicate AnyAcceptable(types: seq<Bytes>) {
    exists t :: t in types && (t <= CONTENT_TYPE || CONTENT_TYPE + [0] <= t)
  }

  /**
   A READY with any list of content types, cut into any chunks.  A reader that allows
   two directions goes on to answer exactly when each of the types fits its buffer and one of
   them is a prefix of its own, or its own followed by NUL.  In every other case, and when
   two directions are not allowed, it fails.
   */
  lemma Negotiation(accepts: D.Accepts, r: R.Reader, types: seq<Bytes>, rest: Bytes, deliveries: seq<C.Delivery>)
    requires FreshReader(r)
    requires types != [] && Writable(types)
    requires C.Chunks(deliveries) == FS.ControlBytes(FS.READY, types) + rest
    ensures var d := C.DriveAll(accepts, r, deliveries);
      && (Answers(d) <==>
            && r.allowBidirectional && AnyAcceptable(types)
            && 12 <= r.input.max && forall t :: t in types ==> 8 + |t| <= r.input.max)
      && (!Answers(d) ==> d.result == Error)
      && (Answers(d) ==> d.reader.input.data + d.rest == rest)
  {
    hide RunFrom, C.DriveAll, RR.InStep, FS.ControlBytes, Writable, Matches;
    var env := C.EnvOf(accepts, r);
    assert [] + C.Chunks(deliveries) == C.Chunks(deliveries);
    C.DriveAllRefines(accepts, r, deliveries);
    ControlRun(env, D.Fresh, FS.READY, types, rest);
    forall t
      ensures Matches(t) <==> t <= CONTENT_TYPE || CONTENT_TYPE + [0] <= t
    {
      MatchesMeaning(t);
    }
  }
}
