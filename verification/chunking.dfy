/**
 The reader against the reference meaning of its input: however the bytes are cut into
 chunks and whatever the buffer sizes, the caller's push loop sees what `RunFrom` says.
 */
module Chunking {
  import opened Wire
  import opened Results
  import opened BufferSpec
  import opened ReaderSpec
  import opened Streams
  import opened ReaderRuns
  import D = DecoderSpec

  function EnvOf(accepts: D.Accepts, r: Reader): Env
    requires Valid(r)
  {
    Env(accepts, AtMost(r.input.max), if r.allowBidirectional then Negotiate else Refuse)
  }

  /** A reader that asks for input has nothing it could decode. */
  predicate Settled(accepts: D.Accepts, r: Reader)
    requires Valid(r)
  {
    ReadsInput(r.state) && r.input.data != [] ==>
      && |r.input.data| < r.input.max
      && D.Decode(accepts, r.decoder, r.input.data).result == NeedMore
  }

  function Rank(s: ReaderState): nat {
    match s
    case EncodingAccept => 6
    case WritingAccept => 5
    case DecodingControl => 4
    case Decoding => 4
    case ReadingControl => 3
    case Reading => 3
    case EncodingFinish => 2
    case WritingFinish => 1
    case Done => 0
  }

  /** What falls on every call; earlier components count first. */
  datatype Measure = Measure(unpushed: nat, data: nat, growth: int, at: nat, rank: nat, output: nat)

  function MeasureOf(r: Reader, unpushed: nat): Measure {
    Measure(unpushed, |r.input.data|, r.input.max - r.input.size, r.input.at, Rank(r.state), |r.output.data|)
  }

  predicate Less(a: Measure, b: Measure) {
    a.unpushed < b.unpushed || (a.unpushed == b.unpushed &&
    (a.data < b.data || (a.data == b.data &&
    (0 <= a.growth < b.growth || (a.growth == b.growth &&
    (a.at < b.at || (a.at == b.at &&
    (a.rank < b.rank || (a.rank == b.rank && a.output < b.output)))))))))
  }

  /** One decoding takes bytes, or makes room, or goes back to asking for input. */
  lemma ActDecreases(r: Reader, o: D.Decoded, control: bool, unpushed: bool, unread: nat)
    requires r.input.Valid() && r.input.data != [] && D.Plausible(o, |r.input.data|)
    requires r.state == (if control then DecodingControl else Decoding)
          || (r.state == (if control then ReadingControl else Reading)
                && r.input.at + |r.input.data| == r.input.size)
    ensures var (result, r') := Act(r, o, control, unpushed);
      result == Again || result == HaveDnstap ==> Less(MeasureOf(r', unread), MeasureOf(r, unread))
  {
  }

  lemma ReceiveDecreases(accepts: D.Accepts, r: Reader, data: Bytes)
    requires Valid(r) && TakesInput(r.state) && PushCount(r, |data|) == 0
    requires ReadsInput(r.state) ==> data != []
    ensures var o := Push(accepts, r, data, 0);
      o.result == Again || o.result == HaveDnstap ==>
        Less(MeasureOf(o.reader, |data|), MeasureOf(r, |data|))
  {
    assert data[..0] == [] && r.input.data + [] == r.input.data;
    assert r.(input := r.input.Fill(data[..0])) == r;
    ActDecreases(r, D.Decode(accepts, r.decoder, r.input.data), Control(r.state), data != [], |data|);
  }

  lemma WriteDecreases(accepts: D.Accepts, r: Reader, data: Bytes, room: nat)
    requires Valid(r) && Writes(r.state) && 0 < room
    ensures var o := Push(accepts, r, data, room);
      o.result == Again ==> Less(MeasureOf(o.reader, |data|), MeasureOf(r, |data|))
  {
    EncodeValid(r);
  }

  /** No call that asks to be repeated can be repeated for ever. */
  lemma PushDecreases(accepts: D.Accepts, r: Reader, data: Bytes, room: nat)
    requires Valid(r)
    requires Writes(r.state) ==> 0 < room
    ensures var o := Push(accepts, r, data, room);
      o.result == Again || o.result == HaveDnstap ==>
        o.taken <= |data| && Less(MeasureOf(o.reader, |data| - o.taken), MeasureOf(r, |data|))
  {
    PushValid(accepts, r, data, room);
    var o := Push(accepts, r, data, room);
    if Writes(r.state) {
      WriteDecreases(accepts, r, data, room);
    } else if o.taken == 0 && TakesInput(r.state) && !(ReadsInput(r.state) && data == []) {
      ReceiveDecreases(accepts, r, data);
    }
  }

  // ---- one call ----

  /** What a call has said about the stream: messages, and how the rest is to be read. */
  function Explained(env: Env, result: Result, r: Reader, rest: Bytes): Run {
    if result == Error then Run([], Failed)
    else if TakesInput(r.state) then
      Before(if result == HaveDnstap then [r.decoder.dnstap] else [], RunFrom(env, r.decoder, r.input.data + rest))
    else if r.state.EncodingAccept? then Run([], Answering(r.decoder, r.input.data + rest))
    else Run([], Ended)
  }

  lemma WindowOf(accepts: D.Accepts, max: Positive, d: D.Decoder, p: Bytes, rest: Bytes)
    requires p != [] && |p| <= max
    ensures var o := D.Decode(accepts, d, p);
      o.result != NeedMore || |p| == max || rest == [] ==>
        D.Decode(accepts, d, Window(AtMost(max), p + rest)) == o
  {
    var w := Window(AtMost(max), p + rest);
    if D.Decode(accepts, d, p).result != NeedMore {
      assert w == p + w[|p|..];
      D.DecodeExtends(accepts, d, p, w[|p|..]);
    } else if |p| == max {
      assert w == p;
    } else if rest == [] {
      assert p + rest == p;
    }
  }

  /** The reference run, one decoder answer into it. */
  function Unrolled(env: Env, d: D.Decoder, o: D.Decoded, s: Bytes): Run
    requires s != [] && o.size <= |s|
    requires o.result == NeedMore || 0 < o.size || o.result == Error
  {
    match o.result
    case Again => Before([], RunFrom(env, o.decoder, s[o.size..]))
    case HaveDnstap => Before([o.decoder.dnstap], RunFrom(env, o.decoder, s[o.size..]))
    case NeedMore => Run([], if Full(env.limit, s) then Failed else Waiting(d, s))
    case EndOfData => Run([], Ended)
    case Bidirectional =>
      if env.policy.Pass? then Before([], RunFrom(env, o.decoder, s[o.size..]))
      else if env.policy.Negotiate? && o.decoder.readySupport then Run([], Answering(o.decoder, s[o.size..]))
      else Run([], Failed)
    case _ => Run([], Failed)
  }

  lemma RunUnrolls(env: Env, d: D.Decoder, s: Bytes)
    requires s != []
    ensures var o := D.Decode(env.accepts, d, Window(env.limit, s));
      RunFrom(env, d, s) == Unrolled(env, d, o, s)
  {
  }

  lemma ActRefines(env: Env, r: Reader, o: D.Decoded, rest: Bytes)
    requires r.input.Valid() && r.input.data != [] && TakesInput(r.state)
    requires env.policy == if r.allowBidirectional then Negotiate else Refuse
    requires D.Plausible(o, |r.input.data|) && o.result != NeedMore
    requires Control(r.state) || o.result != Bidirectional
    ensures var (result, r') := Act(r, o, Control(r.state), rest != []);
      Unrolled(env, r.decoder, o, r.input.data + rest) == Explained(env, result, r', rest)
  {
    assert (r.input.data + rest)[o.size..] == r.input.data[o.size..] + rest;
  }

  lemma WaitRefines(env: Env, r: Reader, o: D.Decoded, rest: Bytes)
    requires r.input.Valid() && r.input.data != [] && TakesInput(r.state)
    requires env.limit == AtMost(r.input.max)
    requires o == D.Decoded(NeedMore, r.decoder, 0)
    requires r.input.MakeRoom().None? ==>
      RunFrom(env, r.decoder, r.input.data + rest) == Unrolled(env, r.decoder, o, r.input.data + rest)
    ensures var (result, r') := Act(r, o, Control(r.state), rest != []);
      RunFrom(env, r.decoder, r.input.data + rest) == Explained(env, result, r', rest)
  {
    BeforeNothing(RunFrom(env, r.decoder, r.input.data + rest));
  }

  lemma ReceiveRefines(accepts: D.Accepts, r: Reader, data: Bytes, rest: Bytes)
    requires Good(r) && TakesInput(r.state)
    requires r.input.data + data != [] && |data| <= r.input.Space()
    ensures var env := EnvOf(accepts, r); var o := Receive(accepts, r, data, rest != []);
      && o.taken == |data|
      && RunFrom(env, r.decoder, r.input.data + data + rest) == Explained(env, o.result, o.reader, rest)
  {
    var env := EnvOf(accepts, r);
    var r' := r.(input := r.input.Fill(data));
    var o := D.Decode(accepts, r.decoder, r'.input.data);
    D.DecodeFollows(accepts, r.decoder, r'.input.data);
    WindowOf(accepts, r.input.max, r.decoder, r'.input.data, rest);
    RunUnrolls(env, r.decoder, r'.input.data + rest);
    if o.result == NeedMore {
      WaitRefines(env, r', o, rest);
    } else {
      ActRefines(env, r', o, rest);
    }
  }

  lemma ReceiveSettles(accepts: D.Accepts, r: Reader, data: Bytes, unpushed: bool)
    requires Good(r) && TakesInput(r.state)
    requires r.input.data + data != [] && |data| <= r.input.Space()
    requires Receive(accepts, r, data, unpushed).result == NeedMore
    ensures var r' := Receive(accepts, r, data, unpushed).reader;
      !unpushed && Good(r') && ReadsInput(r'.state) && Settled(accepts, r')
  {
    ReceiveValid(accepts, r, data, unpushed);
    ReceiveInStep(accepts, r, data, unpushed);
  }

  /** One push in an input state moves along the reference run, and reports what that says. */
  lemma PushRefines(accepts: D.Accepts, r: Reader, data: Bytes)
    requires Good(r) && TakesInput(r.state)
    requires ReadsInput(r.state) ==> data != []
    ensures var o := Push(accepts, r, data, 0); var env := EnvOf(accepts, r);
      && o.taken <= |data|
      && RunFrom(env, r.decoder, r.input.data + data) == Explained(env, o.result, o.reader, data[o.taken..])
      && (o.result == NeedMore ==>
            o.taken == |data| && Good(o.reader) && ReadsInput(o.reader.state) && Settled(accepts, o.reader))
  {
    hide Receive, InStep, RunFrom, D.Decode, Explained;
    var n := PushCount(r, |data|);
    assert r.input.data + data[..n] + data[n..] == r.input.data + data;
    ReceiveRefines(accepts, r, data[..n], data[n..]);
    if Push(accepts, r, data, 0).result == NeedMore {
      ReceiveSettles(accepts, r, data[..n], n < |data|);
    }
  }

  // ---- the caller's loop ----

  datatype Driven = Driven(messages: seq<Bytes>, result: Result, reader: Reader, rest: Bytes)

  /**
   The loop of every caller of push: keep offering what is left of a chunk until the
   reader asks for more, ends, fails, or has an answer to write.
   */
  function Drive(accepts: D.Accepts, r: Reader, data: Bytes): Driven
    requires Good(r) && TakesInput(r.state)
    decreases |data|, |r.input.data|, r.input.max - r.input.size, r.input.at, Rank(r.state)
  {
    PushGood(accepts, r, data, 0);
    PushDecreases(accepts, r, data, 0);
    var o := Push(accepts, r, data, 0);
    var rest := data[o.taken..];
    if Loops(o) then
      var d := Drive(accepts, o.reader, rest);
      d.(messages := (if o.result == HaveDnstap then [o.reader.decoder.dnstap] else []) + d.messages)
    else Driven([], o.result, o.reader, rest)
  }

  /** How the loop came to an end, in the reference run's terms. */
  function EndOf(d: Driven): End {
    if d.result == NeedMore then Waiting(d.reader.decoder, d.reader.input.data)
    else if d.result == Error then Failed
    else if d.reader.state.EncodingAccept? then Answering(d.reader.decoder, d.reader.input.data + d.rest)
    else Ended
  }

  /** The stream is over: a bidirectional reader still has FINISH to write. */
  predicate Finished(bidirectional: bool, result: Result, s: ReaderState) {
    if bidirectional then result == Again && s.EncodingFinish? else result == EndOfData && s.Done?
  }

  predicate SameSetup(r: Reader, r': Reader) {
    r'.input.max == r.input.max && r'.allowBidirectional == r.allowBidirectional
  }

  /** What a decoding call leaves alone, and how its result goes with its state. */
  predicate Orderly(r: Reader, result: Result, r': Reader, unpushed: bool) {
    && SameSetup(r, r')
    && (result == HaveDnstap || result == NeedMore ==> TakesInput(r'.state))
    && (result == EndOfData ==> r'.state.Done?)
    && (result != Error && !r'.state.EncodingAccept? ==>
          && r'.isBidirectional == r.isBidirectional
          && (!TakesInput(r'.state) ==> Finished(r.isBidirectional, result, r'.state)))
    && result != Ok && result != Bidirectional
    && (result != Error && ReadsInput(r'.state) && !unpushed ==> r'.input.data == [] || result == NeedMore)
  }

  lemma ActOrderly(r: Reader, o: D.Decoded, control: bool, unpushed: bool)
    requires o.size <= |r.input.data| && o.result != Ok
    ensures var (result, r') := Act(r, o, control, unpushed); Orderly(r, result, r', unpushed)
  {
  }

  lemma PushOrderly(accepts: D.Accepts, r: Reader, data: Bytes)
    requires Good(r) && TakesInput(r.state)
    ensures var o := Push(accepts, r, data, 0);
      o.taken <= |data| && Orderly(r, o.result, o.reader, o.taken < |data|)
  {
    hide D.Decode, InStep;
    if Decodes(r.state) || data != [] {
      var n := PushCount(r, |data|);
      var r' := r.(input := r.input.Fill(data[..n]));
      ActOrderly(r', D.Decode(accepts, r'.decoder, r'.input.data), Control(r.state), n < |data|);
    }
  }

  predicate Loops(o: Outcome) {
    o.result == HaveDnstap || (o.result == Again && TakesInput(o.reader.state))
  }

  /** Everything the loop needs to know of one call. */
  lemma PushForLoop(accepts: D.Accepts, r: Reader, data: Bytes)
    requires Good(r) && TakesInput(r.state)
    requires ReadsInput(r.state) ==> data != []
    ensures var o := Push(accepts, r, data, 0); var env := EnvOf(accepts, r);
      && o.taken <= |data|
      && (Loops(o) ==>
            && Good(o.reader) && TakesInput(o.reader.state) && SameSetup(r, o.reader)
            && o.reader.isBidirectional == r.isBidirectional
            && (data[o.taken..] == [] ==> Settled(accepts, o.reader))
            && Less(MeasureOf(o.reader, |data| - o.taken), MeasureOf(r, |data|))
            && RunFrom(env, r.decoder, r.input.data + data)
               == Before(if o.result == HaveDnstap then [o.reader.decoder.dnstap] else [],
                         RunFrom(env, o.reader.decoder, o.reader.input.data + data[o.taken..])))
      && (!Loops(o) ==> Ends(accepts, r, data, Driven([], o.result, o.reader, data[o.taken..])))
  {
    hide Push, InStep, Valid, RunFrom, D.Decode;
    PushGood(accepts, r, data, 0);
    PushDecreases(accepts, r, data, 0);
    PushRefines(accepts, r, data);
    PushOrderly(accepts, r, data);
    var o := Push(accepts, r, data, 0);
    if o.result == NeedMore {
      SettledRuns(accepts, o.reader);
      assert data[o.taken..] == [];
      BeforeNothing(Run([], Waiting(o.reader.decoder, o.reader.input.data)));
    }
  }

  /** What is claimed of the loop. */
  ghost predicate Ends(accepts: D.Accepts, r: Reader, data: Bytes, d: Driven)
    requires Good(r)
  {
    && RunFrom(EnvOf(accepts, r), r.decoder, r.input.data + data) == Run(d.messages, EndOf(d))
    && SameSetup(r, d.reader)
    && (EndOf(d).Ended? ==> Finished(r.isBidirectional, d.result, d.reader.state))
    && (d.result == NeedMore ==>
          d.reader.isBidirectional == r.isBidirectional &&
          Good(d.reader) && ReadsInput(d.reader.state) && Settled(accepts, d.reader) && d.rest == [])
  }

  lemma {:induction false} DriveRefines(accepts: D.Accepts, r: Reader, data: Bytes)
    requires Good(r) && TakesInput(r.state)
    requires data == [] ==> Settled(accepts, r)
    ensures Ends(accepts, r, data, Drive(accepts, r, data))
    decreases |data|, |r.input.data|, r.input.max - r.input.size, r.input.at, Rank(r.state)
  {
    hide Push, Drive, InStep, RunFrom, D.Decode, Settled;
    if ReadsInput(r.state) && data == [] {
      SettledRuns(accepts, r);
      DriveNothing(accepts, r);
    } else {
      PushForLoop(accepts, r, data);
      var o := Push(accepts, r, data, 0);
      DriveUnrolls(accepts, r, data, o);
      if Loops(o) {
        DriveRefines(accepts, o.reader, data[o.taken..]);
      }
    }
  }

  lemma DriveNothing(accepts: D.Accepts, r: Reader)
    requires Good(r) && ReadsInput(r.state)
    ensures Drive(accepts, r, []) == Driven([], NeedMore, r, [])
  {
  }

  lemma DriveUnrolls(accepts: D.Accepts, r: Reader, data: Bytes, o: Outcome)
    requires Good(r) && TakesInput(r.state)
    requires o == Push(accepts, r, data, 0) && o.taken <= |data|
    requires Loops(o) ==> Good(o.reader) && TakesInput(o.reader.state)
    ensures Drive(accepts, r, data) ==
      if Loops(o) then
        var d := Drive(accepts, o.reader, data[o.taken..]);
        d.(messages := (if o.result == HaveDnstap then [o.reader.decoder.dnstap] else []) + d.messages)
      else Driven([], o.result, o.reader, data[o.taken..])
  {
  }

  lemma SettledRuns(accepts: D.Accepts, r: Reader)
    requires Good(r) && ReadsInput(r.state) && Settled(accepts, r)
    ensures RunFrom(EnvOf(accepts, r), r.decoder, r.input.data + []) == Run([], Waiting(r.decoder, r.input.data))
  {
    assert r.input.data + [] == r.input.data;
  }

  /** A chunk for the reader, after a `set_bufsize` when `resize` is not zero. */
  datatype Delivery = Delivery(chunk: Bytes, resize: nat)

  function Chunks(deliveries: seq<Delivery>): Bytes {
    if deliveries == [] then [] else deliveries[0].chunk + Chunks(deliveries[1..])
  }

  function Resized(r: Reader, size: nat): Reader {
    if size == 0 then r else SetBufsize(r, size).1
  }

  /** Chunk after chunk, until the reader ends, fails, or has an answer to write. */
  function DriveAll(accepts: D.Accepts, r: Reader, deliveries: seq<Delivery>): Driven
    requires Good(r) && ReadsInput(r.state)
    decreases |deliveries|
  {
    if deliveries == [] then Driven([], NeedMore, r, [])
    else
      ResizedGood(accepts, r, deliveries[0].resize);
      var r' := Resized(r, deliveries[0].resize);
      DriveWaits(accepts, r', deliveries[0].chunk);
      var d := Drive(accepts, r', deliveries[0].chunk);
      if d.result == NeedMore then
        var d' := DriveAll(accepts, d.reader, deliveries[1..]);
        d'.(messages := d.messages + d'.messages)
      else d.(rest := d.rest + Chunks(deliveries[1..]))
  }

  /** Offered nothing, a reader asks for more as it is; offered something, it decodes what it can. */
  lemma DriveWaits(accepts: D.Accepts, r: Reader, chunk: Bytes)
    requires Good(r) && ReadsInput(r.state)
    ensures chunk == [] ==> Drive(accepts, r, chunk) == Driven([], NeedMore, r, [])
    ensures chunk != [] ==> Ends(accepts, r, chunk, Drive(accepts, r, chunk))
    ensures var d := Drive(accepts, r, chunk);
      d.result == NeedMore ==> Good(d.reader) && ReadsInput(d.reader.state)
  {
    hide Drive, InStep, RunFrom, D.Decode;
    if chunk == [] {
      DriveNothing(accepts, r);
    } else {
      DriveRefines(accepts, r, chunk);
    }
  }

  lemma ResizedGood(accepts: D.Accepts, r: Reader, size: nat)
    requires Good(r) && ReadsInput(r.state)
    ensures var r' := Resized(r, size);
      && Good(r') && ReadsInput(r'.state) && (Settled(accepts, r') <==> Settled(accepts, r)) && SameSetup(r, r')
      && r'.decoder == r.decoder && r'.input.data == r.input.data && r'.isBidirectional == r.isBidirectional
  {
    if size != 0 {
      SetBufsizeGood(r, size);
    }
  }

  /** A chunk is followed by the rest of the stream. */
  lemma ChunkThenRest(env: Env, d: D.Decoder, s: Bytes, later: Bytes, c: Driven)
    requires RunFrom(env, d, s) == Run(c.messages, EndOf(c))
    ensures c.result == NeedMore ==>
      RunFrom(env, d, s + later)
      == Before(c.messages, RunFrom(env, c.reader.decoder, c.reader.input.data + later))
    ensures c.result != NeedMore ==>
      RunFrom(env, d, s + later) == Run(c.messages, EndOf(c.(rest := c.rest + later)))
  {
    RunSplits(env, d, s, later);
    assert c.reader.input.data + (c.rest + later) == c.reader.input.data + c.rest + later;
  }

  lemma {:induction false} PendingIsRest(env: Env, d: D.Decoder, s: Bytes)
    ensures RunFrom(env, d, s).end.Waiting? ==> |RunFrom(env, d, s).end.pending| <= |s|
    decreases |s|
  {
    hide D.Decode;
    if s != [] && Next(env, d, s).Go? {
      PendingIsRest(env, Next(env, d, s).decoder, Next(env, d, s).rest);
    }
  }

  /** A reader is right to ask for input just when it holds nothing it could decode. */
  lemma RightToAsk(accepts: D.Accepts, r: Reader)
    requires Good(r) && ReadsInput(r.state)
    ensures RunFrom(EnvOf(accepts, r), r.decoder, r.input.data) == Run([], Waiting(r.decoder, r.input.data))
      <==> Settled(accepts, r)
  {
    hide D.Decode, InStep;
    var env := EnvOf(accepts, r);
    var s := r.input.data;
    if s != [] {
      assert Window(env.limit, s) == s;
      if Next(env, r.decoder, s).Go? {
        PendingIsRest(env, Next(env, r.decoder, s).decoder, Next(env, r.decoder, s).rest);
      }
    }
  }

  /** The caller has bytes to offer, or the reader is right to ask for them. */
  predicate Supplied(accepts: D.Accepts, r: Reader, deliveries: seq<Delivery>)
    requires Valid(r)
  {
    Chunks(deliveries) != [] || Settled(accepts, r)
  }

  /** What is claimed of the loop over all the chunks. */
  ghost predicate Refines(accepts: D.Accepts, r: Reader, deliveries: seq<Delivery>)
    requires Good(r) && ReadsInput(r.state)
  {
    var d := DriveAll(accepts, r, deliveries);
    && RunFrom(EnvOf(accepts, r), r.decoder, r.input.data + Chunks(deliveries)) == Run(d.messages, EndOf(d))
    && (EndOf(d).Ended? ==> Finished(r.isBidirectional, d.result, d.reader.state))
  }

  /**
   The push loop computes the reference run of the bytes it was given, whatever the chunks,
   from any state that asks for input: just when there is a byte to give it, or it holds
   nothing it could decode.
   */
  lemma DriveAllRefines(accepts: D.Accepts, r: Reader, deliveries: seq<Delivery>)
    requires Good(r) && ReadsInput(r.state)
    ensures Refines(accepts, r, deliveries) <==> Supplied(accepts, r, deliveries)
  {
    hide InStep, RunFrom, Settled, DriveAll;
    if Supplied(accepts, r, deliveries) {
      SuppliedRefines(accepts, r, deliveries);
    } else {
      DriveAllNothing(accepts, r, deliveries);
      RightToAsk(accepts, r);
      assert r.input.data + [] == r.input.data;
    }
  }

  lemma {:induction false} DriveAllNothing(accepts: D.Accepts, r: Reader, deliveries: seq<Delivery>)
    requires Good(r) && ReadsInput(r.state) && Chunks(deliveries) == []
    ensures var d := DriveAll(accepts, r, deliveries);
      d.messages == [] && EndOf(d) == Waiting(r.decoder, r.input.data)
    decreases |deliveries|
  {
    hide InStep, RunFrom, Drive, Settled;
    if deliveries != [] {
      ResizedGood(accepts, r, deliveries[0].resize);
      var r' := Resized(r, deliveries[0].resize);
      DriveWaits(accepts, r', deliveries[0].chunk);
      DriveAllNothing(accepts, r', deliveries[1..]);
    }
  }

  lemma {:induction false} SuppliedRefines(accepts: D.Accepts, r: Reader, deliveries: seq<Delivery>)
    requires Good(r) && ReadsInput(r.state) && Supplied(accepts, r, deliveries)
    ensures Refines(accepts, r, deliveries)
    decreases |deliveries|
  {
    hide Drive, InStep, RunFrom, Settled;
    if deliveries == [] {
      SettledRuns(accepts, r);
    } else {
      var chunk, later := deliveries[0].chunk, Chunks(deliveries[1..]);
      ResizedGood(accepts, r, deliveries[0].resize);
      var r' := Resized(r, deliveries[0].resize);
      DriveWaits(accepts, r', chunk);
      var d := Drive(accepts, r', chunk);
      assert r.input.data + Chunks(deliveries) == (r.input.data + chunk) + later;
      if chunk == [] {
        assert r.input.data + chunk == r.input.data;
        SuppliedRefines(accepts, r', deliveries[1..]);
      } else {
        ChunkThenRest(EnvOf(accepts, r), r.decoder, r.input.data + chunk, later, d);
        if d.result == NeedMore {
          SuppliedRefines(accepts, d.reader, deliveries[1..]);
        }
      }
    }
  }

  /**
   Chunking independence.  Two readers that start alike and have the same `max` deliver
   the same messages and come to the same end on the same bytes, for malformed streams
   too: the chunks, the initial sizes, the increments and the resizes do not show.
   */
  lemma ChunkingIndependence(accepts: D.Accepts, r1: Reader, r2: Reader, ds1: seq<Delivery>, ds2: seq<Delivery>)
    requires Good(r1) && ReadsInput(r1.state) && Good(r2) && ReadsInput(r2.state)
    requires SameSetup(r1, r2) && r1.decoder == r2.decoder && r1.input.data == r2.input.data
    requires Chunks(ds1) == Chunks(ds2)
    ensures var d1, d2 := DriveAll(accepts, r1, ds1), DriveAll(accepts, r2, ds2);
      d1.messages == d2.messages && EndOf(d1) == EndOf(d2)
  {
    hide InStep, RunFrom, DriveAll;
    if Supplied(accepts, r1, ds1) {
      DriveAllRefines(accepts, r1, ds1);
      DriveAllRefines(accepts, r2, ds2);
    } else {
      DriveAllNothing(accepts, r1, ds1);
      DriveAllNothing(accepts, r2, ds2);
    }
  }
}
