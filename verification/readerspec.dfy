/** The reader, call by call: what `dnswire_reader_push` and `dnswire_reader_read` do. */
module ReaderSpec {
  import opened Wire
  import opened Results
  import opened BufferSpec
  import D = DecoderSpec
  import E = EncoderSpec

  datatype ReaderState =
    | ReadingControl
    | DecodingControl
    | EncodingAccept
    | WritingAccept
    | Reading
    | Decoding
    | EncodingFinish
    | WritingFinish
    | Done

  datatype Reader = Reader(
    state: ReaderState,
    decoder: D.Decoder,
    input: InBuf,
    encoder: E.Encoder,
    output: OutBuf,
    allowBidirectional: bool,
    isBidirectional: bool)

  /** The outcome of a call: `taken` input bytes accepted, `sent` bytes handed out. */
  datatype Outcome = Outcome(result: Result, reader: Reader, taken: nat, sent: Bytes)

  /** One call's worth of transport: a write moves at most `canWrite` bytes, a read at most `canRead`. */
  datatype Transport = Transport(canWrite: nat, canRead: Bytes)

  /** A reader set up and not yet used. */
  function Init(size: nat, inc: nat, max: nat, outSize: nat, outInc: nat, outMax: nat, bidirectional: bool): Reader {
    Reader(ReadingControl, D.Fresh, InBuf([], 0, size, inc, max),
           E.Encoder(if bidirectional then E.ControlAccept else E.ControlStart, []),
           OutBuf([], 0, outSize, outInc, outMax), bidirectional, false)
  }

  predicate ReadsInput(s: ReaderState) {
    s.ReadingControl? || s.Reading?
  }

  predicate Decodes(s: ReaderState) {
    s.DecodingControl? || s.Decoding?
  }

  predicate Writes(s: ReaderState) {
    s.EncodingAccept? || s.WritingAccept? || s.EncodingFinish? || s.WritingFinish?
  }

  /** `at` and `left` move past `n` decoded bytes; the state goes with what is left. */
  function Consume(r: Reader, d: D.Decoder, n: nat, more: ReaderState, empty: ReaderState): Reader
    requires n <= |r.input.data|
  {
    var input := r.input.Consume(n);
    r.(decoder := d, input := input, state := if input.data == [] then empty else more)
  }

  /** The two decoding states, once the decoder has answered; `control` tells which of them. */
  function Act(r: Reader, o: D.Decoded, control: bool, unpushed: bool): (Result, Reader)
    requires o.size <= |r.input.data|
  {
    var reading := if control then ReadingControl else Reading;
    match o.result
    case Bidirectional =>
      if !control then (Error, r.(decoder := o.decoder))
      else
        var r' := Consume(r, o.decoder, o.size, DecodingControl, ReadingControl);
        if !r.allowBidirectional then (Error, r')
        else if !o.decoder.readySupport then (Error, r'.(isBidirectional := true))
        else (Again, r'.(isBidirectional := true, state := EncodingAccept))
    case Again =>
      (Again, Consume(r, o.decoder, o.size, if control then DecodingControl else Decoding, reading))
    case NeedMore =>
      (match r.input.MakeRoom()
       case Some(input) => (if unpushed then Again else NeedMore, r.(input := input, state := reading))
       case None => (Error, r))
    case HaveDnstap =>
      (HaveDnstap, Consume(r, o.decoder, o.size, Decoding, Reading))
    case EndOfData =>
      if r.isBidirectional then (Again, r.(decoder := o.decoder, state := EncodingFinish))
      else (EndOfData, r.(decoder := o.decoder, state := Done))
    case _ => (Error, r.(decoder := o.decoder))
  }

  predicate Control(s: ReaderState) {
    s.ReadingControl? || s.DecodingControl?
  }

  predicate TakesInput(s: ReaderState) {
    ReadsInput(s) || Decodes(s)
  }

  /** New input, if any, joins what is held, and one item of that is decoded. */
  function Receive(accepts: D.Accepts, r: Reader, data: Bytes, unpushed: bool): Outcome
    requires r.input.data + data != []
  {
    var r' := r.(input := r.input.Fill(data));
    var (result, r'') := Act(r', D.Decode(accepts, r'.decoder, r'.input.data), Control(r.state), unpushed);
    Outcome(result, r'', |data|, [])
  }

  /** Up to `room` bytes of ACCEPT or FINISH leave; the last of them changes the state. */
  function Emit(r: Reader, room: nat, accept: bool): Outcome {
    var n := Min(|r.output.data|, room);
    var r' := r.(output := r.output.Drain(n));
    var sent := r.output.data[..n];
    if r'.output.data != [] then Outcome(Again, r', 0, sent)
    else if accept then Outcome(Again, r'.(state := ReadingControl), 0, sent)
    else Outcome(EndOfData, r'.(state := Done), 0, sent)
  }

  /** ACCEPT or FINISH is encoded, unless that has been done. */
  function Encode(r: Reader): (Result, Reader)
    requires Writes(r.state) && 0 < r.output.inc
    requires r.state.EncodingAccept? || r.state.EncodingFinish? ==> r.output.at < r.output.size
  {
    if r.state.WritingAccept? || r.state.WritingFinish? then (Again, r)
    else
      var e := EncodeInto(r.encoder, r.output);
      var r' := r.(encoder := e.encoder, output := e.buf);
      if r.state.EncodingAccept? && e.result == Again then (Again, r'.(state := WritingAccept))
      else if r.state.EncodingFinish? && e.result == EndOfData then (Again, r'.(state := WritingFinish))
      else (Error, r')
  }

  /** How much of the caller's data a push copies: nothing while there is data to decode. */
  function PushCount(r: Reader, length: nat): (n: nat)
    requires r.input.Valid()
    ensures n <= length
  {
    if ReadsInput(r.state) then Min(r.input.Space(), length) else 0
  }

  function Push(accepts: D.Accepts, r: Reader, data: Bytes, room: nat): Outcome
    requires Valid(r)
  {
    if TakesInput(r.state) then
      if ReadsInput(r.state) && data == [] then Outcome(NeedMore, r, 0, [])
      else
        var n := PushCount(r, |data|);
        Receive(accepts, r, data[..n], n < |data|)
    else if Writes(r.state) then
      var (result, r') := Encode(r);
      if result == Error then Outcome(Error, r', 0, [])
      else Emit(r', room, r'.state.WritingAccept?)
    else Outcome(Error, r, 0, [])
  }

  /**
   A transport that moves nothing makes the call an error: it may be at its end, it may have
   failed, or it may be that the buffer has no room to read into.
   */
  function Read(accepts: D.Accepts, r: Reader, io: Transport): Outcome
    requires Valid(r)
  {
    if TakesInput(r.state) then
      var n := PushCount(r, |io.canRead|);
      if ReadsInput(r.state) && n == 0 then Outcome(Error, r, 0, [])
      else Receive(accepts, r, io.canRead[..n], false)
    else if Writes(r.state) then
      var (result, r') := Encode(r);
      if result == Error || r'.output.data == [] || io.canWrite == 0 then Outcome(Error, r', 0, [])
      else Emit(r', io.canWrite, r'.state.WritingAccept?)
    else Outcome(Error, r, 0, [])
  }

  /** What holds of a reader's buffers between any two calls that did not fail. */
  predicate Valid(r: Reader) {
    && r.input.Valid() && r.output.Valid()
    && (ReadsInput(r.state) || r.state.EncodingAccept? || r.state.WritingAccept? ==> r.input.Tidy())
    && (Decodes(r.state) ==> r.input.data != [])
    && (r.state.EncodingAccept? || r.state.EncodingFinish? ==> r.output.data == [] && r.output.at == 0)
    && (r.state.WritingAccept? || r.state.WritingFinish? ==> r.output.data != [])
    && (ReadsInput(r.state) || Decodes(r.state) || r.state.Done? ==> r.output.data == [] && r.output.at == 0)
  }

  function SetBufsize(r: Reader, size: nat): (Result, Reader) {
    match r.input.SetSize(size)
    case Some(input) => (Ok, r.(input := input))
    case None => (Error, r)
  }
}
