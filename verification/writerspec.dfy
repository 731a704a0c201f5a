/** The writer, call by call: `dnswire_writer_write`, `dnswire_writer_pop`, `dnswire_writer_stop`. */
module WriterSpec {
  import opened Wire
  import opened Results
  import opened BufferSpec
  import D = DecoderSpec
  import E = EncoderSpec

  datatype WriterState =
    | EncodingReady
    | WritingReady
    | ReadingAccept
    | DecodingAccept
    | Encoding
    | Writing
    | Stopping
    | EncodingStop
    | WritingStop
    | ReadingFinish
    | DecodingFinish
    | Done

  datatype Writer = Writer(
    state: WriterState,
    encoder: E.Encoder,
    output: OutBuf,
    decoder: D.Decoder,
    input: InBuf,
    bidirectional: bool)

  /** The outcome of a call: bytes handed to the transport or the caller, and input bytes taken. */
  datatype Outcome = Outcome(result: Result, writer: Writer, sent: Bytes, taken: nat)

  /** One call's worth of transport: what its first and second write may move, and what a read may. */
  datatype Transport = Transport(first: nat, second: nat, canRead: Bytes)

  function Init(size: nat, inc: nat, max: nat, inSize: nat, inInc: nat, inMax: nat, bidirectional: bool): Writer {
    Writer(if bidirectional then EncodingReady else Encoding,
           E.Encoder(if bidirectional then E.ControlReady else E.ControlStart, []),
           OutBuf([], 0, size, inc, max), D.Fresh, InBuf([], 0, inSize, inInc, inMax), bidirectional)
  }

  predicate Sends(s: WriterState) {
    s.WritingReady? || s.Writing? || s.WritingStop?
  }

  predicate Encodes(s: WriterState) {
    s.EncodingReady? || s.Encoding? || s.EncodingStop?
  }

  predicate Decodes(s: WriterState) {
    s.DecodingAccept? || s.DecodingFinish?
  }

  /** What holds of a writer's buffers between any two calls that did not fail. */
  predicate Valid(w: Writer) {
    && w.output.Tidy() && w.input.Tidy()
    && (Sends(w.state) ==> w.output.data != [])
    && (!Sends(w.state) && !w.state.Stopping? ==> w.output.data == [])
    && (Decodes(w.state) ==> w.input.data != [])
  }

  // ---- output ----

  /** One item is encoded; `draining` is the state in which its bytes are drained. */
  function Encode(w: Writer, draining: WriterState): (Result, Writer)
    requires Valid(w) && w.output.data == []
  {
    var e := EncodeInto(w.encoder, w.output);
    var w' := w.(encoder := e.encoder, output := e.buf);
    (e.result, if e.result != Error && e.buf.data != [] then w'.(state := draining) else w')
  }

  /** A write that moves up to `n` bytes; moving nothing is an error. */
  function Drain(w: Writer, n: nat, result: Result, empty: WriterState): Outcome {
    var k := Min(n, |w.output.data|);
    if k == 0 then Outcome(Error, w, [], 0)
    else
      var w' := w.(output := w.output.Drain(k));
      Outcome(result, if w'.output.data == [] then w'.(state := empty) else w', w.output.data[..k], 0)
  }

  /** READY: encoded, and drained in state `writing`; only a complete drain leads on to ACCEPT. */
  function SendReady(w: Writer, n: nat): Outcome
    requires Valid(w) && (w.state.EncodingReady? || w.state.WritingReady?)
  {
    var (result, w') := if w.state.EncodingReady? then Encode(w, Writing) else (Again, w);
    if result == Error || w'.output.data == [] then Outcome(result, w', [], 0)
    else Drain(w', n, result, ReadingAccept)
  }

  /** START and the frames. */
  function SendFrames(w: Writer, n: nat): Outcome
    requires Valid(w) && (w.state.Encoding? || w.state.Writing?)
  {
    var (result, w') := if w.state.Encoding? then Encode(w, Writing) else (Again, w);
    if result == Error || w'.output.data == [] then Outcome(result, w', [], 0)
    else Drain(w', n, result, Encoding)
  }

  /** STOP, once nothing else is pending. */
  function SendStop(w: Writer, n: nat): Outcome
    requires Valid(w) && (w.state.EncodingStop? || w.state.WritingStop?)
  {
    var (result, w') := if w.state.EncodingStop? then Encode(w, WritingStop) else (EndOfData, w);
    if result != EndOfData then Outcome(result, w', [], 0)
    else
      var o := Drain(w', n, Again, if w.bidirectional then ReadingFinish else Done);
      if o.result != Error && o.writer.state.Done? then o.(result := EndOfData) else o
  }

  /** What is pending goes first; a second write in the same call may follow with STOP. */
  function SendRest(w: Writer, first: nat, second: nat): Outcome
    requires Valid(w) && w.state.Stopping?
  {
    if w.output.data == [] then SendStop(w.(state := EncodingStop), first)
    else
      var o := Drain(w, first, Again, EncodingStop);
      if o.result == Error || o.writer.state.Stopping? then o
      else
        var p := SendStop(o.writer, second);
        p.(sent := o.sent + p.sent)
  }

  // ---- input ----

  function Consume(w: Writer, d: D.Decoder, n: nat): Writer
    requires n <= |w.input.data|
  {
    w.(decoder := d, input := w.input.Consume(n))
  }

  /** Whatever is being waited for, an incomplete item sends the writer to `reading_accept`. */
  function WaitForMore(w: Writer): (Result, Writer) {
    match w.input.MakeRoom()
    case Some(input) => (NeedMore, w.(input := input, state := ReadingAccept))
    case None => (Error, w)
  }

  function ActOnAccept(w: Writer, o: D.Decoded): (Result, Writer)
    requires o.size <= |w.input.data|
  {
    match o.result
    case Bidirectional =>
      var w' := Consume(w, o.decoder, o.size);
      if !o.decoder.acceptSupport then (Error, w') else (Again, w'.(state := Encoding))
    case Again =>
      var w' := Consume(w, o.decoder, o.size);
      (Again, w'.(state := if w'.input.data == [] then ReadingAccept else DecodingAccept))
    case NeedMore => WaitForMore(w)
    case _ => (Error, w.(decoder := o.decoder))
  }

  function ActOnFinish(w: Writer, o: D.Decoded): (Result, Writer) {
    match o.result
    case EndOfData => (EndOfData, w.(decoder := o.decoder, state := Done))
    case NeedMore => WaitForMore(w)
    case _ => (Error, w.(decoder := o.decoder))
  }

  predicate ReadsInput(s: WriterState) {
    s.ReadingAccept? || s.ReadingFinish?
  }

  predicate TakesInput(s: WriterState) {
    ReadsInput(s) || Decodes(s)
  }

  /** New input, if any, joins what is held, and one item of that is decoded. */
  function Receive(accepts: D.Accepts, w: Writer, data: Bytes): Outcome
    requires TakesInput(w.state) && w.input.data + data != []
  {
    var w' := w.(input := w.input.Fill(data));
    var o := D.Decode(accepts, w'.decoder, w'.input.data);
    var (result, w'') :=
      if w.state.ReadingAccept? || w.state.DecodingAccept? then ActOnAccept(w', o) else ActOnFinish(w', o);
    Outcome(result, w'', [], |data|)
  }

  function ReadCount(w: Writer, length: nat): (n: nat)
    requires w.input.Valid()
    ensures n <= length
  {
    if ReadsInput(w.state) then Min(w.input.Space(), length) else 0
  }

  function ReceiveSome(accepts: D.Accepts, w: Writer, canRead: Bytes): Outcome
    requires Valid(w) && TakesInput(w.state)
  {
    var n := ReadCount(w, |canRead|);
    if ReadsInput(w.state) && n == 0 then Outcome(Error, w, [], 0)
    else Receive(accepts, w, canRead[..n])
  }

  // ---- calls ----

  /** After READY has left, the same call goes on to wait for ACCEPT. */
  function Write(accepts: D.Accepts, w: Writer, io: Transport): Outcome
    requires Valid(w)
  {
    match w.state
    case Stopping => SendRest(w, io.first, io.second)
    case EncodingStop => SendStop(w, io.first)
    case WritingStop => SendStop(w, io.first)
    case Encoding => SendFrames(w, io.first)
    case Writing => SendFrames(w, io.first)
    case Done => Outcome(Error, w, [], 0)
    case EncodingReady => SendReadyAndWait(accepts, w, io)
    case WritingReady => SendReadyAndWait(accepts, w, io)
    case _ => ReceiveSome(accepts, w, io.canRead)
  }

  function SendReadyAndWait(accepts: D.Accepts, w: Writer, io: Transport): Outcome
    requires Valid(w) && (w.state.EncodingReady? || w.state.WritingReady?)
  {
    var o := SendReady(w, io.first);
    if o.result == Error || !o.writer.state.ReadingAccept? || !Valid(o.writer) then o
    else ReceiveSome(accepts, o.writer, io.canRead).(sent := o.sent)
  }

  /**
   Unidirectional pop into `len` bytes of the caller's.  `sent` is what the caller finds
   there: in `stopping`, STOP is copied over what was pending.
   */
  function Pop(w: Writer, len: Len): Outcome
    requires Valid(w) && !w.bidirectional
  {
    match w.state
    case Stopping =>
      if w.output.data == [] then SendStop(w.(state := EncodingStop), len)
      else
        var o := Drain(w, len, Again, EncodingStop);
        if o.writer.state.Stopping? then o else SendStop(o.writer, len)
    case EncodingStop => SendStop(w, len)
    case WritingStop => SendStop(w, len)
    case Encoding => SendFrames(w, len)
    case Writing => SendFrames(w, len)
    case _ => Outcome(Error, w, [], 0)
  }

  type Len = n: int | n > 0 witness 1

  function Stop(w: Writer): (Result, Writer) {
    var (result, e) := E.Stop(w.encoder);
    (result, if result == Ok then w.(encoder := e, state := Stopping) else w)
  }

  function SetDnstap(w: Writer, m: E.Message): Writer {
    w.(encoder := w.encoder.(dnstap := m))
  }

  /** For the sizes that lose nothing; `BufferSpec.ResizeExact` shows what the others do. */
  function SetBufsize(w: Writer, size: nat): (Result, Writer)
    requires !w.output.Displaces(size)
  {
    match w.output.SetSize(size)
    case Some(output) => (Ok, w.(output := output))
    case None => (Error, w)
  }
}
