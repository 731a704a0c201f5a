/** The send-side protocol machine: `dnswire_encoder_encode` and `dnswire_encoder_stop`. */
module EncoderSpec {
  import opened Wire
  import opened Results
  import FS = FrameStreams

  datatype EncoderState =
    | ControlReady
    | ControlStart
    | ControlAccept
    | ControlFinish
    | Frames
    | ControlStop
    | Done

  /** `dnstap` is the message to encode, as its packed bytes; [] when none is set. */
  datatype Encoder = Encoder(state: EncoderState, dnstap: Bytes)

  datatype Encoded = Encoded(result: Result, encoder: Encoder, bytes: Bytes)

  /** A protobuf message is never empty, and its length has to fit the frame header. */
  type Message = m: Bytes | 0 < |m| < 0x1_0000_0000 witness [0]

  const ReadyBytes: Bytes := FS.ControlBytes(FS.READY, [CONTENT_TYPE])
  const StartBytes: Bytes := FS.ControlBytes(FS.START, [CONTENT_TYPE])
  const AcceptBytes: Bytes := FS.ControlBytes(FS.ACCEPT, [CONTENT_TYPE])
  const StopBytes: Bytes := FS.ControlBytes(FS.STOP, [])
  const FinishBytes: Bytes := FS.ControlBytes(FS.FINISH, [])

  /** Whether there is anything to encode in this state. */
  predicate Encodes(e: Encoder) {
    !e.state.Done? && (e.state.Frames? ==> e.dnstap != [])
  }

  /** The bytes the next successful call writes. */
  function NextItem(e: Encoder): Bytes {
    match e.state
    case ControlReady => ReadyBytes
    case ControlStart => StartBytes
    case ControlAccept => AcceptBytes
    case ControlFinish => FinishBytes
    case Frames => FS.FrameBytes(e.dnstap)
    case ControlStop => StopBytes
    case Done => []
  }

  function AfterItem(e: Encoder): Encoder {
    match e.state
    case ControlReady => e.(state := ControlStart)
    case ControlStart => e.(state := Frames)
    case ControlAccept => e.(state := ControlFinish)
    case ControlFinish => e.(state := Done)
    case Frames => e
    case ControlStop => e.(state := Done)
    case Done => e
  }

  function ItemResult(e: Encoder): (r: Result)
    ensures r != NeedMore && (r == Error <==> e.state.Done?)
  {
    match e.state
    case Frames => Ok
    case ControlFinish => EndOfData
    case ControlStop => EndOfData
    case Done => Error
    case _ => Again
  }

  function Encode(e: Encoder, room: nat): Encoded
    requires room > 0
  {
    if !Encodes(e) then Encoded(Error, e, [])
    else if room < |NextItem(e)| then Encoded(NeedMore, e, [])
    else Encoded(ItemResult(e), AfterItem(e), NextItem(e))
  }

  function Stop(e: Encoder): (Result, Encoder) {
    if e.state.Frames? then (Ok, e.(state := ControlStop)) else (Error, e)
  }

  /**
   The answers of the encoder: error with nothing to encode, need_more exactly when there is
   no room for the whole item, and neither changes or writes anything; `ok` for a frame,
   `endofdata` for the item that ends its direction, and `again` for every other.
   */
  lemma EncodeAnswers(e: Encoder, room: nat)
    requires room > 0
    ensures var r := Encode(e, room);
      && (r.result == Error <==> e.state.Done? || (e.state.Frames? && e.dnstap == []))
      && (r.result == NeedMore <==> r.result != Error && room < |NextItem(e)|)
      && (r.result == Error || r.result == NeedMore ==> r.encoder == e && r.bytes == [])
      && (r.result != Error && r.result != NeedMore ==>
            && r.bytes == NextItem(e) != [] && r.encoder.dnstap == e.dnstap
            && (r.result == Ok <==> e.state.Frames?)
            && (r.result == EndOfData <==> r.encoder.state.Done?)
            && (r.result == Ok || r.result == EndOfData || r.result == Again))
  {
    ItemSizes();
  }

  /** A control frame with the content type is 42 bytes and one without is 12. */
  lemma ItemSizes()
    ensures |ReadyBytes| == |StartBytes| == |AcceptBytes| == 42
    ensures |StopBytes| == |FinishBytes| == 12
  {
    assert |CONTENT_TYPE| == 22;
    assert FS.FieldsBytes([CONTENT_TYPE]) == FS.FieldBytes(FS.FIELD_CONTENT_TYPE, CONTENT_TYPE) + FS.FieldsBytes([]);
    assert |FS.FieldsBytes([CONTENT_TYPE])| == 30;
    assert FS.FieldsBytes([]) == [];
  }
}
