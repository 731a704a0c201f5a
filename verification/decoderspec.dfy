/** The receive-side protocol machine, one call of `dnswire_decoder_decode` at a time. */
module DecoderSpec {
  import opened Wire
  import opened Results
  import FS = FrameStreams

  datatype DecoderState =
    | ReadingControl
    | CheckingReady
    | CheckingAccept
    | ReadingStart
    | CheckingStart
    | ReadingFrames
    | CheckingFinish
    | Done

  /** `dnstap` is the message held, as its packed bytes; [] when there is none. */
  datatype Decoder = Decoder(
    state: DecoderState,
    reader: FS.FrameReader,
    readySupport: bool,
    acceptSupport: bool,
    dnstap: Bytes)

  datatype Decoded = Decoded(result: Result, decoder: Decoder, size: nat)

  const Fresh := Decoder(ReadingControl, FS.Fresh, false, false, [])

  /** Whether a whole-message payload unpacks: the protobuf decoder, left open. */
  type Accepts = Bytes -> bool

  function Decode(accepts: Accepts, d: Decoder, s: Bytes): (r: Decoded)
    requires |s| > 0
    ensures Plausible(r, |s|)
    ensures r.result == NeedMore || r.result == Error ==> r.decoder == d
    ensures r.result != Ok
    ensures r.result == HaveDnstap ==> 0 < |r.decoder.dnstap| < 0x1_0000_0000
  {
    if d.state.Done? then Decoded(Error, d, 0)
    else
      match FS.Read(d.reader, s)
      case NeedMore => Decoded(NeedMore, d, 0)
      case Bad => Decoded(Error, d, 0)
      case Got(item, size, next) => Accept(accepts, d, item, size, next)
  }

  /** What the machine does with an item the framing layer has read. */
  function Accept(accepts: Accepts, d: Decoder, item: FS.Item, size: nat, next: FS.FrameReader): Decoded {
    var fail := Decoded(Error, d, 0);
    var d' := d.(reader := next);
    match d.state
    case ReadingControl =>
      if item == FS.Control(FS.READY) then Decoded(Again, d'.(state := CheckingReady), size)
      else if item == FS.Control(FS.ACCEPT) then Decoded(Again, d'.(state := CheckingAccept), size)
      else if item == FS.Control(FS.START) then Decoded(Again, d'.(state := CheckingStart), size)
      else fail
    case CheckingReady =>
      if !item.Field? || item.fieldType != FS.FIELD_CONTENT_TYPE then fail
      else
        var c := d'.(readySupport := d.readySupport || Matches(item.data));
        if next.left == 0 then Decoded(Bidirectional, c.(state := ReadingStart), size)
        else Decoded(Again, c, size)
    case CheckingAccept =>
      if !item.Field? || item.fieldType != FS.FIELD_CONTENT_TYPE then fail
      else
        var c := d'.(acceptSupport := d.acceptSupport || Matches(item.data));
        if next.left == 0 then Decoded(Bidirectional, c.(state := CheckingFinish), size)
        else Decoded(Again, c, size)
    case ReadingStart =>
      if item == FS.Control(FS.START) then Decoded(Again, d'.(state := CheckingStart), size)
      else fail
    case CheckingStart =>
      if !item.Field? || item.fieldType != FS.FIELD_CONTENT_TYPE || !Matches(item.data) then fail
      else Decoded(Again, d'.(state := ReadingFrames), size)
    case ReadingFrames =>
      match item {
        case Frame(payload) =>
          if accepts(payload) then Decoded(HaveDnstap, d'.(dnstap := payload), size) else fail
        case Stopped => Decoded(EndOfData, d'.(state := Done), size)
        case _ => fail
      }
    case CheckingFinish =>
      if item.Finished? then Decoded(EndOfData, d'.(state := Done), size) else fail
    case Done => fail
  }

  /** What an answer's byte count may be, `length` bytes having been offered. */
  predicate Plausible(o: Decoded, length: nat) {
    && o.size <= length
    && (o.size == 0 <==> o.result == NeedMore || o.result == Error)
  }

  /** The protocol's own transitions, whatever the bytes were. */
  predicate Follows(d: Decoder, o: Decoded) {
    var d' := o.decoder;
    && (d'.readySupport != d.readySupport ==> d.state.CheckingReady? && d'.readySupport)
    && (d'.acceptSupport != d.acceptSupport ==> d.state.CheckingAccept? && d'.acceptSupport)
    && (o.result != HaveDnstap ==> d'.dnstap == d.dnstap)
    && match o.result {
         case Again =>
           (match d.state
            case ReadingControl => d'.state.CheckingReady? || d'.state.CheckingAccept? || d'.state.CheckingStart?
            case CheckingReady => d'.state.CheckingReady?
            case CheckingAccept => d'.state.CheckingAccept?
            case ReadingStart => d'.state.CheckingStart?
            case CheckingStart => d'.state.ReadingFrames?
            case _ => false)
         case Bidirectional =>
           || (d.state.CheckingReady? && d'.state.ReadingStart?)
           || (d.state.CheckingAccept? && d'.state.CheckingFinish?)
         case HaveDnstap => d.state.ReadingFrames? && d'.state.ReadingFrames?
         case EndOfData => (d.state.ReadingFrames? || d.state.CheckingFinish?) && d'.state.Done?
         case NeedMore => !d.state.Done? && d' == d
         case Error => d' == d
         case Ok => false
       }
  }

  lemma DecodeFollows(accepts: Accepts, d: Decoder, s: Bytes)
    requires |s| > 0
    ensures Follows(d, Decode(accepts, d, s))
  {
    if !d.state.Done? && FS.Read(d.reader, s).Got? {
      var g := FS.Read(d.reader, s);
      match d.state
      case ReadingFrames =>
      case _ =>
    }
  }

  /** The items a decoder goes on from; any other is an error. */
  predicate Expects(accepts: Accepts, d: Decoder, item: FS.Item) {
    match d.state
    case ReadingControl => item == FS.Control(FS.READY) || item == FS.Control(FS.ACCEPT) || item == FS.Control(FS.START)
    case CheckingReady => item.Field? && item.fieldType == FS.FIELD_CONTENT_TYPE
    case CheckingAccept => item.Field? && item.fieldType == FS.FIELD_CONTENT_TYPE
    case ReadingStart => item == FS.Control(FS.START)
    case CheckingStart => item.Field? && item.fieldType == FS.FIELD_CONTENT_TYPE && Matches(item.data)
    case ReadingFrames => item.Stopped? || (item.Frame? && accepts(item.payload))
    case CheckingFinish => item.Finished?
    case Done => false
  }

  /** Need_more means an incomplete item and nothing else; an error, one that is broken or not expected. */
  lemma DecodeVerdict(accepts: Accepts, d: Decoder, s: Bytes)
    requires |s| > 0
    ensures var o := Decode(accepts, d, s); var read := FS.Read(d.reader, s);
      && (o.result == NeedMore <==> !d.state.Done? && read.NeedMore?)
      && (o.result == Error <==> d.state.Done? || read.Bad? || (read.Got? && !Expects(accepts, d, read.item)))
      && (o.result != NeedMore && o.result != Error ==> o.size == read.size && o.decoder.reader == read.next)
  {
  }

  /** A verdict on a prefix of the input is the verdict on the whole input. */
  lemma DecodeExtends(accepts: Accepts, d: Decoder, s: Bytes, x: Bytes)
    requires |s| > 0
    requires Decode(accepts, d, s).result != NeedMore
    ensures Decode(accepts, d, s + x) == Decode(accepts, d, s)
  {
    if !d.state.Done? {
      FS.ReadExtends(d.reader, s, x);
    }
  }
}
