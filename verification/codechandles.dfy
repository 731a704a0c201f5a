/**
 The decoder and the encoder as the library keeps them: structures whose fields every
 call updates.
 */
module CodecHandles {
  import opened Wire
  import opened Results
  import FS = FrameStreams
  import D = DecoderSpec
  import E = EncoderSpec

  /** `memcpy` of `src` to `dst[at..]`. */
  method Copy(dst: array<byte>, at: nat, src: Bytes)
    requires at + |src| <= dst.Length
    modifies dst
    ensures dst[..] == old(dst[..at]) + src + old(dst[at + |src|..])
  {
    forall i | 0 <= i < |src| {
      dst[at + i] := src[i];
    }
  }

  class Decoder {
    var state: D.DecoderState
    var reader: FS.FrameReader
    var readySupport: bool
    var acceptSupport: bool
    var dnstap: Bytes
    var decoded: nat

    function Model(): D.Decoder
      reads this
    {
      D.Decoder(state, reader, readySupport, acceptSupport, dnstap)
    }

    constructor ()
      ensures Model() == D.Fresh
    {
      state, reader := D.ReadingControl, FS.Fresh;
      readySupport, acceptSupport, dnstap, decoded := false, false, [], 0;
    }

    method Decode(accepts: D.Accepts, data: Bytes) returns (result: Result)
      requires |data| > 0
      modifies this
      ensures D.Decoded(result, Model(), decoded) == D.Decode(accepts, old(Model()), data)
    {
      decoded := 0;
      if state.Done? {
        return Error;
      }
      match FS.Read(reader, data)
      case NeedMore => return NeedMore;
      case Bad => return Error;
      case Got(item, size, next) => result := Act(accepts, item, size, next);
    }

    /** The switch over the states, once the framing layer has an item. */
    method Act(accepts: D.Accepts, item: FS.Item, size: nat, next: FS.FrameReader) returns (result: Result)
      requires decoded == 0
      modifies this
      ensures D.Decoded(result, Model(), decoded) == D.Accept(accepts, old(Model()), item, size, next)
    {
      match state
      case ReadingControl =>
        if item == FS.Control(FS.READY) {
          state := D.CheckingReady;
        } else if item == FS.Control(FS.ACCEPT) {
          state := D.CheckingAccept;
        } else if item == FS.Control(FS.START) {
          state := D.CheckingStart;
        } else {
          return Error;
        }
        reader, decoded := next, size;
        return Again;
      case CheckingReady =>
        if !item.Field? || item.fieldType != FS.FIELD_CONTENT_TYPE {
          return Error;
        }
        if Matches(item.data) {
          readySupport := true;
        }
        reader, decoded := next, size;
        if next.left == 0 {
          state := D.ReadingStart;
          return Bidirectional;
        }
        return Again;
      case CheckingAccept =>
        if !item.Field? || item.fieldType != FS.FIELD_CONTENT_TYPE {
          return Error;
        }
        if Matches(item.data) {
          acceptSupport := true;
        }
        reader, decoded := next, size;
        if next.left == 0 {
          state := D.CheckingFinish;
          return Bidirectional;
        }
        return Again;
      case ReadingStart =>
        if item != FS.Control(FS.START) {
          return Error;
        }
        state, reader, decoded := D.CheckingStart, next, size;
        return Again;
      case CheckingStart =>
        if !item.Field? || item.fieldType != FS.FIELD_CONTENT_TYPE || !Matches(item.data) {
          return Error;
        }
        state, reader, decoded := D.ReadingFrames, next, size;
        return Again;
      case ReadingFrames =>
        if item.Frame? && accepts(item.payload) {
          dnstap, reader, decoded := item.payload, next, size;
          return HaveDnstap;
        } else if item.Stopped? {
          state, reader, decoded := D.Done, next, size;
          return EndOfData;
        }
        return Error;
      case CheckingFinish =>
        if !item.Finished? {
          return Error;
        }
        state, reader, decoded := D.Done, next, size;
        return EndOfData;
      case Done =>
        return Error;
    }
  }

  class Encoder {
    var state: E.EncoderState
    var dnstap: Bytes
    var encoded: nat

    function Model(): E.Encoder
      reads this
    {
      E.Encoder(state, dnstap)
    }

    constructor (start: E.EncoderState)
      ensures Model() == E.Encoder(start, [])
    {
      state, dnstap, encoded := start, [], 0;
    }

    /** One item into `out[at..]`, if that holds it; nothing else of `out` changes. */
    method Encode(out: array<byte>, at: nat) returns (result: Result)
      requires at < out.Length
      modifies this, out
      ensures var o := E.Encode(old(Model()), out.Length - at);
        && result == o.result && Model() == o.encoder && encoded == |o.bytes|
        && at + encoded <= out.Length
        && out[..] == old(out[..at]) + o.bytes + old(out[at + |o.bytes|..])
    {
      hide E.NextItem;
      encoded := 0;
      if !E.Encodes(Model()) {
        return Error;
      }
      var item := E.NextItem(Model());
      if out.Length - at < |item| {
        return NeedMore;
      }
      Copy(out, at, item);
      encoded := |item|;
      match state
      case ControlReady => state, result := E.ControlStart, Again;
      case ControlStart => state, result := E.Frames, Again;
      case ControlAccept => state, result := E.ControlFinish, Again;
      case ControlFinish => state, result := E.Done, EndOfData;
      case Frames => result := Ok;
      case ControlStop => state, result := E.Done, EndOfData;
    }

    method Stop() returns (result: Result)
      modifies this
      ensures (result, Model()) == E.Stop(old(Model()))
    {
      if state.Frames? {
        state := E.ControlStop;
        return Ok;
      }
      return Error;
    }

    method SetDnstap(m: E.Message)
      modifies this
      ensures Model() == old(Model()).(dnstap := m)
    {
      dnstap := m;
    }
  }
}
