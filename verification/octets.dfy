/**
 The bytes on the wire, written out.  Everything else is stated through the names of the
 content type and of the control frames; here is what those names stand for.
 */
module Octets {
  import opened Wire
  import opened Results
  import opened Streams
  import FS = FrameStreams
  import D = DecoderSpec
  import E = EncoderSpec
  import H = Handshake
  import L = Language
  import M = Mirror
  import S = Sessions

  /** `DNSTAP_PROTOBUF_CONTENT_TYPE` */
  const TEXT: string := "protobuf:dnstap.Dnstap"

  /** The text, as bytes. */
  const TYPE: Bytes :=
    [0x70, 0x72, 0x6f, 0x74, 0x6f, 0x62, 0x75, 0x66, 0x3a, 0x64, 0x6e, 0x73, 0x74, 0x61, 0x70, 0x2e,
     0x44, 0x6e, 0x73, 0x74, 0x61, 0x70]

  /** A control frame of `kind` with the content type for its one field: 42 bytes. */
  function Literal(kind: byte): Bytes {
    [0, 0, 0, 0, 0, 0, 0, 34, 0, 0, 0, kind, 0, 0, 0, 1, 0, 0, 0, 22] + TYPE
  }

  /** A control frame of `kind` without fields: 12 bytes. */
  function Bare(kind: byte): Bytes {
    [0, 0, 0, 0, 0, 0, 0, 4, 0, 0, 0, kind]
  }

  /** The content type is that text, byte for byte. */
  lemma ContentTypeText()
    ensures CONTENT_TYPE == TYPE && |CONTENT_TYPE| == |TEXT| == 22
    ensures forall i :: 0 <= i < 22 ==> CONTENT_TYPE[i] == TEXT[i] as int
  {
    assert TEXT[..4] == "prot" && TEXT[4..8] == "obuf" && TEXT[8..12] == ":dns" && TEXT[12..16] == "tap.";
    assert TEXT[16..20] == "Dnst" && TEXT[20..] == "ap";
  }

  /** Words are written and read with their most significant byte first. */
  lemma WordOrder()
    ensures U32(0x0102_0304) == [1, 2, 3, 4] && N32([1, 2, 3, 4], 0) == 0x0102_0304
    ensures U32(0x1_0000_0005) == [0, 0, 0, 5]
  {
  }

  lemma SmallWord(n: byte)
    ensures U32(n) == [0, 0, 0, n]
  {
  }

  lemma LiteralFrame(kind: byte)
    ensures FS.ControlBytes(kind, [CONTENT_TYPE]) == Literal(kind) && |Literal(kind)| == 42
  {
    hide U32;
    ContentTypeText();
    assert [CONTENT_TYPE][1..] == [];
    assert FS.FieldsBytes([CONTENT_TYPE]) == FS.FieldBytes(FS.FIELD_CONTENT_TYPE, CONTENT_TYPE) + FS.FieldsBytes([]);
    assert FS.FieldsBytes([]) == [];
    SmallWord(0);
    SmallWord(34);
    SmallWord(kind);
    SmallWord(1);
    SmallWord(22);
  }

  lemma BareFrame(kind: byte)
    ensures FS.ControlBytes(kind, []) == Bare(kind)
  {
    hide U32;
    SmallWord(0);
    SmallWord(4);
    SmallWord(kind);
  }

  /** What the encoder writes for each control frame. */
  lemma FramesLiteral()
    ensures E.AcceptBytes == Literal(1) && E.StartBytes == Literal(2) && E.ReadyBytes == Literal(4)
    ensures E.StopBytes == Bare(3) && E.FinishBytes == Bare(5)
  {
    LiteralFrame(1);
    LiteralFrame(2);
    LiteralFrame(4);
    BareFrame(3);
    BareFrame(5);
  }

  /** A data frame is its length, most significant byte first, and the message. */
  lemma DataFrameLiteral(m: Bytes)
    requires |m| == 0x0102
    ensures FS.FrameBytes(m) == [0, 0, 1, 2] + m
  {
  }

  // ---- what the decoder makes of them ----

  /** READY with this type is supported, and START is awaited. */
  lemma ReadsReady(accepts: D.Accepts)
    ensures RunFrom(L.Whole(accepts), D.Fresh, Literal(4))
         == Run([], Waiting(D.Decoder(D.ReadingStart, FS.FrameReader(FS.InControl, 4, 0), true, false, []), []))
  {
    hide RunFrom, FS.ControlBytes, Literal, Matches;
    LiteralFrame(4);
    H.OpeningRun(accepts, 4);
  }

  /** ACCEPT with this type is supported, and FINISH is awaited. */
  lemma ReadsAccept(accepts: D.Accepts)
    ensures RunFrom(L.Whole(accepts), D.Fresh, Literal(1))
         == Run([], Waiting(D.Decoder(D.CheckingFinish, FS.FrameReader(FS.InControl, 1, 0), false, true, []), []))
  {
    hide RunFrom, FS.ControlBytes, Literal, Matches;
    LiteralFrame(1);
    H.OpeningRun(accepts, 1);
  }

  /** A one-way session, from its first byte: START with this type, any messages, and STOP. */
  lemma ReadsSession(accepts: D.Accepts, messages: seq<Bytes>)
    requires S.Encodable(messages) && forall m :: m in messages ==> accepts(m)
    ensures RunFrom(L.Whole(accepts), D.Fresh, Literal(2))
         == Run([], Waiting(D.Decoder(D.ReadingFrames, FS.FrameReader(FS.InFrames, 2, 0), false, false, []), []))
    ensures RunFrom(L.Whole(accepts), D.Fresh, Literal(2) + (FS.FramesBytes(messages) + Bare(3))) == Run(messages, Ended)
  {
    hide RunFrom, FS.ControlBytes, FS.FramesBytes, Literal, Bare, Matches, S.Writable, S.FieldsFit;
    var env := L.Whole(accepts);
    LiteralFrame(2);
    BareFrame(3);
    M.ContentTypeFits(D.Fresh);
    var start := Literal(2);
    assert start + [] == start;
    S.StartRun(env, D.Fresh, CONTENT_TYPE, []);
    M.NothingRun(env, S.Started(D.Fresh));
    var session := L.OneWay(CONTENT_TYPE, messages);
    L.SessionRun(accepts, session, []);
    assert L.SessionBytes(session) + [] == start + (FS.FramesBytes(messages) + Bare(3));
  }

  /** The answer, from its first byte: ACCEPT with this type and FINISH. */
  lemma ReadsAnswer(accepts: D.Accepts)
    ensures RunFrom(L.Whole(accepts), D.Fresh, Literal(1) + Bare(5)) == Run([], Ended)
  {
    hide RunFrom, FS.ControlBytes, Literal, Bare, Matches, S.Writable;
    LiteralFrame(1);
    BareFrame(5);
    M.ContentTypeFits(D.Fresh);
    var session := L.Answer([CONTENT_TYPE]);
    L.SessionRun(accepts, session, []);
    assert L.SessionBytes(session) + [] == Literal(1) + Bare(5);
  }
}
