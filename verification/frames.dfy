/**
 The Frame Streams layer: what the framing library called by the decoder and the
 encoder reads and writes.  The library itself is not part of the repository; this is
 the public Frame Streams format.  A data frame is a non-zero length and that many
 bytes.  A control frame is a zero word, a length, a type, and then fields, each a
 type, a length and that many bytes.
 */
module FrameStreams {
  import opened Wire

  const ACCEPT: nat := 1
  const START: nat := 2
  const STOP: nat := 3
  const READY: nat := 4
  const FINISH: nat := 5
  const FIELD_CONTENT_TYPE: nat := 1

  datatype Phase = InControl | InField | InFrames | AtEnd

  /** What the library remembers between calls: `left` is `control_length_left`. */
  datatype FrameReader = FrameReader(phase: Phase, kind: nat, left: nat)

  datatype Item =
    | Control(kind: nat)
    | Field(fieldType: nat, data: Bytes)
    | Frame(payload: Bytes)
    | Stopped
    | Finished

  datatype Reading =
    | NeedMore
    | Bad
    | Got(item: Item, size: nat, next: FrameReader)

  const Fresh := FrameReader(InControl, 0, 0)

  function PhaseAfter(kind: nat, left: nat): Phase {
    if left > 0 then InField else if kind == START then InFrames else InControl
  }

  function ReadControl(s: Bytes): Reading {
    if |s| < 12 then NeedMore
    else
      var length, kind := N32(s, 4), N32(s, 8);
      if N32(s, 0) != 0 || length < 4 then Bad
      else if kind == READY || kind == ACCEPT || kind == START then
        Got(Control(kind), 12, FrameReader(PhaseAfter(kind, length - 4), kind, length - 4))
      else if kind == STOP && length == 4 then
        Got(Stopped, 12, FrameReader(AtEnd, kind, 0))
      else if kind == FINISH && length == 4 then
        Got(Finished, 12, FrameReader(AtEnd, kind, 0))
      else Bad
  }

  function ReadField(t: FrameReader, s: Bytes): Reading {
    if |s| < 8 then NeedMore
    else
      var length := N32(s, 4);
      if 8 + length > t.left then Bad
      else if |s| < 8 + length then NeedMore
      else
        var left := t.left - 8 - length;
        Got(Field(N32(s, 0), s[8..8 + length]), 8 + length,
            FrameReader(PhaseAfter(t.kind, left), t.kind, left))
  }

  function ReadFrame(t: FrameReader, s: Bytes): Reading {
    if |s| < 4 then NeedMore
    else
      var length := N32(s, 0);
      if length == 0 then ReadControl(s)
      else if |s| < 4 + length then NeedMore
      else Got(Frame(s[4..4 + length]), 4 + length, t)
  }

  /** One item off the front of `s`, if all of it is there. */
  function Read(t: FrameReader, s: Bytes): (r: Reading)
    ensures r.Got? ==> 4 <= r.size <= |s|
  {
    match t.phase
    case InControl => ReadControl(s)
    case InField => ReadField(t, s)
    case InFrames => ReadFrame(t, s)
    case AtEnd => Bad
  }

  /** The length an item announces, as far as `s` tells it; 0 when it is known to be no item. */
  function Announced(t: FrameReader, s: Bytes): nat {
    match t.phase
    case InControl => 12
    case InField => if |s| < 8 then 8 else if 8 + N32(s, 4) > t.left then 0 else 8 + N32(s, 4)
    case InFrames => if |s| < 4 then 4 else if N32(s, 0) == 0 then 12 else 4 + N32(s, 0)
    case AtEnd => 0
  }

  /** More is asked for exactly until the announced length is there. */
  lemma ReadWaits(t: FrameReader, s: Bytes)
    ensures Read(t, s).NeedMore? <==> |s| < Announced(t, s)
    ensures Read(t, s).Got? ==> Read(t, s).size == Announced(t, s)
  {
  }

  /** A verdict reached on a prefix is the verdict on everything that starts with it. */
  lemma ReadExtends(t: FrameReader, s: Bytes, x: Bytes)
    requires !Read(t, s).NeedMore?
    ensures Read(t, s + x) == Read(t, s)
  {
    match t.phase
    case InControl =>
    case InField =>
      if |s| >= 8 + N32(s, 4) {
        assert (s + x)[8..8 + N32(s, 4)] == s[8..8 + N32(s, 4)];
      }
    case InFrames =>
      if |s| >= 4 + N32(s, 0) {
        assert (s + x)[4..4 + N32(s, 0)] == s[4..4 + N32(s, 0)];
      }
    case AtEnd =>
  }

  // ---- writing ----

  function FieldBytes(fieldType: nat, data: Bytes): (s: Bytes)
    ensures |s| == 8 + |data|
  {
    U32(fieldType) + U32(|data|) + data
  }

  /** Content-type fields, one for each element of `fields`. */
  function FieldsBytes(fields: seq<Bytes>): Bytes {
    if fields == [] then []
    else FieldBytes(FIELD_CONTENT_TYPE, fields[0]) + FieldsBytes(fields[1..])
  }

  function Header(kind: nat, length: nat): (s: Bytes)
    ensures |s| == 12
  {
    U32(0) + U32(4 + length) + U32(kind)
  }

  function ControlBytes(kind: nat, fields: seq<Bytes>): Bytes {
    Header(kind, |FieldsBytes(fields)|) + FieldsBytes(fields)
  }

  function FrameBytes(payload: Bytes): (s: Bytes)
    ensures |s| == 4 + |payload|
  {
    U32(|payload|) + payload
  }

  function FramesBytes(payloads: seq<Bytes>): Bytes {
    if payloads == [] then [] else FrameBytes(payloads[0]) + FramesBytes(payloads[1..])
  }

  lemma {:induction false} FramesAppend(a: seq<Bytes>, b: Bytes)
    ensures FramesBytes(a + [b]) == FramesBytes(a) + FrameBytes(b)
  {
    if a == [] {
      assert [b][1..] == [];
    } else {
      assert (a + [b])[1..] == a[1..] + [b];
      FramesAppend(a[1..], b);
    }
  }

  /** A control header is read back as its type, with the announced field bytes left. */
  lemma ReadHeader(t: FrameReader, kind: nat, length: nat, rest: Bytes)
    requires t.phase.InControl? || t.phase.InFrames?
    requires length + 4 < 0x1_0000_0000
    requires kind == READY || kind == ACCEPT || kind == START
    ensures Read(t, Header(kind, length) + rest)
         == Got(Control(kind), 12, FrameReader(PhaseAfter(kind, length), kind, length))
  {
    HeaderWords(kind, length, rest);
  }

  /** STOP and FINISH are read back as the end of their direction. */
  lemma ReadEnd(t: FrameReader, kind: nat, rest: Bytes)
    requires t.phase.InControl? || t.phase.InFrames?
    requires kind == STOP || kind == FINISH
    ensures Read(t, Header(kind, 0) + rest)
         == Got(if kind == STOP then Stopped else Finished, 12, FrameReader(AtEnd, kind, 0))
  {
    HeaderWords(kind, 0, rest);
  }

  lemma HeaderWords(kind: nat, length: nat, rest: Bytes)
    requires length + 4 < 0x1_0000_0000 && kind < 0x1_0000_0000
    ensures var s := Header(kind, length) + rest;
      |s| == 12 + |rest| && N32(s, 0) == 0 && N32(s, 4) == 4 + length && N32(s, 8) == kind
  {
    U32RoundTrip(0);
    U32RoundTrip(4 + length);
    U32RoundTrip(kind);
  }

  /** A field is read back as its type and data, and uses up its share of the control frame. */
  lemma ReadFieldBack(t: FrameReader, fieldType: nat, data: Bytes, rest: Bytes)
    requires t.phase.InField? && 8 + |data| <= t.left < 0x1_0000_0000
    requires fieldType < 0x1_0000_0000
    ensures var left := t.left - 8 - |data|;
      Read(t, FieldBytes(fieldType, data) + rest)
      == Got(Field(fieldType, data), 8 + |data|, FrameReader(PhaseAfter(t.kind, left), t.kind, left))
  {
    var s := FieldBytes(fieldType, data) + rest;
    U32RoundTrip(fieldType);
    U32RoundTrip(|data|);
    assert N32(s, 0) == N32(U32(fieldType), 0);
    assert N32(s, 4) == N32(U32(|data|), 0);
    assert s[8..8 + |data|] == data;
  }

  lemma ReadFrameBack(t: FrameReader, payload: Bytes, rest: Bytes)
    requires t.phase.InFrames? && 0 < |payload| < 0x1_0000_0000
    ensures Read(t, FrameBytes(payload) + rest) == Got(Frame(payload), 4 + |payload|, t)
  {
    var s := FrameBytes(payload) + rest;
    U32RoundTrip(|payload|);
    assert N32(s, 0) == N32(U32(|payload|), 0);
    assert s[4..4 + |payload|] == payload;
  }

  lemma HeaderInverts(s: Bytes)
    requires |s| >= 12 && N32(s, 0) == 0 && N32(s, 4) >= 4
    ensures s[..12] == Header(N32(s, 8), N32(s, 4) - 4)
  {
    N32RoundTrip(s, 0);
    N32RoundTrip(s, 4);
    N32RoundTrip(s, 8);
    assert s[..12] == s[0..4] + s[4..8] + s[8..12];
  }

  /** What the writer of an item produces; `left` is what a control header announces. */
  function ItemBytes(item: Item, left: nat): Bytes {
    match item
    case Control(kind) => Header(kind, left)
    case Field(fieldType, data) => FieldBytes(fieldType, data)
    case Frame(payload) => FrameBytes(payload)
    case Stopped => Header(STOP, 0)
    case Finished => Header(FINISH, 0)
  }

  /** The bytes of an item that was read are the bytes its writer produces. */
  lemma ReadInverts(t: FrameReader, s: Bytes)
    requires Read(t, s).Got?
    ensures var g := Read(t, s);
      && s[..g.size] == ItemBytes(g.item, g.next.left)
      && (g.item.Field? <==> t.phase.InField?)
      && (g.item.Field? ==>
            && 8 + |g.item.data| + g.next.left == t.left
            && g.next == FrameReader(PhaseAfter(t.kind, g.next.left), t.kind, g.next.left))
      && (g.item.Control? ==>
            && g.next.left + 4 < 0x1_0000_0000
            && g.next == FrameReader(PhaseAfter(g.item.kind, g.next.left), g.item.kind, g.next.left))
      && (g.item.Frame? ==> t.phase.InFrames? && 0 < |g.item.payload| < 0x1_0000_0000 && g.next == t)
  {
    hide Header, U32, N32;
    var g := Read(t, s);
    match g.item
    case Field(fieldType, data) =>
      N32RoundTrip(s, 0);
      N32RoundTrip(s, 4);
      assert s[..g.size] == s[0..4] + s[4..8] + s[8..g.size];
    case Frame(payload) =>
      N32RoundTrip(s, 0);
      assert s[..g.size] == s[0..4] + s[4..g.size];
    case _ =>
      HeaderInverts(s);
  }
}
