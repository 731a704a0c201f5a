/**
 The two kinds of buffer the reader and the writer keep.  Both are described by the
 bytes they hold (`data`) and by where those lie: in an input buffer `at` is where the
 data starts, in an output buffer `at` is where it ends.
 */
module BufferSpec {
  import opened Wire
  import opened Results
  import opened EncoderSpec

  const DEFAULT_SIZE: nat := 4 * 1024
  const MAXIMUM_SIZE: nat := 64 * 1024

  /** `buf[at..at + left]` of a reader, or of the writer's `read_` fields. */
  datatype InBuf = InBuf(data: Bytes, at: nat, size: nat, inc: nat, max: nat) {

    predicate Valid() {
      at + |data| <= size <= max && 0 < size && 0 < inc
    }

    /** Nothing is held at an offset: the normal form between items. */
    predicate Tidy() {
      Valid() && (data == [] ==> at == 0)
    }

    function Space(): nat
      requires Valid()
    {
      size - at - |data|
    }

    function Fill(more: Bytes): InBuf {
      this.(data := data + more)
    }

    function Consume(n: nat): InBuf
      requires n <= |data|
    {
      this.(data := data[n..], at := if n == |data| then 0 else at + n)
    }

    /** After an incomplete item: move the data to the front, else grow, else give up. */
    function MakeRoom(): Option<InBuf> {
      if |data| < size then Some(this.(at := 0))
      else if size < max then Some(this.(size := GrowOnce(size, inc, max)))
      else None
    }

    function SetSize(n: nat): Option<InBuf> {
      if |data| > n || n > max then None
      else if at + |data| > n then Some(this.(at := 0, size := n))
      else Some(this.(size := n))
    }
  }

  /** `buf[at - left..at]` of a writer, or of the reader's `write_` fields. */
  datatype OutBuf = OutBuf(data: Bytes, at: nat, size: nat, inc: nat, max: nat) {

    predicate Valid() {
      |data| <= at <= size <= max && 0 < size && 0 < inc
    }

    predicate Tidy() {
      Valid() && (data == [] ==> at == 0)
    }

    /** The first `n` bytes leave. */
    function Drain(n: nat): OutBuf
      requires n <= |data|
    {
      this.(data := data[n..], at := if n == |data| then 0 else at)
    }

    /** A resize goes through, and yet loses what is pending: see `ResizeExact`. */
    predicate Displaces(n: nat) {
      data != [] && |data| <= n <= max && at + |data| > n
    }

    function SetSize(n: nat): Option<OutBuf>
      requires !Displaces(n)
    {
      if |data| > n || n > max then None
      else Some(this.(at := if at > n then 0 else at, size := n))
    }

    /** What the fields of a buffer in memory have to be. */
    predicate Describes(m: RawBuf) {
      |m.buf| == size && m.at == at && m.left == |data| && m.Pending() == Some(data)
    }
  }

  /** A writer's buffer in memory: what is pending are the `left` bytes before `at`. */
  datatype RawBuf = RawBuf(buf: Bytes, at: nat, left: nat) {

    /** None: `at` falls short of `left`, and the code would read in front of the buffer. */
    function Pending(): Option<Bytes> {
      if left <= at <= |buf| then Some(buf[at - left..at]) else None
    }

    /**
     `dnswire_writer_set_bufsize`: `memmove` of the `left` bytes that begin at `at`, as
     if the data lay there, and `realloc`.  `stray` is what lies beyond the old buffer.
     */
    function SetSize(n: nat, max: nat, stray: nat -> byte): Option<RawBuf>
      requires left <= |buf|
    {
      if left > n || n > max then None
      else
        var m := if at + left > n then RawBuf(Moved(buf, at, left, stray), 0, left) else this;
        Some(m.(buf := Realloc(m.buf, n, stray)))
    }
  }

  function ByteAt(buf: Bytes, i: nat, stray: nat -> byte): byte {
    if i < |buf| then buf[i] else stray(i)
  }

  function Realloc(buf: Bytes, n: nat, stray: nat -> byte): (r: Bytes)
    ensures |r| == n && forall i :: 0 <= i < n ==> r[i] == ByteAt(buf, i, stray)
  {
    seq(n, i requires 0 <= i < n => ByteAt(buf, i, stray))
  }

  /** The `left` bytes that begin at `at` are copied to the front. */
  function Moved(buf: Bytes, at: nat, left: nat, stray: nat -> byte): (moved: Bytes)
    requires left <= |buf|
    ensures |moved| == |buf|
  {
    Realloc(buf, at + left, stray)[at..] + buf[left..]
  }

  /**
   Resizing a writer's buffer is refused exactly when the pending bytes do not fit the new
   size or that is over `max`.  Otherwise the bytes pending stay what they were if and only
   if there are none, or `at + left` is within the new size.  In the other case the bytes
   moved are not the pending ones, and `at` no longer leads to any.
   */
  lemma ResizeExact(b: OutBuf, m: RawBuf, n: nat, stray: nat -> byte)
    requires b.Valid() && b.Describes(m) && 0 < n
    ensures var m' := m.SetSize(n, b.max, stray);
      && (m'.None? <==> |b.data| > n || n > b.max)
      && (m'.Some? ==>
            && (m'.value.Pending() == m.Pending() <==> b.data == [] || b.at + |b.data| <= n)
            && (m'.value.Pending() == m.Pending() <==> !b.Displaces(n))
            && (!b.Displaces(n) ==> b.SetSize(n).Some? && b.SetSize(n).value.Describes(m'.value))
            && (b.Displaces(n) ==> m'.value.at == 0 && m'.value.left == |b.data| && m'.value.Pending() == None))
  {
    var m' := m.SetSize(n, b.max, stray);
    if m'.Some? && b.data == [] {
      assert m'.value.Pending().value == [];
    } else if m'.Some? && b.at + |b.data| <= n {
      assert m'.value.buf[..b.at] == m.buf[..b.at];
      assert m'.value.buf[b.at - |b.data|..b.at] == m'.value.buf[..b.at][b.at - |b.data|..];
    }
  }

  // ---- what calls do to buffers ----

  /** Of what is offered, as much as there is room for is taken; nothing by a call that does not read. */
  predicate TakesAll(b: InBuf, asks: bool, offered: nat, taken: nat) {
    if asks then
      && taken <= offered && b.at + |b.data| + taken <= b.size
      && (taken == offered || b.at + |b.data| + taken == b.size)
    else taken == 0
  }

  /** An item of `n` bytes is off the front of what is held. */
  predicate ItemGone(b: InBuf, held: Bytes, n: nat, b': InBuf) {
    && n <= |held| && b'.data == held[n..] && b'.at == (if b'.data == [] then 0 else b.at + n)
    && b'.size == b.size && b'.inc == b.inc && b'.max == b.max
  }

  /** Room for more of an item: by moving what is held to the front, or by growing one step. */
  predicate RoomMade(b: InBuf, held: Bytes, b': InBuf) {
    && b'.data == held && b'.inc == b.inc && b'.max == b.max
    && (|held| < b.size ==> b'.at == 0 && b'.size == b.size)
    && (|held| >= b.size ==>
          && b'.at == b.at && b.size < b'.size
          && b'.size <= b.size + b.inc && b'.size <= b.max
          && (b'.size == b.size + b.inc || b'.size == b.max))
  }

  /** The first bytes of `pending` leave, as many as there is room for. */
  predicate HandsOut(pending: Bytes, room: nat, sent: Bytes, left: Bytes) {
    && pending == sent + left && |sent| <= room && (left == [] || |sent| == room)
  }

  // ---- growing ----

  function GrowOnce(size: nat, inc: nat, max: nat): nat {
    Min(size + inc, max)
  }

  /** Where growing stops: the first size in reach that is at least `need`. */
  function GrowTo(size: nat, inc: nat, max: nat, need: nat): Option<nat>
    requires 0 < inc
    decreases if size < max then max - size else 0
  {
    if need <= size then Some(size)
    else if size >= max then None
    else GrowTo(GrowOnce(size, inc, max), inc, max, need)
  }

  datatype Appended = Appended(result: Result, encoder: Encoder, buf: OutBuf)

  /** `_encoding`: one item is appended, the buffer growing as far as it has to. */
  function EncodeInto(e: Encoder, b: OutBuf): (r: Appended)
    requires 0 < b.inc && b.at < b.size
    ensures r.encoder.dnstap == e.dnstap && (r.encoder.state.ControlReady? ==> e.state.ControlReady?)
    ensures r.buf.max == b.max
  {
    if !Encodes(e) then Appended(Error, e, b)
    else
      var item := NextItem(e);
      match GrowTo(b.size, b.inc, b.max, b.at + |item|)
      case None => Appended(Error, e, b.(size := if b.size < b.max then b.max else b.size))
      case Some(size) =>
        Appended(ItemResult(e), AfterItem(e), b.(data := b.data + item, at := b.at + |item|, size := size))
  }

  /** `grown` is the least of the sizes `min(max, size + k * inc)` that is at least `need`. */
  ghost predicate FirstFit(size: nat, inc: nat, max: nat, need: nat, grown: nat) {
    && need <= grown
    && exists k: nat ::
         && grown == Min(max, size + k * inc)
         && forall j: nat :: j < k ==> Min(max, size + j * inc) < need
  }

  /** Growing fails exactly when `max` is too small, and otherwise stops at the first size that fits. */
  lemma {:induction false} GrowExact(size: nat, inc: nat, max: nat, need: nat)
    requires 0 < inc && size <= max
    ensures GrowTo(size, inc, max, need).None? <==> max < need
    ensures need <= max ==> FirstFit(size, inc, max, need, GrowTo(size, inc, max, need).value)
    decreases max - size
  {
    if need <= size {
      assert GrowTo(size, inc, max, need) == Some(Min(max, size + 0 * inc));
    } else if size < max {
      var next := GrowOnce(size, inc, max);
      GrowExact(next, inc, max, need);
      if need <= max {
        var k: nat :|
          && GrowTo(next, inc, max, need) == Some(Min(max, next + k * inc))
          && forall j: nat :: j < k ==> Min(max, next + j * inc) < need;
        GrowShift(size, inc, max, need, k);
      }
    }
  }

  lemma GrowShift(size: nat, inc: nat, max: nat, need: nat, k: nat)
    requires 0 < inc && size < max && size < need <= max
    requires var next := GrowOnce(size, inc, max);
      && need <= Min(max, next + k * inc)
      && forall j: nat :: j < k ==> Min(max, next + j * inc) < need
    ensures var next := GrowOnce(size, inc, max);
      && Min(max, next + k * inc) == Min(max, size + (k + 1) * inc)
      && forall j: nat :: j < k + 1 ==> Min(max, size + j * inc) < need
  {
    var next := GrowOnce(size, inc, max);
    if next == max {
      MulMonotone(1, k + 1, inc);
    }
    assert (k + 1) * inc == k * inc + inc;
    forall j: nat | j < k + 1
      ensures Min(max, size + j * inc) < need
    {
      if j == 0 {
        assert j * inc == 0;
      } else {
        assert j * inc == (j - 1) * inc + inc;
        assert Min(max, next + (j - 1) * inc) < need;
      }
    }
  }

  lemma MulMonotone(a: nat, b: nat, c: nat)
    requires a <= b
    ensures a * c <= b * c
  {
  }

  /**
   One item is added to what the buffer held, and the buffer has grown in steps of `inc`
   to the first size that fits, no further than `max`.  It fails exactly when nothing can be
   encoded or the item does not fit `max`; then nothing is added, and the buffer has grown to
   `max` if there was an item to be tried.
   */
  lemma EncodeIntoExact(e: Encoder, b: OutBuf)
    requires b.Valid() && b.at < b.size
    ensures var r := EncodeInto(e, b);
      && r.buf.Valid()
      && (r.result == Error <==> !Encodes(e) || b.max < b.at + |NextItem(e)|)
      && (r.result != Error ==>
            && r.buf.data == b.data + NextItem(e)
            && r.buf.at == b.at + |NextItem(e)|
            && FirstFit(b.size, b.inc, b.max, b.at + |NextItem(e)|, r.buf.size)
            && r.encoder == AfterItem(e) && r.result == ItemResult(e))
      && (r.result == Error ==>
            && r.buf.data == b.data && r.buf.at == b.at && r.encoder == e
            && r.buf.size == if Encodes(e) then b.max else b.size)
      && r.buf.inc == b.inc && r.buf.max == b.max
  {
    GrowExact(b.size, b.inc, b.max, b.at + |NextItem(e)|);
  }
}
