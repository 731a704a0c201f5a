/**
 The buffers in place.  A reader's `buf`, `size`, `inc`, `max`, `at`, `left` and a writer's
 `read_` fields are an InBuffer; a writer's own and a reader's `write_` fields an OutBuffer.
 */
module BufferHandles {
  import opened Wire
  import opened Results
  import opened CodecHandles
  import B = BufferSpec
  import E = EncoderSpec

  /** `realloc`: a buffer of `size` bytes that begins with what the old one held. */
  method Realloc(current: array<byte>, size: nat, keep: nat) returns (buf: array<byte>)
    requires keep <= current.Length && keep <= size
    ensures fresh(buf) && buf.Length == size && buf[..keep] == current[..keep]
  {
    buf := new byte[size];
    forall i | 0 <= i < keep {
      buf[i] := current[i];
    }
  }

  class InBuffer {
    var buf: array<byte>
    var size: nat
    var inc: nat
    var max: nat
    var at: nat
    var left: nat

    ghost predicate Ok()
      reads this
    {
      buf.Length == size && at + left <= size <= max && 0 < size && 0 < inc
    }

    function Model(): (b: B.InBuf)
      requires Ok()
      reads this, buf
      ensures b.Valid() && |b.data| == left && (b.at, b.size, b.inc, b.max) == (at, size, inc, max)
    {
      B.InBuf(buf[at..at + left], at, size, inc, max)
    }

    /** What is held, as the decoder is given it. */
    function Held(): (data: Bytes)
      requires Ok()
      reads this, buf
      ensures data == Model().data
    {
      buf[at..at + left]
    }

    constructor (size: nat, inc: nat, max: nat)
      requires 0 < size <= max && 0 < inc
      ensures Ok() && fresh(buf) && Model() == B.InBuf([], 0, size, inc, max)
    {
      buf := new byte[size];
      this.size, this.inc, this.max, at, left := size, inc, max, 0, 0;
    }

    method Fill(data: Bytes)
      requires Ok() && |data| <= size - at - left
      modifies this`left, buf
      ensures Ok() && Model() == old(Model()).Fill(data)
    {
      Copy(buf, at + left, data);
      left := left + |data|;
    }

    method Consume(n: nat)
      requires Ok() && n <= left
      modifies this`at, this`left
      ensures Ok() && Model() == old(Model()).Consume(n)
    {
      at, left := at + n, left - n;
      if left == 0 {
        at := 0;
      }
    }

    /** `memmove` of what is held to the front. */
    method MoveToFront()
      requires Ok()
      modifies this`at, buf
      ensures Ok() && Model() == old(Model()).(at := 0)
    {
      forall i | 0 <= i < left {
        buf[i] := buf[at + i];
      }
      at := 0;
    }

    method Resize(n: nat)
      requires Ok() && at + left <= n <= max && 0 < n
      modifies this`buf, this`size
      ensures Ok() && fresh(buf) && Model() == old(Model()).(size := n)
    {
      buf := Realloc(buf, n, at + left);
      size := n;
    }

    method MakeRoom() returns (done: bool)
      requires Ok()
      modifies this, buf
      ensures Ok() && (buf == old(buf) || fresh(buf))
      ensures match old(Model()).MakeRoom()
        case Some(b) => done && Model() == b
        case None => !done && Model() == old(Model())
    {
      if left < size {
        if at != 0 {
          MoveToFront();
        }
      } else if size < max {
        Resize(if size + inc > max then max else size + inc);
      } else {
        return false;
      }
      return true;
    }

    method SetSize(n: nat) returns (result: Result)
      requires Ok() && 0 < n
      modifies this, buf
      ensures Ok() && (buf == old(buf) || fresh(buf))
      ensures match old(Model()).SetSize(n)
        case Some(b) => result == Result.Ok && Model() == b
        case None => result == Error && Model() == old(Model())
    {
      if left > n || n > max {
        return Error;
      }
      if at + left > n {
        MoveToFront();
      }
      Resize(n);
      return Result.Ok;
    }
  }

  lemma ItemAppended(before: Bytes, after: Bytes, at: nat, left: nat, item: Bytes)
    requires left <= at && at + |item| <= |before|
    requires after == before[..at] + item + before[at + |item|..]
    ensures after[at - left..at + |item|] == before[at - left..at] + item
    ensures after[..at] == before[..at]
  {
  }

  class OutBuffer {
    var buf: array<byte>
    var size: nat
    var inc: nat
    var max: nat
    var at: nat
    var left: nat

    ghost predicate Ok()
      reads this
    {
      buf.Length == size && left <= at <= size <= max && 0 < size && 0 < inc
    }

    function Model(): (b: B.OutBuf)
      requires Ok()
      reads this, buf
      ensures b.Valid() && |b.data| == left && (b.at, b.size, b.inc, b.max) == (at, size, inc, max)
    {
      B.OutBuf(buf[at - left..at], at, size, inc, max)
    }

    constructor (size: nat, inc: nat, max: nat)
      requires 0 < size <= max && 0 < inc
      ensures Ok() && fresh(buf) && Model() == B.OutBuf([], 0, size, inc, max)
    {
      buf := new byte[size];
      this.size, this.inc, this.max, at, left := size, inc, max, 0, 0;
    }

    method Resize(n: nat)
      requires Ok() && at <= n <= max && 0 < n
      modifies this`buf, this`size
      ensures Ok() && fresh(buf) && Model() == old(Model()).(size := n)
      ensures buf[..at] == old(buf[..at])
    {
      buf := Realloc(buf, n, at);
      size := n;
    }

    /** `memmove` of the `left` bytes that begin at `at`, where the data ends. */
    method MoveToFront()
      requires Ok() && (left != 0 ==> at + left <= size)
      modifies this`at, buf
      ensures at == 0 && buf[..left] == old(buf[at..if left != 0 then at + left else at])
    {
      if left != 0 {
        forall i | 0 <= i < left {
          buf[i] := buf[at + i];
        }
      }
      at := 0;
    }

    /** `realloc`, keeping the first `keep` bytes. */
    method Reallocate(n: nat, keep: nat)
      requires buf.Length == size && keep <= size && keep <= n
      modifies this`buf, this`size
      ensures fresh(buf) && buf.Length == size == n && buf[..keep] == old(buf[..keep])
    {
      buf := Realloc(buf, n, keep);
      size := n;
    }

    /**
     A writer's `set_bufsize`.  The `left` bytes beginning at `at` are moved to the front if
     they pass the new size, although the data ends at `at`.
     */
    method SetSize(n: nat) returns (result: Result)
      requires Ok() && 0 < n
      requires Model().Displaces(n) ==> at + left <= size
      modifies this, buf
      ensures buf == old(buf) || fresh(buf)
      ensures !old(Model().Displaces(n)) ==>
        && Ok()
        && match old(Model()).SetSize(n)
           case Some(b) => result == Result.Ok && Model() == b
           case None => result == Error && Model() == old(Model())
      ensures old(Model().Displaces(n)) ==>
        && result == Result.Ok && buf.Length == size == n && at == 0 && left == old(left)
        && buf[..left] == old(buf[at..at + left])
    {
      if left > n || n > max {
        return Error;
      }
      if at + left > n {
        MoveToFront();
        Reallocate(n, left);
      } else {
        Reallocate(n, at);
      }
      return Result.Ok;
    }

    /** One attempt of `_encoding`: what was encoded, if anything, is counted in. */
    method TryAppend(e: Encoder) returns (result: Result)
      requires Ok() && at < size
      modifies this`at, this`left, buf, e
      ensures Ok()
      ensures var o := E.Encode(old(e.Model()), size - old(at)); var b := old(Model());
        && result == o.result && e.Model() == o.encoder
        && Model() == b.(data := b.data + o.bytes, at := b.at + |o.bytes|)
      ensures buf[..old(at)] == old(buf[..at])
    {
      hide E.NextItem, E.AfterItem, E.ItemResult;
      ghost var before := buf[..];
      ghost var bytes := E.Encode(e.Model(), size - at).bytes;
      result := e.Encode(buf, at);
      ItemAppended(before, buf[..], at, left, bytes);
      at, left := at + e.encoded, left + e.encoded;
    }

    /** `_encoding`: encode one item, growing the buffer until it fits or cannot grow. */
    method AppendItem(e: Encoder) returns (result: Result)
      requires Ok() && at < size
      modifies this, buf, e
      ensures Ok() && (buf == old(buf) || fresh(buf))
      ensures var r := B.EncodeInto(old(e.Model()), old(Model()));
        result == r.result && e.Model() == r.encoder && Model() == r.buf
      ensures buf[..old(at)] == old(buf[..at])
    {
      hide E.NextItem, E.AfterItem;
      ghost var b, need := Model(), at + |E.NextItem(e.Model())|;
      while true
        invariant Ok() && at < size && old(size) <= size
        invariant e.Model() == old(e.Model()) && Model() == b.(size := size)
        invariant buf == old(buf) || fresh(buf)
        invariant buf[..at] == old(buf[..at])
        invariant B.GrowTo(size, inc, max, need) == B.GrowTo(old(size), inc, max, need)
        invariant old(size) < size ==> E.Encodes(e.Model()) && old(size) < max
        decreases max - size
      {
        result := TryAppend(e);
        if result != NeedMore {
          return;
        }
        if size >= max {
          return Error;
        }
        Resize(if size + inc > max then max else size + inc);
      }
    }

    /** `n` bytes leave from the front. */
    method Take(n: nat) returns (sent: Bytes)
      requires Ok() && n <= left
      modifies this`at, this`left
      ensures Ok() && Model() == old(Model()).Drain(n) && sent == old(Model()).data[..n]
    {
      sent := buf[at - left..at][..n];
      left := left - n;
      if left == 0 {
        at := 0;
      }
    }
  }
}
