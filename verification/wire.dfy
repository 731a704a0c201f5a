/** Bytes, and the big-endian 32-bit words that Frame Streams is built from. */
module Wire {

  type byte = x: int | 0 <= x < 0x100

  type Bytes = seq<byte>

  datatype Option<+T> = None | Some(value: T)

  function Min(a: nat, b: nat): nat {
    if a < b then a else b
  }

  /** The low 32 bits of `n`, most significant byte first; larger values are truncated. */
  function U32(n: nat): (s: Bytes)
    ensures |s| == 4
  {
    var a := n / 0x100;
    var b := a / 0x100;
    [b / 0x100 % 0x100, b % 0x100, a % 0x100, n % 0x100]
  }

  /** The word found at offset `i` of `s`. */
  function N32(s: Bytes, i: nat): (n: nat)
    requires i + 4 <= |s|
    ensures n < 0x1_0000_0000
  {
    (s[i] as int) * 0x100_0000 + (s[i + 1] as int) * 0x1_0000 + (s[i + 2] as int) * 0x100 + s[i + 3]
  }

  lemma U32RoundTrip(n: nat)
    requires n < 0x1_0000_0000
    ensures N32(U32(n), 0) == n
  {
    var a := n / 0x100;
    var b := a / 0x100;
    assert b < 0x1_0000;
    assert U32(n)[0] == b / 0x100;
  }

  lemma N32RoundTrip(s: Bytes, i: nat)
    requires i + 4 <= |s|
    ensures U32(N32(s, i)) == s[i..i + 4]
  {
    var n := N32(s, i);
    var a := n / 0x100;
    var b := a / 0x100;
    assert a == (s[i] as int) * 0x1_0000 + (s[i + 1] as int) * 0x100 + s[i + 2];
    assert b == (s[i] as int) * 0x100 + s[i + 1];
    assert b / 0x100 == s[i];
  }
}
