/** Bytes, Go strings and the fixed-width integer encodings the protocol uses. */
module Bytes {

  type byte = n: int | 0 <= n < 256
  type bytes = seq<byte>
  type uint32 = n: int | 0 <= n < 0x1_0000_0000
  type uint64 = n: int | 0 <= n < 0x1_0000_0000_0000_0000

  /** The 32-byte result of SHA-256. */
  type Digest = s: bytes | |s| == 32 witness seq(32, _ => 0)

  datatype Option<+T> = None | Some(value: T)
  datatype Result<+T, +E> = Ok(value: T) | Err(error: E)

  function Pow2(n: nat): (p: nat)
    ensures p > 0
  {
    if n == 0 then 1 else 2 * Pow2(n - 1)
  }

  lemma {:induction false} Pow2Adds(a: nat, b: nat)
    ensures Pow2(a + b) == Pow2(a) * Pow2(b)
  {
    if a != 0 {
      Pow2Adds(a - 1, b);
    }
  }

  lemma {:induction false} Pow2Grows(a: nat, b: nat)
    requires a <= b
    ensures Pow2(a) <= Pow2(b)
  {
    if a < b {
      Pow2Grows(a, b - 1);
    }
  }

  /** 256^n, the number of byte strings of length n. */
  function Pow256(n: nat): (p: nat)
    ensures p > 0
  {
    if n == 0 then 1 else 256 * Pow256(n - 1)
  }

  lemma {:induction false} Pow256IsPow2(n: nat)
    ensures Pow256(n) == Pow2(8 * n)
  {
    if n != 0 {
      Pow256IsPow2(n - 1);
      Pow2Adds(8, 8 * (n - 1));
      assert Pow2(8) == 256;
    }
  }

  /** The number a byte string denotes when its first byte is the most significant. */
  function BigEndianValue(s: bytes): nat {
    if s == [] then 0 else BigEndianValue(s[..|s| - 1]) * 256 + s[|s| - 1]
  }

  /** binary.BigEndian.PutUint32 and PutUint64: the low `width` bytes of n, most significant first. */
  function BigEndian(n: nat, width: nat): (s: bytes)
    ensures |s| == width
  {
    if width == 0 then [] else BigEndian(n / 256, width - 1) + [n % 256]
  }

  lemma {:induction false} BigEndianValueBound(s: bytes)
    ensures BigEndianValue(s) < Pow256(|s|)
  {
    if s != [] {
      BigEndianValueBound(s[..|s| - 1]);
    }
  }

  /** Splitting off the most significant byte. */
  lemma {:induction false} BigEndianValueHead(s: bytes)
    requires s != []
    ensures BigEndianValue(s) == s[0] * Pow256(|s| - 1) + BigEndianValue(s[1..])
  {
    if |s| > 1 {
      var init := s[..|s| - 1];
      BigEndianValueHead(init);
      assert s[1..][..|s[1..]| - 1] == init[1..];
      ScaleBy256(s[0], Pow256(|s| - 2));
    }
  }

  lemma ScaleBy256(a: nat, p: nat)
    ensures (a * p) * 256 == a * (256 * p)
  {
  }

  lemma BigEndianValueSnoc(s: bytes, b: byte)
    ensures BigEndianValue(s + [b]) == BigEndianValue(s) * 256 + b
  {
    assert (s + [b])[..|s|] == s;
  }

  /** Reading back a fixed-width field gives the number that was written, so distinct numbers differ. */
  lemma {:induction false} BigEndianRoundTrip(n: nat, width: nat)
    requires n < Pow256(width)
    ensures BigEndianValue(BigEndian(n, width)) == n
  {
    if width != 0 {
      var high, low := n / 256, n % 256;
      assert BigEndian(n, width) == BigEndian(high, width - 1) + [low];
      assert Pow256(width) == 256 * Pow256(width - 1);
      hide *;
      BigEndianRoundTrip(high, width - 1);
      BigEndianValueSnoc(BigEndian(high, width - 1), low);
    }
  }

  /** The Go string that holds these bytes; one character stands for one byte. */
  function Text(b: bytes): (s: string)
    ensures |s| == |b|
    ensures forall i :: 0 <= i < |b| ==> s[i] as int == b[i]
  {
    seq(|b|, i requires 0 <= i < |b| => b[i] as char)
  }
}
