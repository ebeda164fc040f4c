/** Base 128 varints, as the Protocol Buffers encoding document describes them. */
module Varint {
  import opened Bytes

  /** A number and how many bytes it took. */
  datatype Parsed = Parsed(value: nat, size: nat)

  function Encode(v: nat): (b: bytes)
    ensures |b| >= 1
  {
    if v < 128 then [v] else [128 + v % 128] + Encode(v / 128)
  }

  /** Reads a varint whose first k bytes are already consumed; the tenth byte may only be 0 or 1. */
  function DecodeFrom(b: bytes, k: nat): (r: Option<Parsed>)
    requires k <= 9
    ensures r.Some? ==> 1 <= r.value.size <= |b|
    decreases 9 - k
  {
    if b == [] then None
    else if k == 9 then if b[0] < 2 then Some(Parsed(b[0], 1)) else None
    else if b[0] < 128 then Some(Parsed(b[0], 1))
    else match DecodeFrom(b[1..], k + 1)
      case None => None
      case Some(r) => Some(Parsed(b[0] - 128 + 128 * r.value, r.size + 1))
  }

  function Decode(b: bytes): (r: Option<Parsed>)
    ensures r.Some? ==> 1 <= r.value.size <= |b|
    ensures r.Some? ==> r.value.value < 0x1_0000_0000_0000_0000
  {
    DecodeFromBound(b, 0);
    Pow2Steps();
    DecodeFrom(b, 0)
  }

  lemma {:induction false} DecodeFromBound(b: bytes, k: nat)
    requires k <= 9
    ensures DecodeFrom(b, k).Some? ==> DecodeFrom(b, k).value.value < Pow2(64 - 7 * k)
    decreases 9 - k
  {
    if k < 9 {
      Pow2AtVarint(k);
      if b != [] {
        DecodeFromBound(b[1..], k + 1);
      }
    }
  }

  lemma Pow2Steps()
    ensures Pow2(1) == 2 && Pow2(7) == 128 && Pow2(8) == 256 && Pow2(32) == 0x1_0000_0000
    ensures Pow2(57) == 0x200_0000_0000_0000 && Pow2(64) == 0x1_0000_0000_0000_0000
  {
    SmallPowers();
    hide Pow2;
    Pow2Adds(8, 8);
    Pow2Adds(16, 16);
    Pow2Adds(32, 32);
    Pow2Adds(7, 57);
  }

  lemma SmallPowers()
    ensures Pow2(1) == 2 && Pow2(7) == 128 && Pow2(8) == 256
  {
    assert Pow2(7) == 128;
  }

  lemma Pow2AtVarint(k: nat)
    requires k <= 8
    ensures Pow2(64 - 7 * k) == 128 * Pow2(64 - 7 * (k + 1))
    ensures Pow2(64 - 7 * k) >= 256
  {
    Pow2Steps();
    Pow2Adds(7, 57 - 7 * k);
    Pow2Grows(1, 57 - 7 * k);
  }

  lemma {:induction false} DecodeOfEncodeFrom(v: nat, rest: bytes, k: nat)
    requires k <= 9 && v < Pow2(64 - 7 * k)
    ensures v < 0x1_0000_0000_0000_0000
    ensures DecodeFrom(Encode(v) + rest, k) == Some(Parsed(v, |Encode(v)|))
    decreases 9 - k
  {
    VarintBound(v, k);
    if k == 9 {
    } else if v < 128 {
    } else {
      hide Pow2;
      Pow2AtVarint(k);
      DecodeOfEncodeFrom(v / 128, rest, k + 1);
      assert (Encode(v) + rest)[1..] == Encode(v / 128) + rest;
    }
  }

  lemma VarintBound(v: nat, k: nat)
    requires k <= 9 && v < Pow2(64 - 7 * k)
    ensures v < 0x1_0000_0000_0000_0000 && (k == 9 ==> v < 2)
  {
    Pow2Steps();
    Pow2Grows(64 - 7 * k, 64);
  }

  /** A varint is read back from its minimal encoding, whatever follows it. */
  lemma DecodeOfEncode(v: uint64, rest: bytes)
    ensures Decode(Encode(v) + rest) == Some(Parsed(v, |Encode(v)|))
  {
    Pow2Steps();
    DecodeOfEncodeFrom(v, rest, 0);
  }

  /** Reading looks at no byte beyond the varint itself. */
  lemma {:induction false} DecodeIsPrefixStable(b: bytes, k: nat, rest: bytes)
    requires k <= 9 && DecodeFrom(b, k).Some?
    ensures DecodeFrom(b[..DecodeFrom(b, k).value.size] + rest, k) == DecodeFrom(b, k)
    decreases 9 - k
  {
    var n := DecodeFrom(b, k).value.size;
    if k < 9 && b[0] >= 128 {
      DecodeIsPrefixStable(b[1..], k + 1, rest);
      assert (b[..n] + rest)[1..] == b[1..][..n - 1] + rest;
    }
  }

  /** Numbers below 2^7, 2^14 and 2^21 take at most one, two and three bytes; any uint64 at most ten. */
  lemma EncodedSize(v: uint64)
    ensures v < 0x80 ==> |Encode(v)| == 1
    ensures v < 0x4000 ==> |Encode(v)| <= 2
    ensures v < 0x20_0000 ==> |Encode(v)| <= 3
    ensures v < 0x1_0000_0000 ==> |Encode(v)| <= 5
    ensures |Encode(v)| <= 10
  {
    Pow2Steps();
    Pow2Adds(7, 7);
    Pow2Adds(14, 7);
    Pow2Grows(32, 35);
    Pow2Grows(64, 70);
    EncodedSizeBound(v, 10);
    if v < 0x80 {
      EncodedSizeBound(v, 1);
    }
    if v < 0x4000 {
      EncodedSizeBound(v, 2);
    }
    if v < 0x20_0000 {
      EncodedSizeBound(v, 3);
    }
    if v < 0x1_0000_0000 {
      EncodedSizeBound(v, 5);
    }
  }

  lemma {:induction false} EncodedSizeBound(v: nat, n: nat)
    requires n > 0 && v < Pow2(7 * n)
    ensures |Encode(v)| <= n
  {
    if v >= 128 {
      assert Pow2(7) == 128;
      Pow2Adds(7, 7 * (n - 1));
      EncodedSizeBound(v / 128, n - 1);
    }
  }

  // ---------- the format itself ----------

  /** Seven bits of each byte, the least significant group first. */
  function GroupsValue(b: bytes): nat {
    if b == [] then 0 else b[0] % 128 + 128 * GroupsValue(b[1..])
  }

  /** One to `most` bytes, every byte but the last with its top bit set, the last one without; a tenth byte is at most 1. */
  predicate IsVarint(b: bytes, most: nat) {
    && 1 <= |b| <= most
    && (forall i :: 0 <= i < |b| - 1 ==> b[i] >= 128) && b[|b| - 1] < 128
    && (|b| == most ==> b[|b| - 1] < 2)
  }

  lemma {:induction false} DecodeFromExactly(b: bytes, k: nat, v: nat, n: nat)
    requires k <= 9
    ensures DecodeFrom(b, k) == Some(Parsed(v, n)) <==> n <= |b| && IsVarint(b[..n], 10 - k) && v == GroupsValue(b[..n])
    decreases 9 - k
  {
    if b != [] && k < 9 && b[0] >= 128 && 1 <= n <= |b| {
      hide IsVarint, GroupsValue;
      LongerVarint(b, k, n);
      var rest, tail := b[1..], b[1..][..n - 1];
      if DecodeFrom(rest, k + 1).Some? {
        var r := DecodeFrom(rest, k + 1).value;
        DecodeFromExactly(rest, k + 1, r.value, r.size);
      }
      DecodeFromExactly(rest, k + 1, GroupsValue(tail), n - 1);
    } else if b != [] && 1 <= n <= |b| {
      hide GroupsValue;
      ShortVarint(b, k, n);
    }
  }

  lemma LongerVarint(b: bytes, k: nat, n: nat)
    requires k < 9 && 1 <= n <= |b| && b[0] >= 128
    ensures IsVarint(b[..n], 10 - k) <==> IsVarint(b[1..][..n - 1], 10 - (k + 1))
    ensures GroupsValue(b[..n]) == b[0] - 128 + 128 * GroupsValue(b[1..][..n - 1])
  {
    var x, y := b[..n], b[1..][..n - 1];
    assert x[1..] == y;
    assert forall i :: 0 <= i < |y| ==> y[i] == x[i + 1];
    assert forall i :: 1 <= i < |x| ==> x[i] == y[i - 1];
  }

  lemma ShortVarint(b: bytes, k: nat, n: nat)
    requires k <= 9 && 1 <= n <= |b| && (k == 9 || b[0] < 128)
    ensures IsVarint(b[..n], 10 - k) ==> n == 1
    ensures n == 1 ==> (IsVarint(b[..n], 10 - k) <==> b[0] < 128 && (k == 9 ==> b[0] < 2)) && (b[0] < 128 ==> GroupsValue(b[..n]) == b[0])
  {
    var x := b[..n];
    assert x[0] == b[0];
    if n == 1 { assert x[1..] == []; }
  }

  /** A number is read exactly from the bytes the format gives it, minimal or not, of which ten carry at most 64 bits. */
  lemma DecodeExactly(b: bytes, v: nat, n: nat)
    ensures Decode(b) == Some(Parsed(v, n)) <==> n <= |b| && IsVarint(b[..n], 10) && v == GroupsValue(b[..n])
  {
    DecodeFromExactly(b, 0, v, n);
  }

  /** What is written is the shortest such spelling. */
  lemma EncodedIsShortest(v: uint64)
    ensures IsVarint(Encode(v), 10) && GroupsValue(Encode(v)) == v
    ensures |Encode(v)| > 1 ==> Encode(v)[|Encode(v)| - 1] != 0
  {
    DecodeOfEncode(v, []);
    assert Encode(v) + [] == Encode(v);
    DecodeExactly(Encode(v), v, |Encode(v)|);
    assert Encode(v)[..|Encode(v)|] == Encode(v);
    LastIsNotZero(v);
  }

  lemma {:induction false} LastIsNotZero(v: nat)
    ensures |Encode(v)| > 1 ==> Encode(v)[|Encode(v)| - 1] != 0
  {
    if v >= 128 {
      LastIsNotZero(v / 128);
      var e, tail := Encode(v), Encode(v / 128);
      assert e[|e| - 1] == tail[|tail| - 1];
    }
  }
}
