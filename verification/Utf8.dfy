/** UTF-8 by its definition, section 3 of RFC 3629: what the check of string fields accepts. */
module Utf8 {
  import opened Bytes
  import opened Wire

  /** Unicode scalar values: the code points up to 10FFFF without the surrogates. */
  predicate IsScalar(c: nat) {
    c <= 0x10FFFF && !(0xD800 <= c <= 0xDFFF)
  }

  /** One scalar value in one to four bytes: six bits in each byte after the first. */
  function EncodeScalar(c: nat): bytes
    requires IsScalar(c)
  {
    if c < 0x80 then [c]
    else if c < 0x800 then [0xC0 + c / 64, 0x80 + c % 64]
    else if c < 0x1_0000 then [0xE0 + c / 4096, 0x80 + c / 64 % 64, 0x80 + c % 64]
    else [0xF0 + c / 262144, 0x80 + c / 4096 % 64, 0x80 + c / 64 % 64, 0x80 + c % 64]
  }

  predicate AreScalars(cs: seq<nat>) {
    forall i :: 0 <= i < |cs| ==> IsScalar(cs[i])
  }

  function EncodeText(cs: seq<nat>): bytes
    requires AreScalars(cs)
  {
    if cs == [] then [] else EncodeScalar(cs[0]) + EncodeText(cs[1..])
  }

  /** The bytes are some text. */
  ghost predicate IsText(b: bytes) {
    exists cs: seq<nat> :: AreScalars(cs) && EncodeText(cs) == b
  }

  /** A scalar value in front makes no difference. */
  lemma ScalarInFront(c: nat, rest: bytes)
    requires IsScalar(c)
    ensures ValidUtf8(EncodeScalar(c) + rest) <==> ValidUtf8(rest)
  {
    hide ValidUtf8;
    if c < 0x80 {
      OneInFront(c, rest);
    } else if c < 0x800 {
      TwoInFront(0xC0 + c / 64, 0x80 + c % 64, rest);
    } else if c < 0x1_0000 {
      ThreeInFront(0xE0 + c / 4096, 0x80 + c / 64 % 64, 0x80 + c % 64, rest);
    } else {
      FourInFront(0xF0 + c / 262144, 0x80 + c / 4096 % 64, 0x80 + c / 64 % 64, 0x80 + c % 64, rest);
    }
  }

  lemma OneInFront(x: byte, rest: bytes)
    requires x < 0x80
    ensures ValidUtf8([x] + rest) <==> ValidUtf8(rest)
  {
    assert ([x] + rest)[1..] == rest;
  }

  lemma TwoInFront(x: byte, y: byte, rest: bytes)
    requires 0xC2 <= x <= 0xDF && 0x80 <= y <= 0xBF
    ensures ValidUtf8([x, y] + rest) <==> ValidUtf8(rest)
  {
    assert ([x, y] + rest)[2..] == rest;
  }

  lemma ThreeInFront(x: byte, y: byte, z: byte, rest: bytes)
    requires 0xE0 <= x <= 0xEF && 0x80 <= y <= 0xBF && 0x80 <= z <= 0xBF
    requires (x == 0xE0 ==> y >= 0xA0) && (x == 0xED ==> y <= 0x9F)
    ensures ValidUtf8([x, y, z] + rest) <==> ValidUtf8(rest)
  {
    assert ([x, y, z] + rest)[3..] == rest;
  }

  lemma FourInFront(x: byte, y: byte, z: byte, w: byte, rest: bytes)
    requires 0xF0 <= x <= 0xF4 && 0x80 <= y <= 0xBF && 0x80 <= z <= 0xBF && 0x80 <= w <= 0xBF
    requires (x == 0xF0 ==> y >= 0x90) && (x == 0xF4 ==> y <= 0x8F)
    ensures ValidUtf8([x, y, z, w] + rest) <==> ValidUtf8(rest)
  {
    assert ([x, y, z, w] + rest)[4..] == rest;
  }

  lemma Split64(q: nat, r: nat)
    requires r < 64
    ensures (q * 64 + r) / 64 == q && (q * 64 + r) % 64 == r
  {
  }

  lemma OneByte(x: byte)
    requires x < 0x80
    ensures IsScalar(x) && EncodeScalar(x) == [x]
  {
  }

  lemma TwoBytes(x: byte, y: byte)
    requires 0xC2 <= x <= 0xDF && 0x80 <= y <= 0xBF
    ensures var c := (x - 0xC0) * 64 + (y - 0x80); IsScalar(c) && EncodeScalar(c) == [x, y]
  {
    Split64(x - 0xC0, y - 0x80);
  }

  lemma ThreeBytes(x: byte, y: byte, z: byte)
    requires 0xE0 <= x <= 0xEF && 0x80 <= y <= 0xBF && 0x80 <= z <= 0xBF
    requires (x == 0xE0 ==> y >= 0xA0) && (x == 0xED ==> y <= 0x9F)
    ensures var c := ((x - 0xE0) * 64 + (y - 0x80)) * 64 + (z - 0x80); IsScalar(c) && EncodeScalar(c) == [x, y, z]
  {
    var high := (x - 0xE0) * 64 + (y - 0x80);
    Split64(x - 0xE0, y - 0x80);
    Split64(high, z - 0x80);
    var c := high * 64 + (z - 0x80);
    assert c / 4096 == high / 64;
  }

  lemma FourBytes(x: byte, y: byte, z: byte, w: byte)
    requires 0xF0 <= x <= 0xF4 && 0x80 <= y <= 0xBF && 0x80 <= z <= 0xBF && 0x80 <= w <= 0xBF
    requires (x == 0xF0 ==> y >= 0x90) && (x == 0xF4 ==> y <= 0x8F)
    ensures var c := (((x - 0xF0) * 64 + (y - 0x80)) * 64 + (z - 0x80)) * 64 + (w - 0x80);
      IsScalar(c) && EncodeScalar(c) == [x, y, z, w]
  {
    var top := (x - 0xF0) * 64 + (y - 0x80);
    var high := top * 64 + (z - 0x80);
    Split64(x - 0xF0, y - 0x80);
    Split64(top, z - 0x80);
    Split64(high, w - 0x80);
    var c := high * 64 + (w - 0x80);
    assert c / 4096 == high / 64 && c / 262144 == top / 64;
  }

  /** The forms of the first bytes of what is accepted. */
  predicate Begins(b: bytes) {
    && b != []
    && (|| b[0] < 0x80
        || (|b| >= 2 && 0xC2 <= b[0] <= 0xDF && 0x80 <= b[1] <= 0xBF)
        || (&& |b| >= 3 && 0xE0 <= b[0] <= 0xEF && 0x80 <= b[1] <= 0xBF && 0x80 <= b[2] <= 0xBF
            && (b[0] == 0xE0 ==> b[1] >= 0xA0) && (b[0] == 0xED ==> b[1] <= 0x9F))
        || (&& |b| >= 4 && 0xF0 <= b[0] <= 0xF4 && 0x80 <= b[1] <= 0xBF && 0x80 <= b[2] <= 0xBF && 0x80 <= b[3] <= 0xBF
            && (b[0] == 0xF0 ==> b[1] >= 0x90) && (b[0] == 0xF4 ==> b[1] <= 0x8F)))
  }

  lemma AcceptedBegins(b: bytes)
    requires b != [] && ValidUtf8(b)
    ensures Begins(b)
  {
  }

  /** What is accepted begins with a scalar value. */
  lemma {:induction false} ScalarAtFront(b: bytes) returns (c: nat)
    requires b != [] && ValidUtf8(b)
    ensures IsScalar(c) && |EncodeScalar(c)| <= |b|
    ensures b == EncodeScalar(c) + b[|EncodeScalar(c)|..]
  {
    hide ValidUtf8, EncodeScalar, IsScalar;
    AcceptedBegins(b);
    var x: int := b[0];
    if x < 0x80 {
      c := x;
      OneByte(b[0]);
      assert b[..1] == [b[0]];
    } else if x <= 0xDF {
      var y: int := b[1];
      TwoBytes(b[0], b[1]);
      c := (x - 0xC0) * 64 + (y - 0x80);
      assert b[..2] == [b[0], b[1]];
    } else if x <= 0xEF {
      var y: int, z: int := b[1], b[2];
      ThreeBytes(b[0], b[1], b[2]);
      c := ((x - 0xE0) * 64 + (y - 0x80)) * 64 + (z - 0x80);
      assert b[..3] == [b[0], b[1], b[2]];
    } else {
      var y: int, z: int, w: int := b[1], b[2], b[3];
      FourBytes(b[0], b[1], b[2], b[3]);
      c := (((x - 0xF0) * 64 + (y - 0x80)) * 64 + (z - 0x80)) * 64 + (w - 0x80);
      assert b[..4] == [b[0], b[1], b[2], b[3]];
    }
  }

  lemma {:induction false} TextIsAccepted(cs: seq<nat>)
    requires AreScalars(cs)
    ensures ValidUtf8(EncodeText(cs))
  {
    if cs != [] {
      TextIsAccepted(cs[1..]);
      ScalarInFront(cs[0], EncodeText(cs[1..]));
    }
  }

  lemma {:induction false} AcceptedIsText(b: bytes) returns (cs: seq<nat>)
    requires ValidUtf8(b)
    ensures AreScalars(cs) && EncodeText(cs) == b
    decreases |b|
  {
    if b == [] {
      cs := [];
    } else {
      var c := ScalarAtFront(b);
      var rest := b[|EncodeScalar(c)|..];
      ScalarInFront(c, rest);
      var tail := AcceptedIsText(rest);
      cs := [c] + tail;
      assert cs[1..] == tail;
    }
  }

  /**
   * The check accepts exactly the encodings of sequences of Unicode scalar values: every text, and
   * no overlong form, no surrogate and nothing above 10FFFF.
   */
  lemma ValidUtf8IsText(b: bytes)
    ensures ValidUtf8(b) <==> IsText(b)
  {
    if ValidUtf8(b) {
      var cs := AcceptedIsText(b);
    }
    if IsText(b) {
      var cs: seq<nat> :| AreScalars(cs) && EncodeText(cs) == b;
      TextIsAccepted(cs);
    }
  }
}
