/** Bitwise operations on bytes, defined bit by bit on the integers they denote. */
module Bits {
  import opened Bytes

  function And(a: nat, b: nat): (r: nat)
    ensures r <= a && r <= b
  {
    if a == 0 || b == 0 then 0 else 2 * And(a / 2, b / 2) + (if a % 2 == 1 && b % 2 == 1 then 1 else 0)
  }

  function Or(a: nat, b: nat): (r: nat)
    ensures a <= r && b <= r
  {
    if a == 0 then b else if b == 0 then a
    else 2 * Or(a / 2, b / 2) + (if a % 2 == 1 || b % 2 == 1 then 1 else 0)
  }

  /** A left shift within a byte: the bits pushed out are lost. */
  function ShiftLeft(b: byte, n: nat): byte {
    b * Pow2(n) % 256
  }

  lemma {:induction false} AndEven(x: nat, m: nat)
    ensures And(x, 2 * m) == 2 * And(x / 2, m)
  {
  }

  lemma {:induction false} AndOdd(x: nat, m: nat)
    ensures And(x, 2 * m + 1) == 2 * And(x / 2, m) + x % 2
  {
  }

  lemma {:induction false} OrEven(x: nat, m: nat)
    ensures Or(x, 2 * m) == 2 * Or(x / 2, m) + x % 2
  {
  }

  /** x & (2^k - 1) keeps the low k bits. */
  lemma {:induction false} AndOnes(x: nat, k: nat)
    ensures And(x, Pow2(k) - 1) == x % Pow2(k)
  {
    hide And;
    if k != 0 {
      AndOnes(x / 2, k - 1);
      AndOdd(x, Pow2(k - 1) - 1);
      RemainderDoubles(x, Pow2(k - 1));
    }
  }

  lemma RemainderDoubles(x: nat, p: nat)
    requires p > 0
    ensures x % (2 * p) == 2 * (x / 2 % p) + x % 2
  {
    var h := x / 2;
    RemainderIs(x, h / p, 2 * p, 2 * (h % p) + x % 2);
  }

  lemma RemainderIs(x: nat, q: nat, m: nat, r: nat)
    requires r < m && x == q * m + r
    ensures x % m == r && x / m == q
  {
    var d := x / m - q;
    assert x == m * (x / m) + x % m;
    assert d * m == r - x % m;
    assert d >= 1 ==> d * m >= m;
    assert d <= -1 ==> d * m + m <= 0;
  }

  /** The bits from position j up to j + r, as a mask. */
  function HighMask(j: nat, r: nat): nat {
    if j == 0 then Pow2(r) - 1 else 2 * HighMask(j - 1, r)
  }

  lemma {:induction false} HighMaskTest(x: nat, j: nat, r: nat)
    requires x < Pow2(j + r)
    ensures And(x, HighMask(j, r)) == 0 <==> x < Pow2(j)
  {
    hide And;
    if j == 0 {
      AndOnes(x, r);
      SmallRemainder(x, Pow2(r));
    } else {
      HighMaskTest(x / 2, j - 1, r);
      AndEven(x, HighMask(j - 1, r));
    }
  }

  lemma SmallRemainder(x: nat, m: nat)
    requires x < m
    ensures x % m == x
  {
  }

  /** The top r bits of a byte are clear exactly when the byte is below 2^(8 - r). */
  lemma TopBitsClear(b: byte, r: nat)
    requires 1 <= r <= 7
    ensures And(b, ShiftLeft(0xFF, 8 - r)) == 0 <==> b < Pow2(8 - r)
  {
    assert Pow2(8) == 256;
    HighMaskTest(b, 8 - r, r);
    ByteMask(r);
  }

  lemma ByteMask(r: nat)
    requires 1 <= r <= 7
    ensures ShiftLeft(0xFF, 8 - r) == HighMask(8 - r, r)
  {
    Pow2Small();
    HighMaskStep(7, 1);
    HighMaskStep(6, 2);
    HighMaskStep(5, 3);
    HighMaskStep(4, 4);
    HighMaskStep(3, 5);
    HighMaskStep(2, 6);
    HighMaskStep(1, 7);
  }

  lemma {:induction false} HighMaskStep(j: nat, r: nat)
    ensures HighMask(j, r) == Pow2(j + r) - Pow2(j)
  {
    if j != 0 {
      HighMaskStep(j - 1, r);
    }
  }

  lemma Pow2Small()
    ensures Pow2(1) == 2 && Pow2(2) == 4 && Pow2(3) == 8 && Pow2(4) == 16
    ensures Pow2(5) == 32 && Pow2(6) == 64 && Pow2(7) == 128
  {
    assert Pow2(3) == 2 * Pow2(2);
    assert Pow2(5) == 2 * Pow2(4) && Pow2(4) == 2 * Pow2(3);
    assert Pow2(7) == 2 * Pow2(6) && Pow2(6) == 2 * Pow2(5);
  }

  /** b & 248 clears the low three bits. */
  lemma ClearLow3(b: byte)
    ensures And(b, 248) == b / 8 * 8
  {
    hide And;
    Pow2Small();
    AndEven(b, 124);
    AndEven(b / 2, 62);
    AndEven(b / 4, 31);
    AndOnes(b / 8, 5);
  }

  /** (b & 127) | 64 sets bit 6, clears bit 7 and keeps the low six bits. */
  lemma SetBit6ClearBit7(b: byte)
    ensures And(b, 127) == b % 128
    ensures Or(b % 128, 64) == 64 + b % 64
  {
    hide And, Or;
    Pow2Small();
    AndOnes(b, 7);
    OrPower(b % 128, 6);
    assert b % 128 % 64 == b % 64;
  }

  /** Setting the bit above the low k bits of a number that has at most k + 1 bits. */
  lemma {:induction false} OrPower(x: nat, k: nat)
    requires x < 2 * Pow2(k)
    ensures Or(x, Pow2(k)) == Pow2(k) + x % Pow2(k)
  {
    if k != 0 {
      OrPower(x / 2, k - 1);
      OrEven(x, Pow2(k - 1));
      RemainderDoubles(x, Pow2(k - 1));
    }
  }
}
