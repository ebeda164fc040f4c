/**
 * Base58 as sections 3 and 4 of draft-msporny-base58 define it: leading zero bytes become
 * leading '1' characters and the rest is a change of base.
 */
module Base58 {
  import opened Bytes

  datatype DecodeError = EmptyInput | BadDigit

  /** Digit sequences in a base, most significant digit first. */
  predicate DigitsIn(ds: seq<nat>, base: nat) {
    forall i :: 0 <= i < |ds| ==> ds[i] < base
  }

  function Value(ds: seq<nat>, base: nat): nat {
    if ds == [] then 0 else Value(ds[..|ds| - 1], base) * base + ds[|ds| - 1]
  }

  function Digits(n: nat, base: nat): (ds: seq<nat>)
    requires base >= 2
    ensures DigitsIn(ds, base)
    ensures ds == [] || ds[0] != 0
  {
    if n == 0 then []
    else
      QuotientShrinks(n, base);
      Digits(n / base, base) + [n % base]
  }

  lemma QuotientShrinks(n: nat, base: nat)
    requires n > 0 && base >= 2
    ensures n / base < n
    ensures n < base ==> n / base == 0 && n % base == n
    ensures n == (n / base) * base + n % base
  {
    assert n == base * (n / base) + n % base;
  }

  function Zeros(k: nat): (z: seq<nat>)
    ensures |z| == k
  {
    if k == 0 then [] else [0] + Zeros(k - 1)
  }

  function LeadingZeros(ds: seq<nat>): (k: nat)
    ensures k <= |ds|
    ensures k < |ds| ==> ds[k] != 0
    ensures ds == Zeros(k) + ds[k..]
  {
    if ds == [] || ds[0] != 0 then 0 else 1 + LeadingZeros(ds[1..])
  }

  /** Keeps the leading zeros and rewrites the number in another base. */
  function Convert(ds: seq<nat>, base: nat, to: nat): (r: seq<nat>)
    requires to >= 2
    ensures to > 0 ==> DigitsIn(r, to)
  {
    ZerosAreDigits(LeadingZeros(ds), to);
    Zeros(LeadingZeros(ds)) + Digits(Value(ds, base), to)
  }

  lemma {:induction false} ZerosAreDigits(k: nat, base: nat)
    requires base > 0
    ensures DigitsIn(Zeros(k), base)
  {
    if k != 0 {
      ZerosAreDigits(k - 1, base);
    }
  }

  lemma {:induction false} ValueOfDigits(n: nat, base: nat)
    requires base >= 2
    ensures Value(Digits(n, base), base) == n
  {
    if n != 0 {
      QuotientShrinks(n, base);
      ValueOfDigits(n / base, base);
      var ds := Digits(n, base);
      assert ds[..|ds| - 1] == Digits(n / base, base);
    }
  }

  lemma {:induction false} ValueOfZeros(k: nat, ds: seq<nat>, base: nat)
    ensures Value(Zeros(k) + ds, base) == Value(ds, base)
  {
    if ds == [] {
      assert Zeros(k) + ds == Zeros(k);
      ValueOfOnlyZeros(k, base);
    } else {
      var s := Zeros(k) + ds;
      assert s[..|s| - 1] == Zeros(k) + ds[..|ds| - 1];
      ValueOfZeros(k, ds[..|ds| - 1], base);
    }
  }

  lemma {:induction false} ValueOfOnlyZeros(k: nat, base: nat)
    ensures Value(Zeros(k), base) == 0
  {
    if k != 0 {
      ZerosSnoc(k - 1);
      assert (Zeros(k - 1) + [0])[..k - 1] == Zeros(k - 1);
      ValueOfOnlyZeros(k - 1, base);
    }
  }

  lemma {:induction false} ZerosSnoc(k: nat)
    ensures Zeros(k + 1) == Zeros(k) + [0]
  {
    if k != 0 {
      ZerosSnoc(k - 1);
    }
  }

  /** A digit sequence without leading zero is the only one that denotes its number. */
  lemma {:induction false} DigitsOfValue(ds: seq<nat>, base: nat)
    requires base >= 2 && DigitsIn(ds, base)
    requires ds == [] || ds[0] != 0
    ensures Digits(Value(ds, base), base) == ds
    ensures ds != [] ==> Value(ds, base) > 0
  {
    if ds != [] {
      var init, last := ds[..|ds| - 1], ds[|ds| - 1];
      assert init != [] ==> init[0] == ds[0];
      DigitsOfValue(init, base);
      ValueIsPositive(ds, base);
      QuotientOfSum(Value(init, base), last, base);
      assert ds == init + [last];
    }
  }

  lemma ProductIsPositive(q: nat, base: nat, r: nat)
    requires q > 0 && base > 0
    ensures q * base + r > 0
  {
  }

  lemma {:induction false} ValueIsPositive(ds: seq<nat>, base: nat)
    requires base >= 2 && ds != [] && ds[0] != 0
    requires |ds| > 1 ==> Value(ds[..|ds| - 1], base) > 0
    ensures Value(ds, base) > 0
  {
    if |ds| > 1 {
      ProductIsPositive(Value(ds[..|ds| - 1], base), base, ds[|ds| - 1]);
    }
  }

  lemma QuotientOfSum(q: nat, r: nat, base: nat)
    requires r < base
    ensures (q * base + r) / base == q && (q * base + r) % base == r
  {
    var n := q * base + r;
    var d := n / base - q;
    assert n == base * (n / base) + n % base;
    assert d * base == r - n % base;
    assert d >= 1 ==> d * base >= base;
    assert d <= -1 ==> d * base + base <= 0;
  }

  /** Changing base and changing back gives the digits that were started from. */
  lemma ConvertRoundTrip(ds: seq<nat>, base: nat, to: nat)
    requires base >= 2 && to >= 2 && DigitsIn(ds, base)
    ensures Convert(Convert(ds, base, to), to, base) == ds
  {
    var k := LeadingZeros(ds);
    var rest := ds[k..];
    ValueOfZeros(k, rest, base);
    var n := Value(rest, base);
    DigitsOfValue(rest, base);
    var d := Digits(n, to);
    LeadingZerosOfPadded(k, d);
    ValueOfZeros(k, d, to);
    ValueOfDigits(n, to);
    assert Digits(n, base) == rest;
  }

  lemma {:induction false} FrontZeros(ds: seq<nat>, zeros: nat)
    requires zeros <= |ds| && (forall i :: 0 <= i < zeros ==> ds[i] == 0) && (zeros < |ds| ==> ds[zeros] != 0)
    ensures LeadingZeros(ds) == zeros
  {
    if zeros > 0 { FrontZeros(ds[1..], zeros - 1); }
  }

  lemma {:induction false} ZerosAt(k: nat)
    ensures forall i :: 0 <= i < k ==> Zeros(k)[i] == 0
  {
    if k > 0 { ZerosAt(k - 1); }
  }

  lemma LeadingZerosOfPadded(k: nat, d: seq<nat>)
    requires d == [] || d[0] != 0
    ensures LeadingZeros(Zeros(k) + d) == k
  {
    hide Zeros, LeadingZeros;
    ZerosAt(k);
    FrontZeros(Zeros(k) + d, k);
  }

  /** The alphabet 1-9, A-Z, a-z without 0, I, O and l, as character ranges. */
  function CharOf(d: nat): char
    requires d < 58
  {
    (if d < 9 then d + 49
     else if d < 17 then d + 56
     else if d < 22 then d + 57
     else if d < 33 then d + 58
     else if d < 44 then d + 64
     else d + 65) as char
  }

  function DigitOf(c: char): Option<nat> {
    if '1' <= c <= '9' then Some(c as nat - 49)
    else if 'A' <= c <= 'H' then Some(c as nat - 56)
    else if 'J' <= c <= 'N' then Some(c as nat - 57)
    else if 'P' <= c <= 'Z' then Some(c as nat - 58)
    else if 'a' <= c <= 'k' then Some(c as nat - 64)
    else if 'm' <= c <= 'z' then Some(c as nat - 65)
    else None
  }

  /** The two character tables are inverse to each other. */
  lemma AlphabetIsATable()
    ensures forall d: nat :: d < 58 ==> DigitOf(CharOf(d)) == Some(d)
    ensures forall c: char :: DigitOf(c).Some? ==> DigitOf(c).value < 58 && CharOf(DigitOf(c).value) == c
  {
  }

  function Spell(ds: seq<nat>): (s: string)
    requires DigitsIn(ds, 58)
    ensures |s| == |ds|
  {
    seq(|ds|, i requires 0 <= i < |ds| => CharOf(ds[i]))
  }

  predicate AllDigits(s: string) {
    forall i :: 0 <= i < |s| ==> DigitOf(s[i]).Some?
  }

  function Read(s: string): (ds: seq<nat>)
    requires AllDigits(s)
    ensures DigitsIn(ds, 58)
  {
    seq(|s|, i requires 0 <= i < |s| => DigitOf(s[i]).value)
  }

  function FromBytes(b: bytes): (ds: seq<nat>)
    ensures DigitsIn(ds, 256)
  {
    b
  }

  function ToBytes(ds: seq<nat>): (b: bytes)
    requires DigitsIn(ds, 256)
    ensures b == ds
  {
    seq(|ds|, i requires 0 <= i < |ds| => ds[i])
  }

  function Encode(b: bytes): string {
    Spell(Convert(FromBytes(b), 256, 58))
  }

  function Decode(s: string): Result<bytes, DecodeError> {
    if s == "" then Err(EmptyInput)
    else if !AllDigits(s) then Err(BadDigit)
    else Ok(ToBytes(Convert(Read(s), 58, 256)))
  }

  /** Decoding what was encoded gives the bytes back; only the empty string has no decodable spelling. */
  lemma DecodeOfEncode(b: bytes)
    ensures Decode(Encode(b)) == if b == [] then Err(EmptyInput) else Ok(b)
  {
    var ds := Convert(FromBytes(b), 256, 58);
    var s := Spell(ds);
    AlphabetIsATable();
    assert AllDigits(s);
    assert Read(s) == ds;
    ConvertRoundTrip(FromBytes(b), 256, 58);
    if s == "" {
      assert Convert(ds, 58, 256) == [];
    }
    assert b == [] ==> s == "";
  }

  /** Encoding what was decoded gives the spelling back, so no byte string has two spellings. */
  lemma {:induction false} EncodeOfDecode(s: string)
    requires Decode(s).Ok?
    ensures Encode(Decode(s).value) == s
  {
    var ds := Read(s);
    ConvertRoundTrip(ds, 58, 256);
    AlphabetIsATable();
    assert Spell(ds) == s;
  }

  // ---------- what an encoding says ----------

  const ALPHABET := "123456789" + "ABCDEFGH" + "JKLMN" + "PQRSTUVWXYZ" + "abcdefghijk" + "mnopqrstuvwxyz"

  lemma AlphabetIsBitcoins()
    ensures |ALPHABET| == 58 && forall d: nat :: d < 58 ==> CharOf(d) == ALPHABET[d]
  {
    forall d: nat | d < 58 ensures CharOf(d) == ALPHABET[d] {
      assert forall i :: 0 <= i < 9 ==> "123456789"[i] == (49 + i) as char;
      assert forall i :: 0 <= i < 8 ==> "ABCDEFGH"[i] == (65 + i) as char;
      assert forall i :: 0 <= i < 5 ==> "JKLMN"[i] == (74 + i) as char;
      assert forall i :: 0 <= i < 11 ==> "PQRSTUVWXYZ"[i] == (80 + i) as char;
      assert forall i :: 0 <= i < 11 ==> "abcdefghijk"[i] == (97 + i) as char;
      assert forall i :: 0 <= i < 14 ==> "mnopqrstuvwxyz"[i] == (109 + i) as char;
    }
  }

  /** A spelling decodes exactly to the bytes it is the encoding of, and to none if it is empty or holds another character. */
  lemma DecodesExactly(s: string, b: bytes)
    ensures Decode(s) == Ok(b) <==> s != "" && Encode(b) == s
    ensures Decode(s).Err? <==> s == "" || exists i :: 0 <= i < |s| && s[i] !in ALPHABET
  {
    if Decode(s) == Ok(b) { EncodeOfDecode(s); }
    if s != "" && Encode(b) == s { DecodeOfEncode(b); }
    AlphabetIsATable();
    AlphabetIsBitcoins();
    hide Convert, CharOf, DigitOf, Read;
    forall i | 0 <= i < |s|
      ensures DigitOf(s[i]).Some? <==> s[i] in ALPHABET
    {
      if s[i] in ALPHABET {
        var d: nat :| d < |ALPHABET| && ALPHABET[d] == s[i];
        assert DigitOf(CharOf(d)) == Some(d);
      }
      if DigitOf(s[i]).Some? { assert ALPHABET[DigitOf(s[i]).value] == s[i]; }
    }
  }

  /** The string writes the number in base 58, most significant digit first. */
  predicate Writes(s: string, n: nat) {
    if s == "" then n == 0
    else s[|s| - 1] == ALPHABET[n % 58] && Writes(s[..|s| - 1], n / 58)
  }

  lemma {:induction false} SpellWrites(ds: seq<nat>)
    requires DigitsIn(ds, 58)
    ensures Writes(Spell(ds), Value(ds, 58))
  {
    if ds != [] {
      var init, last := ds[..|ds| - 1], ds[|ds| - 1];
      var s := Spell(ds);
      SpellWrites(init);
      assert s[..|s| - 1] == Spell(init);
      QuotientOfSum(Value(init, 58), last, 58);
      AlphabetIsBitcoins();
    }
  }

  lemma {:induction false} ValueOfBytes(b: bytes)
    ensures Value(FromBytes(b), 256) == BigEndianValue(b)
  {
    if b != [] {
      ValueOfBytes(b[..|b| - 1]);
      assert FromBytes(b)[..|b| - 1] == FromBytes(b[..|b| - 1]);
    }
  }

  /**
   * The encoding writes the bytes as one big-endian number in base 58, with a '1' in front for each
   * leading zero byte and no other digit '1' in front.
   */
  lemma EncodingIsBase58(b: bytes, zeros: nat)
    requires zeros <= |b| && (forall i :: 0 <= i < zeros ==> b[i] == 0) && (zeros < |b| ==> b[zeros] != 0)
    ensures Writes(Encode(b), BigEndianValue(b))
    ensures zeros <= |Encode(b)| && (forall i :: 0 <= i < zeros ==> Encode(b)[i] == '1')
    ensures zeros < |Encode(b)| ==> Encode(b)[zeros] != '1'
  {
    var ds := FromBytes(b);
    var r := Convert(ds, 256, 58);
    FrontZeros(ds, zeros);
    ValueOfBytes(b);
    ConvertedValue(ds, 256, 58);
    SpellWrites(r);
    AlphabetIsATable();
    ZerosAt(zeros);
  }

  lemma ConvertedValue(ds: seq<nat>, base: nat, to: nat)
    requires base >= 2 && to >= 2 && DigitsIn(ds, base)
    ensures Value(Convert(ds, base, to), to) == Value(ds, base)
  {
    var k := LeadingZeros(ds);
    ValueOfDigits(Value(ds, base), to);
    ValueOfZeros(k, Digits(Value(ds, base), to), to);
  }
}
