/** pkg/pow/pow.go: the Hashcash puzzle over SHA-256. */
module Pow {
  import opened Bytes
  import opened Bits

  const DEFAULT_DIFFICULTY: uint32 := 20
  const MAX_UINT64: uint64 := 0xFFFF_FFFF_FFFF_FFFF

  /** The bit test either answers or indexes past the end of the slice, which panics. */
  datatype Outcome = Met | NotMet | IndexPanic

  /**
   * The leading-zero-bit test read byte by byte from the front.
   * `LeadingZeroBitsIsABound` gives its meaning as a number.
   */
  function LeadingZeroBits(hash: bytes, n: nat): Outcome {
    if n == 0 then Met
    else if hash == [] then IndexPanic
    else if n < 8 then if hash[0] < Pow2(8 - n) then Met else NotMet
    else if hash[0] != 0 then NotMet
    else LeadingZeroBits(hash[1..], n - 8)
  }

  /** For n within the slice, the test says that the hash as a number is below 2^(bits - n). */
  lemma {:induction false} LeadingZeroBitsIsABound(hash: bytes, n: nat)
    requires n <= 8 * |hash|
    ensures LeadingZeroBits(hash, n) ==
            if BigEndianValue(hash) < Pow2(8 * |hash| - n) then Met else NotMet
  {
    if n == 0 {
      BigEndianValueBound(hash);
      Pow256IsPow2(|hash|);
    } else if n < 8 {
      HeadDecides(hash, Pow2(8 - n));
      BoundSplits(n, |hash| - 1);
    } else {
      ZeroHead(hash);
      Pow256IsPow2(|hash| - 1);
      if hash[0] == 0 {
        LeadingZeroBitsIsABound(hash[1..], n - 8);
      } else {
        Pow2Grows(8 * |hash| - n, 8 * (|hash| - 1));
      }
    }
  }

  lemma BoundSplits(n: nat, k: nat)
    requires n < 8
    ensures Pow2(8 * (k + 1) - n) == Pow2(8 - n) * Pow256(k)
  {
    Pow256IsPow2(k);
    Pow2Adds(8 - n, 8 * k);
  }

  lemma {:induction false} HeadDecides(hash: bytes, bound: nat)
    requires hash != []
    ensures hash[0] < bound <==> BigEndianValue(hash) < bound * Pow256(|hash| - 1)
  {
    BigEndianValueHead(hash);
    BigEndianValueBound(hash[1..]);
    QuotientDecides(hash[0], BigEndianValue(hash[1..]), Pow256(|hash| - 1), bound);
  }

  lemma QuotientDecides(head: nat, rest: nat, p: nat, bound: nat)
    requires rest < p
    ensures head < bound <==> head * p + rest < bound * p
  {
    if head < bound {
      assert (head + 1) * p <= bound * p;
      assert (head + 1) * p == head * p + p;
    } else {
      assert head * p >= bound * p;
    }
  }

  lemma {:induction false} ZeroHead(hash: bytes)
    requires hash != []
    ensures hash[0] == 0 ==> BigEndianValue(hash) == BigEndianValue(hash[1..])
    ensures hash[0] != 0 ==> BigEndianValue(hash) >= Pow256(|hash| - 1)
  {
    BigEndianValueHead(hash);
    if hash[0] != 0 {
      HeadDecides(hash, 1);
    }
  }

  /** Beyond the slice the test runs off the end exactly when every byte is zero. */
  lemma {:induction false} LeadingZeroBitsBeyondTheHash(hash: bytes, n: nat)
    requires n > 8 * |hash|
    ensures LeadingZeroBits(hash, n) ==
            if forall i :: 0 <= i < |hash| ==> hash[i] == 0 then IndexPanic else NotMet
  {
    if hash != [] && hash[0] == 0 {
      LeadingZeroBitsBeyondTheHash(hash[1..], n - 8);
      if forall i :: 0 <= i < |hash[1..]| ==> hash[1..][i] == 0 {
        forall i | 0 <= i < |hash|
          ensures hash[i] == 0
        {
          if i > 0 {
            assert hash[i] == hash[1..][i - 1];
          }
        }
      }
    }
  }

  /** Asking for more zero bits never turns a failure into a success. */
  lemma {:induction false} LeadingZeroBitsAntitone(hash: bytes, easy: nat, hard: nat)
    requires easy <= hard
    requires LeadingZeroBits(hash, hard) == Met
    ensures LeadingZeroBits(hash, easy) == Met
  {
    if hard > 8 * |hash| {
      LeadingZeroBitsBeyondTheHash(hash, hard);
    } else {
      LeadingZeroBitsIsABound(hash, easy);
      LeadingZeroBitsIsABound(hash, hard);
      Pow2Grows(8 * |hash| - hard, 8 * |hash| - easy);
    }
  }

  /** hasLeadingZeroBits: whole bytes first, then one masked byte. */
  method HasLeadingZeroBits(hash: bytes, n: uint32) returns (r: Outcome)
    ensures r == LeadingZeroBits(hash, n)
  {
    var fullBytes := n / 8;
    var remainBits := n % 8;
    var i := 0;
    while i < fullBytes
      invariant 0 <= i <= fullBytes && i <= |hash|
      invariant LeadingZeroBits(hash, n) == LeadingZeroBits(hash[i..], n - 8 * i)
    {
      if i >= |hash| {
        return IndexPanic;
      }
      if hash[i] != 0 {
        return NotMet;
      }
      assert hash[i..][1..] == hash[i + 1..];
      i := i + 1;
    }
    if remainBits > 0 {
      if fullBytes >= |hash| {
        return IndexPanic;
      }
      TopBitsClear(hash[fullBytes], remainBits);
      var mask := ShiftLeft(0xFF, 8 - remainBits);
      if And(hash[fullBytes], mask) != 0 {
        return NotMet;
      }
    }
    return Met;
  }

  /** What `Verify` decides: the puzzle over data || nonce. */
  function Check(sha256: bytes -> Digest, data: bytes, nonce: uint64, difficulty: uint32): Outcome {
    LeadingZeroBits(sha256(data + BigEndian(nonce, 8)), difficulty)
  }

  method Verify(sha256: bytes -> Digest, data: bytes, nonce: uint64, difficulty: uint32) returns (r: Outcome)
    ensures r == Check(sha256, data, nonce, difficulty)
  {
    var buf := new byte[|data| + 8](_ => 0);
    for i := 0 to |data|
      invariant buf[..i] == data[..i]
    {
      buf[i] := data[i];
    }
    var be := BigEndian(nonce, 8);
    for i := 0 to 8
      invariant buf[..|data|] == data
      invariant buf[|data|..|data| + i] == be[..i]
    {
      buf[|data| + i] := be[i];
    }
    assert buf[..] == buf[..|data|] + buf[|data|..];
    assert buf[..] == data + be;
    r := HasLeadingZeroBits(sha256(buf[..]), difficulty);
  }

  /** For a difficulty the hash can express, checking a nonce is one numeric comparison. */
  lemma CheckIsABound(sha256: bytes -> Digest, data: bytes, nonce: uint64, difficulty: uint32)
    requires difficulty <= 256
    ensures Check(sha256, data, nonce, difficulty) ==
            if BigEndianValue(sha256(data + BigEndian(nonce, 8))) < Pow2(256 - difficulty) then Met else NotMet
  {
    LeadingZeroBitsIsABound(sha256(data + BigEndian(nonce, 8)), difficulty);
  }

  lemma CheckAntitone(sha256: bytes -> Digest, data: bytes, nonce: uint64, easy: uint32, hard: uint32)
    requires easy <= hard
    requires Check(sha256, data, nonce, hard) == Met
    ensures Check(sha256, data, nonce, easy) == Met
  {
    LeadingZeroBitsAntitone(sha256(data + BigEndian(nonce, 8)), easy, hard);
  }

  ghost predicate Solves(sha256: bytes -> Digest, data: bytes, difficulty: uint32, nonce: uint64) {
    nonce < MAX_UINT64 && Check(sha256, data, nonce, difficulty) == Met
  }

  ghost predicate Solvable(sha256: bytes -> Digest, data: bytes, difficulty: uint32) {
    exists nonce: uint64 :: Solves(sha256, data, difficulty, nonce)
  }

  /** The search from `from` upwards; None is a panic, and an exhausted search yields 0. */
  function Search(sha256: bytes -> Digest, data: bytes, difficulty: uint32, from: uint64): Option<uint64>
    decreases MAX_UINT64 - from
  {
    if from == MAX_UINT64 then Some(0)
    else match Check(sha256, data, from, difficulty)
      case Met => Some(from)
      case IndexPanic => None
      case NotMet => Search(sha256, data, difficulty, from + 1)
  }

  method Compute(sha256: bytes -> Digest, data: bytes, difficulty: uint32) returns (r: Option<uint64>)
    ensures r == Search(sha256, data, difficulty, 0)
  {
    var nonce: uint64 := 0;
    while nonce < MAX_UINT64
      invariant 0 <= nonce <= MAX_UINT64
      invariant Search(sha256, data, difficulty, 0) == Search(sha256, data, difficulty, nonce)
    {
      var v := Verify(sha256, data, nonce, difficulty);
      match v {
        case Met => return Some(nonce);
        case IndexPanic => return None;
        case NotMet =>
      }
      nonce := nonce + 1;
    }
    return Some(0);
  }

  lemma {:induction false} SearchFromIsLeast(sha256: bytes -> Digest, data: bytes, difficulty: uint32, from: uint64)
    ensures var r := Search(sha256, data, difficulty, from);
            || (r.None? && difficulty > 256)
            || (r.Some? && from <= r.value && Solves(sha256, data, difficulty, r.value)
                && forall k: uint64 :: from <= k < r.value ==> !Solves(sha256, data, difficulty, k))
            || (r == Some(0) && forall k: uint64 :: from <= k ==> !Solves(sha256, data, difficulty, k))
    decreases MAX_UINT64 - from
  {
    if from != MAX_UINT64 {
      if difficulty <= 256 {
        CheckIsABound(sha256, data, from, difficulty);
      }
      if Check(sha256, data, from, difficulty) == NotMet {
        SearchFromIsLeast(sha256, data, difficulty, from + 1);
      }
    }
  }

  /**
   * Compute returns the least nonce below 2^64 - 1 that solves the puzzle, and 0 when none does;
   * it panics only for a difficulty above 256 bits.
   */
  lemma ComputeIsLeast(sha256: bytes -> Digest, data: bytes, difficulty: uint32)
    ensures var r := Search(sha256, data, difficulty, 0);
            && (r.None? ==> difficulty > 256)
            && (r.Some? ==>
                  && (Solvable(sha256, data, difficulty) <==> Solves(sha256, data, difficulty, r.value))
                  && (forall k: uint64 :: k < r.value ==> !Solves(sha256, data, difficulty, k))
                  && (!Solvable(sha256, data, difficulty) ==> r == Some(0)))
  {
    SearchFromIsLeast(sha256, data, difficulty, 0);
  }

  /** The search never answers with the one nonce it does not try. */
  lemma {:induction false} SearchEnds(sha256: bytes -> Digest, data: bytes, difficulty: uint32, from: uint64)
    ensures Search(sha256, data, difficulty, from).Some? ==> Search(sha256, data, difficulty, from).value < MAX_UINT64
    decreases MAX_UINT64 - from
  {
    if from != MAX_UINT64 && Check(sha256, data, from, difficulty) == NotMet {
      SearchEnds(sha256, data, difficulty, from + 1);
    }
  }

  /** A harder puzzle that has a solution never has a smaller one than an easier puzzle. */
  lemma ComputeMonotone(sha256: bytes -> Digest, data: bytes, easy: uint32, hard: uint32)
    requires easy <= hard <= 256
    requires Solvable(sha256, data, hard)
    ensures Solvable(sha256, data, easy)
    ensures Search(sha256, data, easy, 0).Some? && Search(sha256, data, hard, 0).Some?
    ensures Search(sha256, data, easy, 0).value <= Search(sha256, data, hard, 0).value
  {
    ComputeIsLeast(sha256, data, easy);
    ComputeIsLeast(sha256, data, hard);
    var h := Search(sha256, data, hard, 0).value;
    CheckAntitone(sha256, data, h, easy, hard);
    assert Solves(sha256, data, easy, h);
  }
}
