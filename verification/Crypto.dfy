/**
 * pkg/crypto/encrypt.go: box encryption and signatures under Ed25519 keys. The primitives are the
 * functions of a `Suite`; `Laws` is all that is assumed of them.
 */
module Crypto {
  import opened Bytes
  import opened Bits

  /** Ed25519 seeds and public keys, Curve25519 keys and box keys. */
  type Key = s: bytes | |s| == 32 witness seq(32, _ => 0)
  type Nonce = s: bytes | |s| == 24 witness seq(24, _ => 0)
  type Signature = s: bytes | |s| == 64 witness seq(64, _ => 0)

  const BOX_OVERHEAD := 16
  const NONCE_SIZE := 24

  datatype Suite = Suite(
    sha256: bytes -> Digest,
    sha512: bytes -> Signature,
    publicKey: Key -> Key,
    sign: (Key, bytes) -> Signature,
    checkSignature: (bytes, bytes, bytes) -> bool,
    toMontgomery: Key -> Option<Key>,
    sharedKey: (Key, Key) -> Key,
    seal: (Key, Nonce, bytes) -> bytes,
    open: (Key, Nonce, bytes) -> Option<bytes>)

  datatype CryptoError = BadPublicKey | NoRandomness | TooShort | NotAuthentic

  /** A private key is represented by its 32-byte seed. */
  datatype KeyPair = KeyPair(publicKey: Key, seed: Key)

  ghost predicate Laws(s: Suite) {
    && (forall seed, data :: s.checkSignature(s.publicKey(seed), data, s.sign(seed, data)))
    && (forall seed :: s.toMontgomery(s.publicKey(seed)).Some?)
    && (forall a, b :: SharedWith(s, a, b) == SharedWith(s, b, a))
    && (forall k, n, text :: |s.seal(k, n, text)| == |text| + BOX_OVERHEAD)
    && (forall k, n, text :: s.open(k, n, s.seal(k, n, text)) == Some(text))
  }

  /** The box key that the holder of seed b computes with the public key of seed a. */
  ghost function SharedWith(s: Suite, a: Key, b: Key): Key {
    match s.toMontgomery(s.publicKey(a))
    case Some(k) => s.sharedKey(k, CurvePrivate(s, b))
    case None => a
  }

  // ---------- scalar clamping ----------

  function Clamped(h: bytes): (r: bytes)
    requires |h| >= 32
    ensures |r| == |h|
  {
    SetBit6ClearBit7(h[31]);
    h[0 := And(h[0], 248)][31 := Or(And(h[31], 127), 64)]
  }

  function CurvePrivate(s: Suite, seed: Key): Key {
    Clamped(s.sha512(seed))[..32]
  }

  /** ed25519PrivToCurve25519 changes the digest in place and copies its first half. */
  method Ed25519PrivToCurve25519(s: Suite, seed: Key) returns (curvePriv: Key)
    ensures curvePriv == CurvePrivate(s, seed)
  {
    var digest := s.sha512(seed);
    var h := new byte[64](i requires 0 <= i < 64 => digest[i]);
    assert h[..] == digest;
    h[0] := And(h[0], 248);
    h[31] := And(h[31], 127);
    SetBit6ClearBit7(digest[31]);
    h[31] := Or(h[31], 64);
    assert h[..] == Clamped(digest);
    curvePriv := h[..32];
  }

  function LittleEndianValue(s: bytes): nat {
    if s == [] then 0 else s[0] + 256 * LittleEndianValue(s[1..])
  }

  lemma {:induction false} LittleEndianSnoc(s: bytes, b: byte)
    ensures LittleEndianValue(s + [b]) == LittleEndianValue(s) + Pow256(|s|) * b
    ensures LittleEndianValue(s) < Pow256(|s|)
  {
    if s == [] {
      assert s + [b] == [b];
    } else {
      LittleEndianSnoc(s[1..], b);
      assert (s + [b])[1..] == s[1..] + [b];
      Scale(Pow256(|s| - 1), b);
    }
  }

  lemma Scale(p: nat, b: nat)
    ensures 256 * (p * b) == (256 * p) * b
  {
  }

  /** The number 32 bytes denote, taken apart at its first and last byte. */
  lemma ScalarParts(s: bytes)
    requires |s| == 32
    ensures LittleEndianValue(s) == s[0] + 256 * LittleEndianValue(s[1..31]) + Pow256(31) * s[31]
    ensures LittleEndianValue(s[1..31]) < Pow256(30)
  {
    var tail := s[1..];
    LittleEndianSnoc(tail[..30], s[31]);
    assert tail == tail[..30] + [s[31]];
    assert tail[..30] == s[1..31];
    Scale(Pow256(30), s[31]);
  }

  /**
   * The clamped scalar of section 5 of RFC 7748: a multiple of 8 in [2^254, 2^255) that agrees
   * with the digest on bits 3 to 253.
   */
  lemma ClampIsRfc7748(h: bytes)
    requires |h| >= 32
    ensures var v, c := LittleEndianValue(h[..32]), LittleEndianValue(Clamped(h)[..32]);
            && c % 8 == 0
            && Pow2(254) <= c < Pow2(255)
            && (c / 8) % Pow2(251) == (v / 8) % Pow2(251)
  {
    hide Clamped, LittleEndianValue, Pow2, Pow256;
    var s, t := h[..32], Clamped(h)[..32];
    ScalarParts(s);
    ScalarParts(t);
    ClampedBytes(h);
    ClampPowers();
    ClampArithmetic(s[0], LittleEndianValue(s[1..31]), s[31], Pow256(30));
  }

  lemma ClampedBytes(h: bytes)
    requires |h| >= 32
    ensures var s, t := h[..32], Clamped(h)[..32];
            t[0] == s[0] / 8 * 8 && t[1..31] == s[1..31] && t[31] == 64 + s[31] % 64
  {
    ClearLow3(h[0]);
    SetBit6ClearBit7(h[31]);
  }

  lemma ClampPowers()
    ensures Pow256(31) == 256 * Pow256(30)
    ensures Pow2(251) == 0x800 * Pow256(30)
    ensures Pow2(254) == 0x4000 * Pow256(30)
    ensures Pow2(255) == 0x8000 * Pow256(30)
  {
    Pow256IsPow2(30);
    Pow2Adds(11, 240);
    assert Pow2(254) == 2 * Pow2(253) && Pow2(253) == 2 * Pow2(252) && Pow2(252) == 2 * Pow2(251);
    assert Pow2(255) == 2 * Pow2(254);
    assert Pow2(11) == 0x800;
  }

  lemma ClampArithmetic(first: nat, middle: nat, last: nat, q: nat)
    requires first < 256 && middle < q && last < 256
    ensures var v := first + 256 * middle + 256 * q * last;
            var c := first / 8 * 8 + 256 * middle + 256 * q * (64 + last % 64);
            && c % 8 == 0
            && 0x4000 * q <= c < 0x8000 * q
            && (c / 8) % (0x800 * q) == (v / 8) % (0x800 * q)
  {
    ClampProducts(first, middle, last, q, last % 64, last / 64);
  }

  lemma ClampProducts(first: nat, middle: nat, last: nat, q: nat, low: nat, high: nat)
    requires first < 256 && middle < q && last == low + 64 * high && low < 64
    ensures var v := first + 256 * middle + 256 * q * last;
            var c := first / 8 * 8 + 256 * middle + 256 * q * (64 + low);
            && c % 8 == 0
            && 0x4000 * q <= c < 0x8000 * q
            && (c / 8) % (0x800 * q) == (v / 8) % (0x800 * q)
  {
    var y := first / 8 + 32 * middle + 32 * (q * low);
    LowBound(q, low);
    Distribute(q, low, high, last);
    var v := first + 256 * middle + 256 * (q * last);
    var c := first / 8 * 8 + 256 * middle + 256 * (q * (64 + low));
    assert v == first + 256 * middle + 256 * (q * low) + 8 * (0x800 * (q * high));
    EighthOfSum(first, 32 * middle + 32 * (q * low) + 0x800 * (q * high));
    assert v / 8 == y + 0x800 * (q * high);
    assert c == 8 * (y + 0x800 * q);
    Reassociate(q, last, low, high);
    RemainderOf(y, 1, 0x800 * q);
    RemainderOf(y, high, 0x800 * q);
  }

  lemma EighthOfSum(first: nat, rest: nat)
    ensures (first + 8 * rest) / 8 == first / 8 + rest
  {
  }

  lemma LowBound(q: nat, low: nat)
    requires low <= 63
    ensures 0 <= q * low <= 63 * q
  {
  }

  lemma Distribute(q: nat, low: nat, high: nat, last: nat)
    requires last == low + 64 * high
    ensures q * last == q * low + 64 * (q * high)
    ensures q * (64 + low) == 64 * q + q * low
  {
  }

  lemma Reassociate(q: nat, last: nat, low: nat, high: nat)
    ensures 256 * q * last == 256 * (q * last)
    ensures 256 * q * (64 + low) == 256 * (q * (64 + low))
    ensures (0x800 * q) * high == 0x800 * (q * high)
    ensures (0x800 * q) * 1 == 0x800 * q
  {
  }

  lemma RemainderOf(y: nat, k: nat, m: nat)
    requires y < m
    ensures (y + m * k) % m == y
  {
    var n := y + m * k;
    assert n == m * (n / m) + n % m;
    var d := n / m - k;
    assert m * d == y - n % m;
    assert d >= 1 ==> m * d >= m;
    assert d <= -1 ==> m * d + m <= 0;
  }

  /** Clamping a second time changes nothing. */
  lemma ClampIsIdempotent(h: bytes)
    requires |h| >= 32
    ensures Clamped(Clamped(h)) == Clamped(h)
  {
    hide And, Or;
    var c := Clamped(h);
    ClearLow3(h[0]);
    ClearLow3(c[0]);
    SetBit6ClearBit7(h[31]);
    SetBit6ClearBit7(c[31]);
    assert Clamped(c)[0] == c[0] && Clamped(c)[31] == c[31];
  }

  // ---------- boxes and signatures ----------

  /** ed25519PubToCurve25519: 32 bytes that decode to a curve point. */
  function PubToCurve(s: Suite, pub: bytes): Option<Key> {
    if |pub| != 32 then None else s.toMontgomery(pub)
  }

  /** Encrypt prepends the random nonce; `nonce` is None when the random source fails. */
  function Encrypt(s: Suite, plaintext: bytes, recipientPub: bytes, senderSeed: Key, nonce: Option<Nonce>)
    : Result<bytes, CryptoError>
  {
    match PubToCurve(s, recipientPub)
    case None => Err(BadPublicKey)
    case Some(curve) =>
      match nonce
      case None => Err(NoRandomness)
      case Some(n) => Ok(n + s.seal(s.sharedKey(curve, CurvePrivate(s, senderSeed)), n, plaintext))
  }

  function Decrypt(s: Suite, ciphertext: bytes, senderPub: bytes, recipientSeed: Key): Result<bytes, CryptoError> {
    if |ciphertext| < NONCE_SIZE + BOX_OVERHEAD then Err(TooShort)
    else match PubToCurve(s, senderPub)
      case None => Err(BadPublicKey)
      case Some(curve) =>
        match s.open(s.sharedKey(curve, CurvePrivate(s, recipientSeed)), ciphertext[..NONCE_SIZE], ciphertext[NONCE_SIZE..])
        case None => Err(NotAuthentic)
        case Some(plaintext) => Ok(plaintext)
  }

  /** The recipient reads what the sender encrypted: nonce framing and key agreement fit together. */
  lemma DecryptOfEncrypt(s: Suite, plaintext: bytes, sender: Key, recipient: Key, nonce: Nonce)
    requires Laws(s)
    ensures var e := Encrypt(s, plaintext, s.publicKey(recipient), sender, Some(nonce));
            && e.Ok? && |e.value| == NONCE_SIZE + BOX_OVERHEAD + |plaintext|
            && Decrypt(s, e.value, s.publicKey(sender), recipient) == Ok(plaintext)
  {
    hide CurvePrivate;
    var c := Encrypt(s, plaintext, s.publicKey(recipient), sender, Some(nonce)).value;
    assert SharedWith(s, recipient, sender) == SharedWith(s, sender, recipient);
    var sealed := s.seal(SharedWith(s, recipient, sender), nonce, plaintext);
    assert c == nonce + sealed;
    assert c[..NONCE_SIZE] == nonce && c[NONCE_SIZE..] == sealed;
  }

  /** A ciphertext is the 24-byte nonce and the box sealed with the shared key of clamped scalar and mapped point. */
  lemma EncryptsExactly(s: Suite, plaintext: bytes, pub: bytes, seed: Key, nonce: Option<Nonce>, c: bytes)
    ensures Encrypt(s, plaintext, pub, seed, nonce) == Ok(c) <==>
            && |pub| == 32 && s.toMontgomery(pub).Some? && nonce.Some? && |c| >= 24 && c[..24] == nonce.value
            && c[24..] == s.seal(s.sharedKey(s.toMontgomery(pub).value, Clamped(s.sha512(seed))[..32]), nonce.value, plaintext)
  {
    hide Clamped;
    if PubToCurve(s, pub).Some? && nonce.Some? {
      var n: bytes, sealed := nonce.value, s.seal(s.sharedKey(PubToCurve(s, pub).value, CurvePrivate(s, seed)), nonce.value, plaintext);
      assert (n + sealed)[..24] == n && (n + sealed)[24..] == sealed;
      assert |c| >= 24 ==> c == c[..24] + c[24..];
    }
  }

  /** A ciphertext decrypts only if it is long enough and its box opens under that key. */
  lemma DecryptsExactly(s: Suite, c: bytes, pub: bytes, seed: Key, plaintext: bytes)
    ensures Decrypt(s, c, pub, seed) == Ok(plaintext) <==>
            && |c| >= 40 && |pub| == 32 && s.toMontgomery(pub).Some?
            && s.open(s.sharedKey(s.toMontgomery(pub).value, Clamped(s.sha512(seed))[..32]), c[..24], c[24..]) == Some(plaintext)
  {
    hide Clamped;
  }

  // ---------- the laws can be met ----------

  function AddBytes(a: byte, b: byte): byte {
    (a + b) % 256
  }

  function Mixed(a: Key, b: Key): Key {
    seq(32, i requires 0 <= i < 32 => AddBytes(a[i], b[i]))
  }

  function Doubled(b: bytes): Signature {
    if |b| == 32 then b + b else seq(64, _ => 0)
  }

  function OpenToy(k: Key, c: bytes): Option<bytes> {
    if |c| >= BOX_OVERHEAD && c[..BOX_OVERHEAD] == k[..BOX_OVERHEAD] then Some(c[BOX_OVERHEAD..]) else None
  }

  /** A suite without any secrecy, under which the assumptions hold. */
  function ToySuite(): Suite {
    Suite(
      b => seq(32, _ => 0),
      b => Doubled(b),
      seed => Clamped(Doubled(seed))[..32],
      (seed, data) => seq(64, _ => 0),
      (pub, data, signature) => true,
      k => Some(k),
      (a, b) => Mixed(a, b),
      (k, n, text) => k[..BOX_OVERHEAD] + text,
      (k, n, c) => OpenToy(k, c))
  }

  lemma LawsAreConsistent()
    ensures Laws(ToySuite())
  {
    var s := ToySuite();
    forall a, b
      ensures SharedWith(s, a, b) == SharedWith(s, b, a)
    {
      assert Mixed(CurvePrivate(s, a), CurvePrivate(s, b)) == Mixed(CurvePrivate(s, b), CurvePrivate(s, a));
    }
    forall k: Key, text: bytes
      ensures OpenToy(k, k[..BOX_OVERHEAD] + text) == Some(text)
    {
      var c := k[..BOX_OVERHEAD] + text;
      assert c[..BOX_OVERHEAD] == k[..BOX_OVERHEAD] && c[BOX_OVERHEAD..] == text;
    }
  }
}
