/** pkg/packet/packet.go: building, checking and opening a packet. */
module Packet {
  import opened Bytes
  import opened Messages
  import opened Crypto
  import Pow
  import Wire
  import Varint

  const PROTOCOL_VERSION: uint32 := 1
  const MAX_PACKET_SIZE := 262144
  const SECOND := 1_000_000_000
  const MAX_FUTURE_SKEW := 3600 * SECOND
  const MAX_PAST_SKEW := 24 * 3600 * SECOND

  // ---------- what is stamped and signed ----------

  /** Fields 1 to 4, 6 and 7: the data of the proof of work. */
  function SignableBytes(p: DmailPacket): bytes {
    MarshalPacket(DmailPacket(p.version, p.recipientPubkey, p.senderPubkey, p.timestamp, 0,
                              p.powDifficulty, p.encryptedPayload, [], []))
  }

  /** Fields 1 to 7: the data of the signature. */
  function SignableBytesWithNonce(p: DmailPacket): bytes {
    MarshalPacket(DmailPacket(p.version, p.recipientPubkey, p.senderPubkey, p.timestamp, p.powNonce,
                              p.powDifficulty, p.encryptedPayload, [], []))
  }

  /** Two packets ask for the same proof of work exactly when they agree on fields 1 to 4, 6 and 7. */
  lemma SignableBytesDetermineFields(p: DmailPacket, q: DmailPacket)
    requires PacketHolds(p) && PacketHolds(q)
    ensures SignableBytes(p) == SignableBytes(q) <==>
            && p.version == q.version && p.recipientPubkey == q.recipientPubkey && p.senderPubkey == q.senderPubkey
            && p.timestamp == q.timestamp && p.powDifficulty == q.powDifficulty
            && p.encryptedPayload == q.encryptedPayload
  {
    hide MarshalPacket, UnmarshalPacket;
    PacketRoundTrip(p.(powNonce := 0, signature := [], unknown := []));
    PacketRoundTrip(q.(powNonce := 0, signature := [], unknown := []));
  }

  /** The signature covers fields 1 to 7 and nothing else: its data agree exactly when those do. */
  lemma SignedBytesDetermineFields(p: DmailPacket, q: DmailPacket)
    requires PacketHolds(p) && PacketHolds(q)
    ensures SignableBytesWithNonce(p) == SignableBytesWithNonce(q) <==>
            && p.version == q.version && p.recipientPubkey == q.recipientPubkey && p.senderPubkey == q.senderPubkey
            && p.timestamp == q.timestamp && p.powNonce == q.powNonce && p.powDifficulty == q.powDifficulty
            && p.encryptedPayload == q.encryptedPayload
  {
    hide MarshalPacket, UnmarshalPacket;
    PacketRoundTrip(p.(signature := [], unknown := []));
    PacketRoundTrip(q.(signature := [], unknown := []));
  }

  // ---------- building ----------

  datatype BuildError = BadPayload | EncryptFailed(cause: CryptoError) | IndexPanic

  /** What the user asked to send, with the message id, clock and nonce drawn for it. */
  datatype Draft = Draft(messageId: bytes, subject: bytes, body: bytes, replyToId: bytes,
                         timestamp: uint64, nonce: Option<Nonce>)

  function PayloadFor(d: Draft): Payload {
    Payload(d.messageId, d.subject, d.body, d.replyToId, [])
  }

  function Unstamped(d: Draft, sender: KeyPair, recipientPub: bytes, difficulty: uint32, encrypted: bytes): DmailPacket {
    DmailPacket(PROTOCOL_VERSION, recipientPub, sender.publicKey, d.timestamp, 0, difficulty, encrypted, [], [])
  }

  function Built(s: Suite, d: Draft, sender: KeyPair, recipientPub: bytes, difficulty: uint32)
    : Result<DmailPacket, BuildError>
  {
    match MarshalPayload(PayloadFor(d))
    case None => Err(BadPayload)
    case Some(plain) =>
      match Encrypt(s, plain, recipientPub, sender.seed, d.nonce)
      case Err(e) => Err(EncryptFailed(e))
      case Ok(encrypted) =>
        var bare := Unstamped(d, sender, recipientPub, difficulty, encrypted);
        match Pow.Search(s.sha256, SignableBytes(bare), difficulty, 0)
        case None => Err(IndexPanic)
        case Some(n) =>
          var stamped := bare.(powNonce := n);
          Ok(stamped.(signature := s.sign(sender.seed, SignableBytesWithNonce(stamped))))
  }

  /** Build makes the packet without nonce and signature, then sets the one and the other. */
  method Build(s: Suite, d: Draft, sender: KeyPair, recipientPub: bytes, difficulty: uint32)
    returns (r: Result<DmailPacket, BuildError>)
    ensures r == Built(s, d, sender, recipientPub, difficulty)
  {
    var payload := MarshalPayload(PayloadFor(d));
    if payload.None? {
      return Err(BadPayload);
    }
    var encrypted := Encrypt(s, payload.value, recipientPub, sender.seed, d.nonce);
    if encrypted.Err? {
      return Err(EncryptFailed(encrypted.error));
    }
    var pkt := Unstamped(d, sender, recipientPub, difficulty, encrypted.value);
    var nonce := Pow.Compute(s.sha256, SignableBytes(pkt), difficulty);
    if nonce.None? {
      return Err(IndexPanic);
    }
    pkt := pkt.(powNonce := nonce.value);
    pkt := pkt.(signature := s.sign(sender.seed, SignableBytesWithNonce(pkt)));
    return Ok(pkt);
  }

  // ---------- checking ----------

  datatype VerifyError = TooLarge(size: nat) | TooFarInFuture | TooOld | InvalidPow | PowPanic | InvalidSignature | KeyPanic

  const SECONDS_BEFORE_EPOCH := 62_135_596_800

  /** A number as a signed 64-bit integer. */
  function Int64(n: int): int {
    (n + 0x8000_0000_0000_0000) % 0x1_0000_0000_0000_0000 - 0x8000_0000_0000_0000
  }

  /**
   * The second a packet's timestamp stands for: it is read as a signed number, and the time value
   * counts from year 1 in a signed number again, so both steps may wrap.
   */
  function PacketSecond(timestamp: uint64): int {
    Int64(Int64(timestamp) + SECONDS_BEFORE_EPOCH) - SECONDS_BEFORE_EPOCH
  }

  /** Verify at the time `now`, in nanoseconds since 1970. */
  function Verify(s: Suite, p: DmailPacket, now: int): Result<(), VerifyError> {
    var size := |MarshalPacket(p)|;
    var time := PacketSecond(p.timestamp) * SECOND;
    if size > MAX_PACKET_SIZE then Err(TooLarge(size))
    else if time > now + MAX_FUTURE_SKEW then Err(TooFarInFuture)
    else if time < now - MAX_PAST_SKEW then Err(TooOld)
    else match Pow.Check(s.sha256, SignableBytes(p), p.powNonce, p.powDifficulty)
      case IndexPanic => Err(PowPanic)
      case NotMet => Err(InvalidPow)
      case Met =>
        if |p.senderPubkey| != 32 then Err(KeyPanic)
        else if s.checkSignature(p.senderPubkey, SignableBytesWithNonce(p), p.signature) then Ok(())
        else Err(InvalidSignature)
  }

  /**
   * Verify panics exactly for a packet in size and time of which either the proof-of-work test runs
   * off a hash of zeros, which takes a difficulty above 256, or the test is met and the sender's
   * key does not have 32 bytes.
   */
  lemma VerifyPanicsExactly(s: Suite, p: DmailPacket, now: int)
    ensures Verify(s, p, now) in {Err(PowPanic), Err(KeyPanic)} <==>
            && |MarshalPacket(p)| <= MAX_PACKET_SIZE && JudgedInWindow(p.timestamp, now)
            && (|| (p.powDifficulty > 256 && s.sha256(SignableBytes(p) + BigEndian(p.powNonce, 8)) == seq(32, _ => 0))
                || (Pow.Check(s.sha256, SignableBytes(p), p.powNonce, p.powDifficulty) == Pow.Met && |p.senderPubkey| != 32))
  {
    hide MarshalPacket, PacketSecond, Pow.LeadingZeroBits, BigEndian;
    var hash := s.sha256(SignableBytes(p) + BigEndian(p.powNonce, 8));
    if p.powDifficulty <= 256 {
      Pow.CheckIsABound(s.sha256, SignableBytes(p), p.powNonce, p.powDifficulty);
    } else {
      Pow.LeadingZeroBitsBeyondTheHash(hash, p.powDifficulty);
      assert (forall i :: 0 <= i < |hash| ==> hash[i] == 0) <==> hash == seq(32, _ => 0);
    }
  }

  /** The last second of the first day of 1970, and later, up to some 146 billion years on. */
  predicate SaneClock(now: int) {
    MAX_PAST_SKEW - SECOND < now < 0x4000_0000_0000_0000 * SECOND
  }

  predicate InWindow(timestamp: uint64, now: int) {
    now - MAX_PAST_SKEW <= timestamp * SECOND <= now + MAX_FUTURE_SKEW
  }

  /** What Verify decides of the timestamp, through the wrapping conversion. */
  predicate JudgedInWindow(timestamp: uint64, now: int) {
    now - MAX_PAST_SKEW <= PacketSecond(timestamp) * SECOND <= now + MAX_FUTURE_SKEW
  }

  lemma WindowIsExact(timestamp: uint64, now: int)
    requires SaneClock(now)
    ensures JudgedInWindow(timestamp, now) <==> InWindow(timestamp, now)
  {
  }

  /**
   * Over the clocks of 146 billion years before and after 1970, the conversion leaves the verdict on
   * every timestamp alone exactly from the last second of the first day of 1970 on. Before that, a
   * timestamp near 2^64 stands for a second before 1970 and is let in.
   */
  lemma ClocksThatJudgeExactly(now: int)
    requires -0x4000_0000_0000_0000 * SECOND <= now < 0x4000_0000_0000_0000 * SECOND
    ensures (forall timestamp: uint64 :: JudgedInWindow(timestamp, now) <==> InWindow(timestamp, now)) <==> SaneClock(now)
  {
    if SaneClock(now) {
      forall timestamp: uint64
        ensures JudgedInWindow(timestamp, now) <==> InWindow(timestamp, now)
      {
        WindowIsExact(timestamp, now);
      }
    } else {
      var latest := (now + MAX_FUTURE_SKEW) / SECOND;
      var second := if latest < -1 then latest else -1;
      EarlySecond(now, second);
      var timestamp: uint64 := second + 0x1_0000_0000_0000_0000;
      assert JudgedInWindow(timestamp, now) && !InWindow(timestamp, now);
    }
  }

  /** A second before 1970 in the window of an early clock. */
  lemma EarlySecond(now: int, second: int)
    requires -0x4000_0000_0000_0000 * SECOND <= now <= MAX_PAST_SKEW - SECOND
    requires var latest := (now + MAX_FUTURE_SKEW) / SECOND; second == if latest < -1 then latest else -1
    ensures -0x4000_0000_0000_0000 <= second <= -1
    ensures now - MAX_PAST_SKEW <= second * SECOND <= now + MAX_FUTURE_SKEW
    ensures PacketSecond(second + 0x1_0000_0000_0000_0000) == second
  {
    var latest := (now + MAX_FUTURE_SKEW) / SECOND;
    assert latest * SECOND <= now + MAX_FUTURE_SKEW < (latest + 1) * SECOND;
  }

  // ---------- what is accepted ----------

  /** The check passes exactly when the hash of data and nonce is below a bound that the difficulty sets. */
  lemma PuzzleIsMet(sha256: bytes -> Digest, data: bytes, nonce: uint64, difficulty: uint32)
    ensures Pow.Check(sha256, data, nonce, difficulty) == Pow.Met <==>
            difficulty <= 256 && BigEndianValue(sha256(data + BigEndian(nonce, 8))) < Pow2(256 - difficulty)
  {
    hide BigEndianValue, BigEndian, Pow2, Pow.LeadingZeroBits;
    if difficulty <= 256 {
      Pow.CheckIsABound(sha256, data, nonce, difficulty);
    } else {
      Pow.LeadingZeroBitsBeyondTheHash(sha256(data + BigEndian(nonce, 8)), difficulty);
    }
  }

  /**
   * A packet is accepted exactly when it has at most 262144 bytes, its time is at most a day back
   * and an hour ahead, its puzzle is met, and its signature over fields 1 to 7 checks under the
   * 32-byte key it names as its sender.
   */
  lemma AcceptedExactly(s: Suite, p: DmailPacket, now: int)
    ensures Verify(s, p, now) == Ok(()) <==>
            && |MarshalPacket(p)| <= 262144
            && now - 86_400_000_000_000 <= PacketSecond(p.timestamp) * 1_000_000_000 <= now + 3_600_000_000_000
            && p.powDifficulty <= 256
            && BigEndianValue(s.sha256(SignableBytes(p) + BigEndian(p.powNonce, 8))) < Pow2(256 - p.powDifficulty)
            && |p.senderPubkey| == 32
            && s.checkSignature(p.senderPubkey, SignableBytesWithNonce(p), p.signature)
  {
    hide MarshalPacket, BigEndianValue, BigEndian, Pow2, Pow.Check, PacketSecond;
    PuzzleIsMet(s.sha256, SignableBytes(p), p.powNonce, p.powDifficulty);
  }

  /**
   * Each refusal has its own condition, in the order size, future, past, puzzle, signature: the first
   * that fails is reported.
   */
  lemma RefusedExactly(s: Suite, p: DmailPacket, now: int, size: nat)
    ensures var r, time := Verify(s, p, now), PacketSecond(p.timestamp) * 1_000_000_000;
      var hash := s.sha256(SignableBytes(p) + BigEndian(p.powNonce, 8));
      var judged := |MarshalPacket(p)| <= 262144 && now - 86_400_000_000_000 <= time <= now + 3_600_000_000_000;
      var met := p.powDifficulty <= 256 && BigEndianValue(hash) < Pow2(256 - p.powDifficulty);
      && (r == Err(TooLarge(size)) <==> size == |MarshalPacket(p)| && size > 262144)
      && (r == Err(TooFarInFuture) <==> |MarshalPacket(p)| <= 262144 && time > now + 3_600_000_000_000)
      && (r == Err(TooOld) <==> |MarshalPacket(p)| <= 262144 && time < now - 86_400_000_000_000)
      && (r == Err(PowPanic) <==> judged && p.powDifficulty > 256 && hash == seq(32, _ => 0))
      && (r == Err(InvalidPow) <==> judged && !met && !(p.powDifficulty > 256 && hash == seq(32, _ => 0)))
      && (r == Err(KeyPanic) <==> judged && met && |p.senderPubkey| != 32)
      && (r == Err(InvalidSignature) <==>
            judged && met && |p.senderPubkey| == 32 && !s.checkSignature(p.senderPubkey, SignableBytesWithNonce(p), p.signature))
  {
    hide MarshalPacket, BigEndianValue, BigEndian, Pow2, Pow.Check, PacketSecond;
    PuzzleIsMet(s.sha256, SignableBytes(p), p.powNonce, p.powDifficulty);
    PuzzlePanics(s.sha256, SignableBytes(p), p.powNonce, p.powDifficulty);
  }

  lemma PuzzlePanics(sha256: bytes -> Digest, data: bytes, nonce: uint64, difficulty: uint32)
    ensures Pow.Check(sha256, data, nonce, difficulty) == Pow.IndexPanic <==>
            difficulty > 256 && sha256(data + BigEndian(nonce, 8)) == seq(32, _ => 0)
  {
    hide BigEndian, Pow.LeadingZeroBits;
    var hash := sha256(data + BigEndian(nonce, 8));
    if difficulty <= 256 {
      Pow.CheckIsABound(sha256, data, nonce, difficulty);
    } else {
      Pow.LeadingZeroBitsBeyondTheHash(hash, difficulty);
      assert (forall i :: 0 <= i < |hash| ==> hash[i] == 0) <==> hash == seq(32, _ => 0);
    }
  }

  /** What is stamped and what is signed is the packet as it is marshalled without the fields that come later. */
  lemma SignedDataIsThePacket(p: DmailPacket)
    ensures SignableBytes(p) == MarshalPacket(p.(powNonce := 0, signature := [], unknown := []))
    ensures SignableBytesWithNonce(p) == MarshalPacket(p.(signature := [], unknown := []))
  {
    hide MarshalPacket;
  }

  /** For a sane clock the time is the packet's own number of seconds. */
  lemma AcceptedInTime(s: Suite, p: DmailPacket, now: int)
    requires SaneClock(now) && Verify(s, p, now) == Ok(())
    ensures now - 86_400_000_000_000 <= p.timestamp * 1_000_000_000 <= now + 3_600_000_000_000
  {
    hide MarshalPacket, PacketSecond;
    AcceptedExactly(s, p, now);
    WindowIsExact(p.timestamp, now);
  }

  /** No packet is accepted over a signature that does not check under its sender's key, whatever else it says. */
  lemma ForgedPacketIsRefused(s: Suite, p: DmailPacket, now: int)
    requires !s.checkSignature(p.senderPubkey, SignableBytesWithNonce(p), p.signature)
    ensures Verify(s, p, now).Err?
  {
    hide MarshalPacket, BigEndianValue, BigEndian, Pow2, PacketSecond;
    AcceptedExactly(s, p, now);
  }

  /**
   * A signature made for one packet carries over to no other: an accepted packet under the same
   * signed data agrees with it on fields 1 to 7.
   */
  lemma SignatureFitsOnePacket(s: Suite, p: DmailPacket, q: DmailPacket, now: int)
    requires PacketHolds(p) && PacketHolds(q) && Verify(s, p, now) == Ok(()) && SignableBytesWithNonce(p) == SignableBytesWithNonce(q)
    ensures && p.version == q.version && p.recipientPubkey == q.recipientPubkey && p.senderPubkey == q.senderPubkey
            && p.timestamp == q.timestamp && p.powNonce == q.powNonce && p.powDifficulty == q.powDifficulty
            && p.encryptedPayload == q.encryptedPayload
            && s.checkSignature(q.senderPubkey, SignableBytesWithNonce(q), p.signature)
  {
    hide MarshalPacket, BigEndianValue, BigEndian, Pow2, PacketSecond, PacketHolds;
    AcceptedExactly(s, p, now);
    SignedBytesDetermineFields(p, q);
  }

  lemma {:induction false} BuiltParts(s: Suite, d: Draft, sender: KeyPair, recipientPub: bytes, difficulty: uint32)
    requires Built(s, d, sender, recipientPub, difficulty).Ok?
    ensures var p := Built(s, d, sender, recipientPub, difficulty).value;
            && MarshalPayload(PayloadFor(d)).Some?
            && Encrypt(s, MarshalPayload(PayloadFor(d)).value, recipientPub, sender.seed, d.nonce) == Ok(p.encryptedPayload)
            && p == Unstamped(d, sender, recipientPub, difficulty, p.encryptedPayload).(powNonce := p.powNonce, signature := p.signature)
            && Pow.Search(s.sha256, SignableBytes(p), difficulty, 0) == Some(p.powNonce)
            && p.signature == s.sign(sender.seed, SignableBytesWithNonce(p))
  {
    hide MarshalPayload, MarshalPacket, Encrypt, Pow.Search;
  }

  /**
   * What a built packet says: version 1, from the sender to the recipient at the draft's time, under
   * the asked difficulty and the least nonce that meets it, holding the encrypted payload, and signed
   * with the sender's key over fields 1 to 7.
   */
  lemma BuiltPacketSays(s: Suite, d: Draft, sender: KeyPair, recipientPub: bytes, difficulty: uint32, p: DmailPacket)
    requires Built(s, d, sender, recipientPub, difficulty) == Ok(p)
    ensures p.version == 1 && p.recipientPubkey == recipientPub && p.senderPubkey == sender.publicKey
    ensures p.timestamp == d.timestamp && p.powDifficulty == difficulty && p.unknown == []
    ensures MarshalPayload(Payload(d.messageId, d.subject, d.body, d.replyToId, [])).Some? && d.nonce.Some?
    ensures Encrypt(s, MarshalPayload(Payload(d.messageId, d.subject, d.body, d.replyToId, [])).value, recipientPub, sender.seed, d.nonce)
            == Ok(p.encryptedPayload)
    ensures p.signature == s.sign(sender.seed, SignableBytesWithNonce(p))
    ensures p.powNonce == 0 || Pow.Check(s.sha256, SignableBytes(p), p.powNonce, difficulty) == Pow.Met
  {
    hide MarshalPayload, MarshalPacket, Pow.Search, Pow.Check, PubToCurve, CurvePrivate;
    BuiltParts(s, d, sender, recipientPub, difficulty);
    Pow.ComputeIsLeast(s.sha256, SignableBytes(p), difficulty);
  }

  /**
   * A built packet is accepted at time `now` exactly when it fits in 256 KB, its timestamp is at
   * most a day old and an hour ahead, and the puzzle had a solution.
   */
  lemma BuildThenVerify(s: Suite, d: Draft, sender: KeyPair, recipientPub: bytes, difficulty: uint32, now: int)
    requires Laws(s) && sender.publicKey == s.publicKey(sender.seed) && SaneClock(now)
    requires Built(s, d, sender, recipientPub, difficulty).Ok?
    ensures var p := Built(s, d, sender, recipientPub, difficulty).value;
            Verify(s, p, now) == Ok(()) <==>
            && |MarshalPacket(p)| <= MAX_PACKET_SIZE
            && InWindow(d.timestamp, now)
            && Pow.Solvable(s.sha256, SignableBytes(p), difficulty)
  {
    hide MarshalPacket, Encrypt, MarshalPayload, Pow.Search, Pow.Check, PacketSecond;
    BuiltParts(s, d, sender, recipientPub, difficulty);
    var p := Built(s, d, sender, recipientPub, difficulty).value;
    WindowIsExact(d.timestamp, now);
    Pow.ComputeIsLeast(s.sha256, SignableBytes(p), difficulty);
    assert s.checkSignature(p.senderPubkey, SignableBytesWithNonce(p), p.signature);
    if Pow.Check(s.sha256, SignableBytes(p), p.powNonce, difficulty) == Pow.Met {
      Pow.SearchEnds(s.sha256, SignableBytes(p), difficulty, 0);
    }
  }

  // ---------- opening ----------

  datatype OpenError = BadPacket | DecryptFailed(cause: CryptoError) | BadPayloadBytes

  function Open(s: Suite, p: DmailPacket, recipientSeed: Key): Result<Payload, OpenError> {
    match Decrypt(s, p.encryptedPayload, p.senderPubkey, recipientSeed)
    case Err(e) => Err(DecryptFailed(e))
    case Ok(plain) =>
      match UnmarshalPayload(plain)
      case None => Err(BadPayloadBytes)
      case Some(payload) => Ok(payload)
  }

  function OpenRaw(s: Suite, data: bytes, recipientSeed: Key): Result<Payload, OpenError> {
    match UnmarshalPacket(data)
    case None => Err(BadPacket)
    case Some(p) => Open(s, p, recipientSeed)
  }

  /** UnmarshalAndVerify; None stands for bytes that are not a packet. */
  function ReadAndVerify(s: Suite, data: bytes, now: int): Result<DmailPacket, Option<VerifyError>> {
    match UnmarshalPacket(data)
    case None => Err(None)
    case Some(p) =>
      match Verify(s, p, now)
      case Err(e) => Err(Some(e))
      case Ok(_) => Ok(p)
  }

  /** A user opens raw bytes exactly when they are a packet whose box decrypts, under its sender's key, to a payload. */
  lemma OpensExactly(s: Suite, data: bytes, seed: Key, payload: Payload)
    ensures OpenRaw(s, data, seed) == Ok(payload) <==>
            && UnmarshalPacket(data).Some?
            && var p := UnmarshalPacket(data).value;
               && Decrypt(s, p.encryptedPayload, p.senderPubkey, seed).Ok?
               && UnmarshalPayload(Decrypt(s, p.encryptedPayload, p.senderPubkey, seed).value) == Some(payload)
  {
    hide UnmarshalPacket, UnmarshalPayload, Decrypt;
  }

  /** Bytes are taken for a packet exactly when they are one and it is accepted. */
  lemma ReadExactly(s: Suite, data: bytes, now: int, p: DmailPacket)
    ensures ReadAndVerify(s, data, now) == Ok(p) <==> UnmarshalPacket(data) == Some(p) && Verify(s, p, now) == Ok(())
    ensures ReadAndVerify(s, data, now) == Ok(p) ==>
              |p.senderPubkey| == 32 && s.checkSignature(p.senderPubkey, SignableBytesWithNonce(p), p.signature)
  {
    hide MarshalPacket, UnmarshalPacket, Pow.Check, BigEndianValue, BigEndian, Pow2, PacketSecond;
    AcceptedExactly(s, p, now);
  }

  /** The recipient of a built packet opens it to exactly the payload that was sent. */
  lemma BuiltPacketOpens(s: Suite, d: Draft, sender: KeyPair, recipient: Key, difficulty: uint32)
    requires Laws(s) && sender.publicKey == s.publicKey(sender.seed)
    requires PayloadHolds(PayloadFor(d))
    requires Built(s, d, sender, s.publicKey(recipient), difficulty).Ok?
    ensures Open(s, Built(s, d, sender, s.publicKey(recipient), difficulty).value, recipient) == Ok(PayloadFor(d))
  {
    hide MarshalPacket, MarshalPayload, UnmarshalPayload, Encrypt, Decrypt, Pow.Search, PayloadHolds, Laws;
    BuiltParts(s, d, sender, s.publicKey(recipient), difficulty);
    PayloadRoundTrip(PayloadFor(d));
    NonceWasDrawn(s, MarshalPayload(PayloadFor(d)).value, s.publicKey(recipient), sender.seed, d.nonce);
    DecryptOfEncrypt(s, MarshalPayload(PayloadFor(d)).value, sender.seed, recipient, d.nonce.value);
  }

  /** End to end: the recipient of a built packet's bytes reads exactly the payload that was sent. */
  lemma BuildThenOpen(s: Suite, d: Draft, sender: KeyPair, recipient: Key, difficulty: uint32)
    requires Laws(s) && sender.publicKey == s.publicKey(sender.seed)
    requires PayloadHolds(PayloadFor(d))
    requires Built(s, d, sender, s.publicKey(recipient), difficulty).Ok?
    requires |Built(s, d, sender, s.publicKey(recipient), difficulty).value.encryptedPayload| < Wire.MAX_LENGTH
    ensures var p := Built(s, d, sender, s.publicKey(recipient), difficulty).value;
            OpenRaw(s, MarshalPacket(p), recipient) == Ok(PayloadFor(d))
  {
    hide MarshalPacket, UnmarshalPacket, MarshalPayload, Encrypt, Open, Pow.Search, PayloadHolds, Laws;
    BuiltParts(s, d, sender, s.publicKey(recipient), difficulty);
    BuiltPacketOpens(s, d, sender, recipient, difficulty);
    PacketRoundTrip(Built(s, d, sender, s.publicKey(recipient), difficulty).value);
  }

  lemma NonceWasDrawn(s: Suite, plain: bytes, pub: bytes, seed: Key, nonce: Option<Nonce>)
    requires Encrypt(s, plain, pub, seed, nonce).Ok?
    ensures nonce.Some?
  {
  }

  // ---------- when a packet can be built, and what its sender can open ----------

  /** Up to 256 bits of difficulty a packet is built exactly when its text is UTF-8, the key is a point and a nonce was drawn. */
  lemma BuildsExactly(s: Suite, d: Draft, sender: KeyPair, recipientPub: bytes, difficulty: uint32)
    requires difficulty <= 256
    ensures Built(s, d, sender, recipientPub, difficulty).Ok? <==>
            MarshalPayload(PayloadFor(d)).Some? && PubToCurve(s, recipientPub).Some? && d.nonce.Some?
  {
    hide MarshalPayload, MarshalPacket, Pow.Search, CurvePrivate;
    if MarshalPayload(PayloadFor(d)).Some? {
      var e := Encrypt(s, MarshalPayload(PayloadFor(d)).value, recipientPub, sender.seed, d.nonce);
      if e.Ok? {
        Pow.ComputeIsLeast(s.sha256, SignableBytes(Unstamped(d, sender, recipientPub, difficulty, e.value)), difficulty);
      }
    }
  }

  /** The box key between the holder of a seed and a public key. */
  function BoxKey(s: Suite, seed: Key, pub: bytes): Option<Key> {
    match PubToCurve(s, pub)
    case None => None
    case Some(k) => Some(s.sharedKey(k, CurvePrivate(s, seed)))
  }

  /** The sender who opens his own packet tries his own box key on a box sealed with the recipient's. */
  lemma SenderDecrypts(s: Suite, d: Draft, sender: KeyPair, recipientPub: bytes, difficulty: uint32)
    requires Laws(s) && sender.publicKey == s.publicKey(sender.seed)
    requires Built(s, d, sender, recipientPub, difficulty).Ok?
    ensures MarshalPayload(PayloadFor(d)).Some? && d.nonce.Some?
    ensures BoxKey(s, sender.seed, sender.publicKey).Some? && BoxKey(s, sender.seed, recipientPub).Some?
    ensures var p, plain, n := Built(s, d, sender, recipientPub, difficulty).value, MarshalPayload(PayloadFor(d)).value, d.nonce.value;
      var own, theirs := BoxKey(s, sender.seed, sender.publicKey).value, BoxKey(s, sender.seed, recipientPub).value;
      && p.senderPubkey == sender.publicKey
      && Decrypt(s, p.encryptedPayload, p.senderPubkey, sender.seed) ==
         match s.open(own, n, s.seal(theirs, n, plain))
         case None => Err(NotAuthentic)
         case Some(text) => Ok(text)
  {
    hide MarshalPayload, MarshalPacket, Pow.Search, CurvePrivate;
    BuiltParts(s, d, sender, recipientPub, difficulty);
    var p, plain, n := Built(s, d, sender, recipientPub, difficulty).value, MarshalPayload(PayloadFor(d)).value, d.nonce.value;
    var sealed := s.seal(BoxKey(s, sender.seed, recipientPub).value, n, plain);
    assert |sealed| == |plain| + BOX_OVERHEAD;
    assert p.encryptedPayload == n + sealed;
    assert p.encryptedPayload[..NONCE_SIZE] == n && p.encryptedPayload[NONCE_SIZE..] == sealed;
  }

  // ---------- size ----------

  /** Bytes of subject, body and reply id that always fit, whatever the difficulty and the clock. */
  const SAFE_TEXT_SIZE := 261886

  lemma ChunkSize(num: nat, d: bytes)
    requires 1 <= num <= 15 && |d| < 0x20_0000
    ensures |Wire.EncodeField(num, Wire.Data(d))| <= |d| + (if |d| < 0x80 then 2 else 4)
  {
    Varint.EncodedSize(num * 8 + 2);
    Varint.EncodedSize(|d|);
  }

  lemma NumberSize(num: nat, n: uint64)
    requires 1 <= num <= 15
    ensures |Wire.EncodeField(num, Wire.Num(n))| <= 1 + (if n < 0x80 then 1 else if n < 0x1_0000_0000 then 5 else 10)
  {
    Varint.EncodedSize(num * 8);
    Varint.EncodedSize(n);
  }

  lemma PayloadSize(d: Draft)
    requires |d.messageId| == 36 && |d.subject| + |d.body| + |d.replyToId| <= SAFE_TEXT_SIZE
    requires MarshalPayload(PayloadFor(d)).Some?
    ensures |MarshalPayload(PayloadFor(d)).value| <= 38 + 12 + |d.subject| + |d.body| + |d.replyToId|
  {
    ChunkSize(1, d.messageId);
    ChunkSize(2, d.subject);
    ChunkSize(3, d.body);
    ChunkSize(4, d.replyToId);
    FourFields(PayloadRecord(PayloadFor(d)).vals);
  }

  lemma PacketSize(p: DmailPacket)
    requires p.version == 1 && |p.recipientPubkey| == 32 && |p.senderPubkey| == 32 && |p.signature| == 64
    requires |p.encryptedPayload| < 0x20_0000 && p.unknown == []
    ensures |MarshalPacket(p)| <= 168 + |p.encryptedPayload|
  {
    var vals := PacketRecord(p).vals;
    NumberSize(1, p.version);
    ChunkSize(2, p.recipientPubkey);
    ChunkSize(3, p.senderPubkey);
    NumberSize(4, p.timestamp);
    NumberSize(5, p.powNonce);
    NumberSize(6, p.powDifficulty);
    ChunkSize(7, p.encryptedPayload);
    ChunkSize(8, p.signature);
    EightFields(vals);
  }

  /** Text up to the safe size fits through both layers: payload fields, box, packet fields. */
  lemma {:induction false} SafeTextFits(s: Suite, d: Draft, sender: KeyPair, recipientPub: bytes, difficulty: uint32)
    requires Laws(s) && |d.messageId| == 36
    requires |d.subject| + |d.body| + |d.replyToId| <= SAFE_TEXT_SIZE
    requires Built(s, d, sender, recipientPub, difficulty).Ok?
    ensures |MarshalPacket(Built(s, d, sender, recipientPub, difficulty).value)| <= MAX_PACKET_SIZE
  {
    hide MarshalPacket, MarshalPayload, Pow.Search;
    BuiltParts(s, d, sender, recipientPub, difficulty);
    PayloadSize(d);
    PacketSize(Built(s, d, sender, recipientPub, difficulty).value);
  }
}
