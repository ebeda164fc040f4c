/** proto/dmail.proto: the three protocol messages and their codecs. */
module Messages {
  import opened Bytes
  import opened Wire
  import Utf8

  datatype DmailPacket = DmailPacket(
    version: uint32, recipientPubkey: bytes, senderPubkey: bytes, timestamp: uint64,
    powNonce: uint64, powDifficulty: uint32, encryptedPayload: bytes, signature: bytes, unknown: bytes)

  datatype Payload = Payload(messageId: bytes, subject: bytes, body: bytes, replyToId: bytes, unknown: bytes)

  datatype NameRecord = NameRecord(
    name: bytes, pubkey: bytes, timestamp: uint64, powNonce: uint64, powDifficulty: uint32,
    signature: bytes, unknown: bytes)

  const PACKET_FIELDS: seq<Kind> := [U32, Blob, Blob, U64, U64, U32, Blob, Blob]
  const PAYLOAD_FIELDS: seq<Kind> := [Str, Str, Str, Str]
  const NAME_FIELDS: seq<Kind> := [Str, Blob, U64, U64, U32, Blob]

  function PacketRecord(p: DmailPacket): (r: Record)
    ensures |r.vals| == 8
  {
    Record([Num(p.version), Data(p.recipientPubkey), Data(p.senderPubkey), Num(p.timestamp), Num(p.powNonce),
            Num(p.powDifficulty), Data(p.encryptedPayload), Data(p.signature)], p.unknown)
  }

  function PayloadRecord(p: Payload): (r: Record)
    ensures |r.vals| == 4
  {
    Record([Data(p.messageId), Data(p.subject), Data(p.body), Data(p.replyToId)], p.unknown)
  }

  function NameRecordRecord(n: NameRecord): (r: Record)
    ensures |r.vals| == 6
  {
    Record([Data(n.name), Data(n.pubkey), Num(n.timestamp), Num(n.powNonce), Num(n.powDifficulty),
            Data(n.signature)], n.unknown)
  }

  function AsU32(v: Val): uint32 {
    if v.Num? then v.n % 0x1_0000_0000 else 0
  }

  function AsU64(v: Val): uint64 {
    if v.Num? then v.n % 0x1_0000_0000_0000_0000 else 0
  }

  function AsBytes(v: Val): bytes {
    if v.Data? then v.d else []
  }

  function PacketOf(r: Record): DmailPacket
    requires |r.vals| == 8
  {
    DmailPacket(AsU32(r.vals[0]), AsBytes(r.vals[1]), AsBytes(r.vals[2]), AsU64(r.vals[3]), AsU64(r.vals[4]),
                AsU32(r.vals[5]), AsBytes(r.vals[6]), AsBytes(r.vals[7]), r.unknown)
  }

  function PayloadOf(r: Record): Payload
    requires |r.vals| == 4
  {
    Payload(AsBytes(r.vals[0]), AsBytes(r.vals[1]), AsBytes(r.vals[2]), AsBytes(r.vals[3]), r.unknown)
  }

  function NameRecordOf(r: Record): NameRecord
    requires |r.vals| == 6
  {
    NameRecord(AsBytes(r.vals[0]), AsBytes(r.vals[1]), AsU64(r.vals[2]), AsU64(r.vals[3]), AsU32(r.vals[4]),
               AsBytes(r.vals[5]), r.unknown)
  }

  /** A packet has no string field, so marshalling it cannot fail. */
  function MarshalPacket(p: DmailPacket): bytes {
    assert forall i :: 0 <= i < 8 ==> !PACKET_FIELDS[i].Str?;
    Wire.Marshal(PACKET_FIELDS, PacketRecord(p)).value
  }

  function UnmarshalPacket(b: bytes): Option<DmailPacket> {
    match Wire.Unmarshal(PACKET_FIELDS, b)
    case None => None
    case Some(r) => Some(PacketOf(r))
  }

  function MarshalPayload(p: Payload): Option<bytes> {
    Wire.Marshal(PAYLOAD_FIELDS, PayloadRecord(p))
  }

  function UnmarshalPayload(b: bytes): Option<Payload> {
    match Wire.Unmarshal(PAYLOAD_FIELDS, b)
    case None => None
    case Some(r) => Some(PayloadOf(r))
  }

  function MarshalName(n: NameRecord): Option<bytes> {
    Wire.Marshal(NAME_FIELDS, NameRecordRecord(n))
  }

  function UnmarshalName(b: bytes): Option<NameRecord> {
    match Wire.Unmarshal(NAME_FIELDS, b)
    case None => None
    case Some(r) => Some(NameRecordOf(r))
  }

  // ---------- what a Go message can hold ----------

  ghost predicate PacketHolds(p: DmailPacket) {
    && |p.recipientPubkey| < MAX_LENGTH && |p.senderPubkey| < MAX_LENGTH
    && |p.encryptedPayload| < MAX_LENGTH && |p.signature| < MAX_LENGTH
    && OnlyUnknown(PACKET_FIELDS, p.unknown)
  }

  ghost predicate TextHolds(s: bytes) {
    |s| < MAX_LENGTH && ValidUtf8(s)
  }

  ghost predicate PayloadHolds(p: Payload) {
    && TextHolds(p.messageId) && TextHolds(p.subject) && TextHolds(p.body) && TextHolds(p.replyToId)
    && OnlyUnknown(PAYLOAD_FIELDS, p.unknown)
  }

  ghost predicate NameRecordHolds(n: NameRecord) {
    && TextHolds(n.name) && |n.pubkey| < MAX_LENGTH && |n.signature| < MAX_LENGTH
    && OnlyUnknown(NAME_FIELDS, n.unknown)
  }

  // ---------- round trips ----------

  lemma PacketRoundTrip(p: DmailPacket)
    requires PacketHolds(p)
    ensures UnmarshalPacket(MarshalPacket(p)) == Some(p)
  {
    hide Wire.Unmarshal, Wire.Marshal, OnlyUnknown;
    Wire.RoundTrip(PACKET_FIELDS, PacketRecord(p));
  }

  /** A payload is marshalled exactly when its four strings are UTF-8, and then it is read back unchanged. */
  lemma PayloadRoundTrip(p: Payload)
    requires PayloadHolds(p)
    ensures MarshalPayload(p).Some?
    ensures UnmarshalPayload(MarshalPayload(p).value) == Some(p)
  {
    hide Wire.Unmarshal, Wire.Marshal, OnlyUnknown, ValidUtf8;
    Wire.RoundTrip(PAYLOAD_FIELDS, PayloadRecord(p));
  }

  lemma NameRecordRoundTrip(n: NameRecord)
    requires NameRecordHolds(n)
    ensures MarshalName(n).Some?
    ensures UnmarshalName(MarshalName(n).value) == Some(n)
  {
    hide Wire.Unmarshal, Wire.Marshal, OnlyUnknown, ValidUtf8;
    Wire.RoundTrip(NAME_FIELDS, NameRecordRecord(n));
  }

  /** Marshalling fails exactly for a string that is not UTF-8. */
  lemma MarshalPayloadFails(p: Payload)
    ensures MarshalPayload(p).None? <==>
            !(ValidUtf8(p.messageId) && ValidUtf8(p.subject) && ValidUtf8(p.body) && ValidUtf8(p.replyToId))
  {
    hide ValidUtf8, EncodeFrom;
    var r := PayloadRecord(p);
    assert r.vals[0].d == p.messageId && r.vals[1].d == p.subject && r.vals[2].d == p.body && r.vals[3].d == p.replyToId;
    assert forall i :: 0 <= i < 4 ==> PAYLOAD_FIELDS[i].Str?;
  }

  /** Whatever bytes a packet was read from, marshalling it again gives bytes that read as the same packet. */
  lemma PacketReencodes(b: bytes)
    requires |b| < MAX_LENGTH && UnmarshalPacket(b).Some?
    ensures UnmarshalPacket(MarshalPacket(UnmarshalPacket(b).value)) == UnmarshalPacket(b)
  {
    hide Wire.Unmarshal, Wire.Marshal, OnlyUnknown;
    Wire.UnmarshalIsWellFormed(PACKET_FIELDS, b);
    var r := Wire.Unmarshal(PACKET_FIELDS, b).value;
    assert forall i :: 0 <= i < 8 ==> Fits(PACKET_FIELDS[i], r.vals[i]);
    assert Fits(PACKET_FIELDS[0], r.vals[0]) && Fits(PACKET_FIELDS[1], r.vals[1]) && Fits(PACKET_FIELDS[2], r.vals[2]);
    assert Fits(PACKET_FIELDS[3], r.vals[3]) && Fits(PACKET_FIELDS[4], r.vals[4]) && Fits(PACKET_FIELDS[5], r.vals[5]);
    assert Fits(PACKET_FIELDS[6], r.vals[6]) && Fits(PACKET_FIELDS[7], r.vals[7]);
    PacketRoundTrip(PacketOf(r));
  }

  // ---------- the messages field by field ----------

  /** One field more has been written. */
  lemma FieldMore(vals: seq<Val>, i: nat, s: bytes)
    requires i < |vals| && EncodeFrom(vals, 0) == s + EncodeFrom(vals, i)
    ensures EncodeFrom(vals, 0) == s + EncodeField(i + 1, vals[i]) + EncodeFrom(vals, i + 1)
  {
    hide EncodeField;
    assert EncodeFrom(vals, i) == EncodeField(i + 1, vals[i]) + EncodeFrom(vals, i + 1);
    Regroup(s, EncodeField(i + 1, vals[i]), EncodeFrom(vals, i + 1));
  }

  lemma Regroup(a: bytes, b: bytes, c: bytes)
    ensures a + (b + c) == a + b + c
  {
  }

  lemma FirstFour(vals: seq<Val>) returns (s: bytes)
    requires |vals| >= 4
    ensures s == EncodeField(1, vals[0]) + EncodeField(2, vals[1]) + EncodeField(3, vals[2]) + EncodeField(4, vals[3])
    ensures EncodeFrom(vals, 0) == s + EncodeFrom(vals, 4)
  {
    s := EncodeField(1, vals[0]);
    assert EncodeFrom(vals, 0) == s + EncodeFrom(vals, 1);
    hide EncodeField, EncodeFrom;
    FieldMore(vals, 1, s);
    s := s + EncodeField(2, vals[1]);
    FieldMore(vals, 2, s);
    s := s + EncodeField(3, vals[2]);
    FieldMore(vals, 3, s);
    s := s + EncodeField(4, vals[3]);
  }

  lemma NothingLeft(vals: seq<Val>, s: bytes)
    requires EncodeFrom(vals, 0) == s + EncodeFrom(vals, |vals|)
    ensures EncodeFrom(vals, 0) == s
  {
    assert EncodeFrom(vals, |vals|) == [];
  }

  lemma FourFields(vals: seq<Val>)
    requires |vals| == 4
    ensures EncodeFrom(vals, 0) == EncodeField(1, vals[0]) + EncodeField(2, vals[1]) + EncodeField(3, vals[2]) + EncodeField(4, vals[3])
  {
    hide EncodeField, EncodeFrom;
    var s := FirstFour(vals);
    NothingLeft(vals, s);
  }

  lemma SixFields(vals: seq<Val>)
    requires |vals| == 6
    ensures EncodeFrom(vals, 0) == EncodeField(1, vals[0]) + EncodeField(2, vals[1]) + EncodeField(3, vals[2])
                                   + EncodeField(4, vals[3]) + EncodeField(5, vals[4]) + EncodeField(6, vals[5])
  {
    hide EncodeField, EncodeFrom;
    var s := FirstFour(vals);
    FieldMore(vals, 4, s);
    s := s + EncodeField(5, vals[4]);
    FieldMore(vals, 5, s);
    s := s + EncodeField(6, vals[5]);
    NothingLeft(vals, s);
  }

  lemma EightFields(vals: seq<Val>)
    requires |vals| == 8
    ensures EncodeFrom(vals, 0) ==
            EncodeField(1, vals[0]) + EncodeField(2, vals[1]) + EncodeField(3, vals[2]) + EncodeField(4, vals[3])
            + EncodeField(5, vals[4]) + EncodeField(6, vals[5]) + EncodeField(7, vals[6]) + EncodeField(8, vals[7])
  {
    hide EncodeField, EncodeFrom;
    var s := FirstFour(vals);
    FieldMore(vals, 4, s);
    s := s + EncodeField(5, vals[4]);
    FieldMore(vals, 5, s);
    s := s + EncodeField(6, vals[5]);
    FieldMore(vals, 6, s);
    s := s + EncodeField(7, vals[6]);
    FieldMore(vals, 7, s);
    s := s + EncodeField(8, vals[7]);
    NothingLeft(vals, s);
  }

  /** A packet on the wire: its fields in the order and under the numbers of proto/dmail.proto. */
  lemma PacketFields(p: DmailPacket)
    ensures MarshalPacket(p) ==
            EncodeField(1, Num(p.version)) + EncodeField(2, Data(p.recipientPubkey)) + EncodeField(3, Data(p.senderPubkey))
            + EncodeField(4, Num(p.timestamp)) + EncodeField(5, Num(p.powNonce)) + EncodeField(6, Num(p.powDifficulty))
            + EncodeField(7, Data(p.encryptedPayload)) + EncodeField(8, Data(p.signature)) + p.unknown
  {
    hide EncodeField, EncodeFrom;
    EightFields(PacketRecord(p).vals);
    assert forall i :: 0 <= i < 8 ==> !PACKET_FIELDS[i].Str?;
  }

  /** A payload is four strings, and it is marshalled exactly when each of them is text. */
  lemma PayloadFields(p: Payload)
    ensures MarshalPayload(p).Some? <==>
            Utf8.IsText(p.messageId) && Utf8.IsText(p.subject) && Utf8.IsText(p.body) && Utf8.IsText(p.replyToId)
    ensures MarshalPayload(p).Some? ==>
              (MarshalPayload(p).value ==
               EncodeField(1, Data(p.messageId)) + EncodeField(2, Data(p.subject)) + EncodeField(3, Data(p.body))
               + EncodeField(4, Data(p.replyToId)) + p.unknown)
  {
    hide EncodeField, EncodeFrom, ValidUtf8, Utf8.IsText;
    MarshalPayloadFails(p);
    TextOfFour(p);
    FourFields(PayloadRecord(p).vals);
  }

  lemma TextOfFour(p: Payload)
    ensures ValidUtf8(p.messageId) <==> Utf8.IsText(p.messageId)
    ensures ValidUtf8(p.subject) <==> Utf8.IsText(p.subject)
    ensures ValidUtf8(p.body) <==> Utf8.IsText(p.body)
    ensures ValidUtf8(p.replyToId) <==> Utf8.IsText(p.replyToId)
  {
    Utf8.ValidUtf8IsText(p.messageId);
    Utf8.ValidUtf8IsText(p.subject);
    Utf8.ValidUtf8IsText(p.body);
    Utf8.ValidUtf8IsText(p.replyToId);
  }

  /** Every payload of text is read back unchanged. */
  lemma TextPayloadRoundTrip(p: Payload)
    requires Utf8.IsText(p.messageId) && Utf8.IsText(p.subject) && Utf8.IsText(p.body) && Utf8.IsText(p.replyToId)
    requires |p.messageId| < MAX_LENGTH && |p.subject| < MAX_LENGTH && |p.body| < MAX_LENGTH && |p.replyToId| < MAX_LENGTH
    requires OnlyUnknown(PAYLOAD_FIELDS, p.unknown)
    ensures MarshalPayload(p).Some? && UnmarshalPayload(MarshalPayload(p).value) == Some(p)
  {
    hide Utf8.IsText, ValidUtf8, MarshalPayload, UnmarshalPayload, OnlyUnknown;
    TextOfFour(p);
    PayloadRoundTrip(p);
  }

  /** A name record on the wire: its name is text. */
  lemma NameRecordFields(n: NameRecord)
    ensures MarshalName(n).Some? <==> Utf8.IsText(n.name)
    ensures MarshalName(n).Some? ==>
              (MarshalName(n).value ==
               EncodeField(1, Data(n.name)) + EncodeField(2, Data(n.pubkey)) + EncodeField(3, Num(n.timestamp))
               + EncodeField(4, Num(n.powNonce)) + EncodeField(5, Num(n.powDifficulty)) + EncodeField(6, Data(n.signature))
               + n.unknown)
  {
    NameIsText(n);
    hide EncodeField, EncodeFrom, ValidUtf8, Utf8.IsText;
    SixFields(NameRecordRecord(n).vals);
  }

  lemma NameIsText(n: NameRecord)
    ensures MarshalName(n).Some? <==> Utf8.IsText(n.name)
  {
    hide EncodeField, EncodeFrom, ValidUtf8, Utf8.IsText;
    Utf8.ValidUtf8IsText(n.name);
    assert NAME_FIELDS[0].Str? && NameRecordRecord(n).vals[0] == Data(n.name) && forall i :: 1 <= i < 6 ==> !NAME_FIELDS[i].Str?;
  }
}
