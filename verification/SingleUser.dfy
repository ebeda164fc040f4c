/** pkg/daemon/daemon.go: the daemon of a single user, which polls for packets and keeps sent copies. */
module SingleUser {
  import opened Bytes
  import opened Messages
  import opened Crypto
  import opened Tables
  import opened Wire
  import Address
  import Packet
  import Pow
  import S = Store

  /** The daemon's key pair and the primitives it uses. */
  datatype Owner = Owner(suite: Suite, keys: KeyPair)

  /** What the user asks to send; `clock` is read when the copy is stored without its payload. */
  datatype Outgoing = Outgoing(draft: Packet.Draft, recipient: string, clock: int)

  datatype Op = Poll(pkt: DmailPacket) | Read(id: string) | Delete(id: string) | Send(out: Outgoing)

  function Received(o: Owner, pkt: DmailPacket, payload: Payload): Message {
    Message(Text(payload.messageId), "inbox", Address.Of(o.suite.sha256, pkt.senderPubkey),
            Address.Of(o.suite.sha256, pkt.recipientPubkey), Text(payload.subject), Text(payload.body),
            Packet.Int64(pkt.timestamp), false, "", "", "")
  }

  /** doPoll: a packet that opens is stored unless its message id is already there. */
  function Polled(o: Owner, db: Db, pkt: DmailPacket): Db {
    match Packet.Open(o.suite, pkt, o.keys.seed)
    case Err(_) => db
    case Ok(payload) =>
      if Text(payload.messageId) in db.messages then db else Upsert(db, Filled(Received(o, pkt, payload)))
  }

  /** The copy kept of a sent message: with the payload's id if the sender can open the packet, else under the subject. */
  function SentCopy(o: Owner, out: Outgoing): Option<Message> {
    match Address.Parse(o.suite.sha256, out.recipient)
    case Err(_) => None
    case Ok(recipientPub) =>
      match Packet.Built(o.suite, out.draft, o.keys, recipientPub, Pow.DEFAULT_DIFFICULTY)
      case Err(_) => None
      case Ok(pkt) =>
        var sender := Address.Of(o.suite.sha256, o.keys.publicKey);
        match Packet.Open(o.suite, pkt, o.keys.seed)
        case Err(_) => Some(Message(Text(out.draft.subject), "sent", sender, out.recipient, Text(out.draft.subject),
                                    Text(out.draft.body), out.clock, true, "", "", ""))
        case Ok(payload) => Some(Message(Text(payload.messageId), "sent", sender, out.recipient, Text(payload.subject),
                                         Text(payload.body), Packet.Int64(pkt.timestamp), true, "", "", ""))
  }

  function Sent(o: Owner, db: Db, out: Outgoing): Db {
    match SentCopy(o, out)
    case None => db
    case Some(m) => Upsert(db, Filled(m))
  }

  function Apply(o: Owner, db: Db, op: Op): Db {
    match op
    case Poll(pkt) => Polled(o, db, pkt)
    case Read(id) => SetRead(db, id)
    case Delete(id) => Trash(db, id)
    case Send(out) => Sent(o, db, out)
  }

  function Run(o: Owner, db: Db, ops: seq<Op>): Db {
    if ops == [] then db else Apply(o, Run(o, db, ops[..|ops| - 1]), ops[|ops| - 1])
  }

  // ---------- what a run keeps ----------

  /** The same row, with the read flag only ever set and the folder only ever turned to trash. */
  predicate Evolves(r: Row, r': Row) {
    && r'.rowid == r.rowid
    && r'.msg == r.msg.(isRead := r'.msg.isRead, folder := r'.msg.folder)
    && (r.msg.isRead ==> r'.msg.isRead)
    && (r'.msg.folder == r.msg.folder || r'.msg.folder == "trash")
  }

  predicate Overwrites(o: Owner, op: Op, k: string) {
    op.Send? && SentCopy(o, op.out).Some? && SentCopy(o, op.out).value.id == k
  }

  /** One operation leaves a stored row to evolve exactly when it is not a send that reuses its id. */
  lemma StepEvolves(o: Owner, db: Db, op: Op, k: string)
    requires Valid(db) && k in db.messages
    ensures Valid(Apply(o, db, op)) && k in Apply(o, db, op).messages
    ensures Evolves(db.messages[k], Apply(o, db, op).messages[k]) <==> !Overwrites(o, op, k)
  {
    hide SentCopy, Valid, Evolves, Polled, SetRead, Trash, Upsert;
    match op {
      case Poll(pkt) =>
        PolledIsValid(o, db, pkt);
        PolledKeepsRows(o, db, pkt, k);
      case Read(id) =>
        SetReadIsValid(db, id);
        FlagsEvolve(db, id, k);
      case Delete(id) =>
        TrashIsValid(db, id);
        FlagsEvolve(db, id, k);
      case Send(out) =>
        SentIsValid(o, db, out);
        match SentCopy(o, out) {
          case None => RowEvolvesToItself(db.messages[k]);
          case Some(m) => UpsertEvolves(db, Filled(m), k);
        }
    }
  }

  lemma RowEvolvesToItself(r: Row)
    ensures Evolves(r, r)
  {
  }

  lemma FlagsEvolve(db: Db, id: string, k: string)
    requires Valid(db) && k in db.messages
    ensures k in SetRead(db, id).messages && Evolves(db.messages[k], SetRead(db, id).messages[k])
    ensures k in Trash(db, id).messages && Evolves(db.messages[k], Trash(db, id).messages[k])
  {
  }

  lemma UpsertEvolves(db: Db, m: Message, k: string)
    requires Valid(db) && k in db.messages
    ensures k in Upsert(db, m).messages
    ensures Evolves(db.messages[k], Upsert(db, m).messages[k]) <==> m.id != k
  {
  }

  lemma PolledKeepsRows(o: Owner, db: Db, pkt: DmailPacket, k: string)
    requires Valid(db) && k in db.messages
    ensures k in Polled(o, db, pkt).messages && Evolves(db.messages[k], Polled(o, db, pkt).messages[k])
  {
    hide Packet.Open, Valid;
  }

  lemma {:induction false} PolledIsValid(o: Owner, db: Db, pkt: DmailPacket)
    requires Valid(db)
    ensures Valid(Polled(o, db, pkt))
  {
    hide Valid, Packet.Open, Upsert;
    match Packet.Open(o.suite, pkt, o.keys.seed) {
      case Err(_) =>
      case Ok(payload) => UpsertIsValid(db, Filled(Received(o, pkt, payload)));
    }
  }

  lemma SentIsValid(o: Owner, db: Db, out: Outgoing)
    requires Valid(db)
    ensures Valid(Sent(o, db, out))
  {
    hide Valid, SentCopy, Upsert;
    match SentCopy(o, out) {
      case None =>
      case Some(m) => UpsertIsValid(db, Filled(m));
    }
  }

  lemma ApplyIsValid(o: Owner, db: Db, op: Op)
    requires Valid(db)
    ensures Valid(Apply(o, db, op))
  {
    hide Valid, Polled, Sent, SetRead, Trash;
    match op {
      case Poll(pkt) => PolledIsValid(o, db, pkt);
      case Read(id) => SetReadIsValid(db, id);
      case Delete(id) => TrashIsValid(db, id);
      case Send(out) => SentIsValid(o, db, out);
    }
  }

  lemma EvolvesTransitive(a: Row, b: Row, c: Row)
    requires Evolves(a, b) && Evolves(b, c)
    ensures Evolves(a, c)
  {
  }

  /**
   * Over any run a stored message stays stored; unless a send reuses its id it is never duplicated,
   * rewritten, marked unread again or taken out of the trash.
   */
  lemma {:induction false} RowsEvolve(o: Owner, db: Db, ops: seq<Op>, k: string)
    requires Valid(db) && k in db.messages
    ensures Valid(Run(o, db, ops)) && k in Run(o, db, ops).messages
    ensures (forall i :: 0 <= i < |ops| ==> !Overwrites(o, ops[i], k)) ==>
              Evolves(db.messages[k], Run(o, db, ops).messages[k])
  {
    hide Overwrites, Apply, Valid;
    if ops != [] {
      var init, op := ops[..|ops| - 1], ops[|ops| - 1];
      RowsEvolve(o, db, init, k);
      StepEvolves(o, Run(o, db, init), op, k);
      if forall i :: 0 <= i < |ops| ==> !Overwrites(o, ops[i], k) {
        assert forall i :: 0 <= i < |init| ==> init[i] == ops[i];
        EvolvesTransitive(db.messages[k], Run(o, db, init).messages[k], Run(o, db, ops).messages[k]);
      }
    }
  }

  /** Polling the same packet again, after whatever else, changes nothing. */
  lemma PollingIsIdempotent(o: Owner, db: Db, pkt: DmailPacket, ops: seq<Op>)
    requires Valid(db)
    ensures var later := Run(o, Polled(o, db, pkt), ops);
            Polled(o, later, pkt) == later
  {
    hide Packet.Open, Valid, Run;
    match Packet.Open(o.suite, pkt, o.keys.seed) {
      case Err(_) =>
      case Ok(payload) =>
        PolledIsValid(o, db, pkt);
        RowsEvolve(o, Polled(o, db, pkt), ops, Text(payload.messageId));
    }
  }

  /** Mail to oneself is stored under its own id, so that polling never brings it to the inbox. */
  lemma MailToSelfStaysSent(o: Owner, db: Db, out: Outgoing, ops: seq<Op>)
    requires Valid(db) && Laws(o.suite) && o.keys.publicKey == o.suite.publicKey(o.keys.seed)
    requires out.recipient == Address.Of(o.suite.sha256, o.keys.publicKey)
    requires PayloadHolds(Packet.PayloadFor(out.draft))
    requires Packet.Built(o.suite, out.draft, o.keys, o.keys.publicKey, Pow.DEFAULT_DIFFICULTY).Ok?
    ensures var pkt := Packet.Built(o.suite, out.draft, o.keys, o.keys.publicKey, Pow.DEFAULT_DIFFICULTY).value;
            var later := Run(o, Sent(o, db, out), ops);
            && SentCopy(o, out).Some? && SentCopy(o, out).value.id == Text(out.draft.messageId)
            && Polled(o, later, pkt) == later
  {
    hide Packet.Built, Packet.Open, Valid, Run, PayloadHolds, Laws;
    var pkt := Packet.Built(o.suite, out.draft, o.keys, o.keys.publicKey, Pow.DEFAULT_DIFFICULTY).value;
    Address.ParseInvertsOf(o.suite.sha256, out.recipient, o.keys.publicKey);
    Packet.BuiltPacketOpens(o.suite, out.draft, o.keys, o.keys.seed, Pow.DEFAULT_DIFFICULTY);
    SentIsValid(o, db, out);
    RowsEvolve(o, Sent(o, db, out), ops, Text(out.draft.messageId));
  }

  // ---------- which sends overwrite a row ----------

  /** A Go string in each field. */
  ghost predicate DraftHolds(d: Packet.Draft) {
    |d.messageId| < MAX_LENGTH && |d.subject| < MAX_LENGTH && |d.body| < MAX_LENGTH && |d.replyToId| < MAX_LENGTH
  }

  /** The owner's key agreement with a public key; with his own it is the key of his own box. */
  function BoxKeyTo(o: Owner, pub: bytes): Option<Key> {
    Packet.BoxKey(o.suite, o.keys.seed, pub)
  }

  /**
   * What a caller can tell beforehand of the stored copy's id: there is none unless the address
   * parses to a point, the text is UTF-8 and a nonce is drawn; it is the payload's id when the
   * recipient shares the owner's box key - the owner himself does - and the subject otherwise.
   */
  function CopyId(o: Owner, out: Outgoing): Option<string> {
    match Address.Parse(o.suite.sha256, out.recipient)
    case Err(_) => None
    case Ok(pub) =>
      if MarshalPayload(Packet.PayloadFor(out.draft)).None? || BoxKeyTo(o, pub).None? || out.draft.nonce.None? then None
      else Some(Text(if BoxKeyTo(o, pub) == BoxKeyTo(o, o.keys.publicKey) then out.draft.messageId else out.draft.subject))
  }

  /** The box of this send, if sealed with another key than the owner's own, does not open with his. */
  ghost predicate SealsAgainst(o: Owner, out: Outgoing, pub: bytes) {
    var own, theirs, plain := BoxKeyTo(o, o.keys.publicKey), BoxKeyTo(o, pub), MarshalPayload(Packet.PayloadFor(out.draft));
    own.Some? && theirs.Some? && theirs != own && plain.Some? && out.draft.nonce.Some? ==>
      o.suite.open(own.value, out.draft.nonce.value, o.suite.seal(theirs.value, out.draft.nonce.value, plain.value)).None?
  }

  /** The owner's keys belong together, and the packet he sends opens for him only under the key it was sealed with. */
  ghost predicate Sealing(o: Owner, out: Outgoing) {
    && Laws(o.suite) && o.keys.publicKey == o.suite.publicKey(o.keys.seed) && DraftHolds(out.draft)
    && forall pub :: Address.Parse(o.suite.sha256, out.recipient) == Ok(pub) ==> SealsAgainst(o, out, pub)
  }

  lemma MarshalledTextHolds(d: Packet.Draft)
    requires DraftHolds(d) && MarshalPayload(Packet.PayloadFor(d)).Some?
    ensures PayloadHolds(Packet.PayloadFor(d))
  {
    hide ValidUtf8, MarshalPayload;
    MarshalPayloadFails(Packet.PayloadFor(d));
    assert OnlyUnknown(PAYLOAD_FIELDS, []);
  }

  lemma SenderOpens(o: Owner, out: Outgoing, pub: bytes)
    requires Sealing(o, out) && Address.Parse(o.suite.sha256, out.recipient) == Ok(pub)
    requires Packet.Built(o.suite, out.draft, o.keys, pub, Pow.DEFAULT_DIFFICULTY).Ok?
    ensures var p := Packet.Built(o.suite, out.draft, o.keys, pub, Pow.DEFAULT_DIFFICULTY).value;
      if BoxKeyTo(o, pub) == BoxKeyTo(o, o.keys.publicKey)
      then Packet.Open(o.suite, p, o.keys.seed) == Ok(Packet.PayloadFor(out.draft))
      else Packet.Open(o.suite, p, o.keys.seed).Err?
  {
    hide Packet.Built, Packet.BoxKey, MarshalPayload, UnmarshalPayload, Decrypt, PayloadHolds, DraftHolds, Address.Parse;
    Packet.SenderDecrypts(o.suite, out.draft, o.keys, pub, Pow.DEFAULT_DIFFICULTY);
    MarshalledTextHolds(out.draft);
    PayloadRoundTrip(Packet.PayloadFor(out.draft));
  }

  /** The id of the stored copy is what could be told beforehand. */
  lemma CopyIdIsKnown(o: Owner, out: Outgoing)
    requires Sealing(o, out)
    ensures SentCopy(o, out).Some? <==> CopyId(o, out).Some?
    ensures SentCopy(o, out).Some? ==> SentCopy(o, out).value.id == CopyId(o, out).value
  {
    hide Packet.Built, Packet.Open, Packet.BoxKey, MarshalPayload, DraftHolds, Sealing, Address.Parse, Address.Of;
    var parsed := Address.Parse(o.suite.sha256, out.recipient);
    if parsed.Ok? {
      Packet.BuildsExactly(o.suite, out.draft, o.keys, parsed.value, Pow.DEFAULT_DIFFICULTY);
      KeysForPoints(o, parsed.value);
      if Packet.Built(o.suite, out.draft, o.keys, parsed.value, Pow.DEFAULT_DIFFICULTY).Ok? { SenderOpens(o, out, parsed.value); }
    }
  }

  lemma KeysForPoints(o: Owner, pub: bytes)
    ensures BoxKeyTo(o, pub).Some? <==> PubToCurve(o.suite, pub).Some?
  {
    hide CurvePrivate;
  }

  /** A send overwrites the row with a given id exactly when that id is the one known beforehand. */
  lemma OverwritesExactly(o: Owner, out: Outgoing, k: string)
    requires Sealing(o, out)
    ensures Overwrites(o, Send(out), k) <==> CopyId(o, out) == Some(k)
  {
    hide SentCopy, CopyId, Sealing;
    CopyIdIsKnown(o, out);
  }

  /** Nobody but the owner shares his box key. */
  ghost predicate OwnBoxIsOwn(o: Owner, out: Outgoing) {
    forall pub :: Address.Parse(o.suite.sha256, out.recipient) == Ok(pub) && BoxKeyTo(o, pub) == BoxKeyTo(o, o.keys.publicKey) ==>
      pub == o.keys.publicKey
  }

  /** The id the copy falls back to: the subject, when the recipient is not the owner and the packet can be built. */
  predicate FallsBackTo(o: Owner, out: Outgoing, k: string) {
    CopyId(o, out).Some? && out.recipient != Address.Of(o.suite.sha256, o.keys.publicKey) && k == Text(out.draft.subject)
  }

  /** With a fresh payload id, only a send to somebody else whose subject is the row's id overwrites the row, and every such send does. */
  lemma OnlyAnEqualSubjectOverwrites(o: Owner, out: Outgoing, k: string)
    requires Sealing(o, out) && OwnBoxIsOwn(o, out) && k != Text(out.draft.messageId)
    ensures Overwrites(o, Send(out), k) <==> FallsBackTo(o, out, k)
  {
    hide Overwrites, Sealing, Packet.BoxKey, MarshalPayload, Address.Parse, Address.Of, Text;
    OverwritesExactly(o, out, k);
    var parsed := Address.Parse(o.suite.sha256, out.recipient);
    if parsed.Ok? { Address.ParseInvertsOf(o.suite.sha256, out.recipient, parsed.value); }
    Address.ParseInvertsOf(o.suite.sha256, out.recipient, o.keys.publicKey);
  }

  /** What is assumed of the sends of a run for one stored id. */
  ghost predicate FreshSends(o: Owner, ops: seq<Op>, k: string) {
    forall i :: 0 <= i < |ops| && ops[i].Send? ==>
      Sealing(o, ops[i].out) && OwnBoxIsOwn(o, ops[i].out) && k != Text(ops[i].out.draft.messageId)
  }

  /**
   * Over any run with fresh payload ids, a stored row is never lost, doubled, marked unread or taken
   * out of the trash unless some send to somebody else has the row's id as its subject.
   */
  lemma RowsEvolveUnlessASubjectMatches(o: Owner, db: Db, ops: seq<Op>, k: string)
    requires Valid(db) && k in db.messages && FreshSends(o, ops, k)
    requires forall i :: 0 <= i < |ops| && ops[i].Send? ==> !FallsBackTo(o, ops[i].out, k)
    ensures k in Run(o, db, ops).messages && Evolves(db.messages[k], Run(o, db, ops).messages[k])
  {
    hide Overwrites, Sealing, OwnBoxIsOwn, FallsBackTo, Evolves, Valid, Run, Text;
    forall i | 0 <= i < |ops|
      ensures !Overwrites(o, ops[i], k)
    {
      if ops[i].Send? { OnlyAnEqualSubjectOverwrites(o, ops[i].out, k); } else { OnlySendsOverwrite(o, ops[i], k); }
    }
    RowsEvolve(o, db, ops, k);
  }

  lemma OnlySendsOverwrite(o: Owner, op: Op, k: string)
    requires !op.Send?
    ensures !Overwrites(o, op, k)
  {
  }

  /** A message with a subject and nothing else. */
  function SubjectOnly(o: Owner, subject: bytes, recipient: Key, nonce: Nonce): Outgoing {
    Outgoing(Packet.Draft([], subject, [], [], 0, Some(nonce)), Address.Of(o.suite.sha256, recipient), 0)
  }

  /**
   * Such a send: whatever message is stored, a message to somebody else that has its id as subject
   * puts a sent copy in its place, and text and folder of the stored message are gone.
   */
  lemma ASubjectOverwritesAStoredMessage(o: Owner, db: Db, id: bytes, recipient: Key, nonce: Nonce)
    requires Valid(db) && Text(id) in db.messages && ValidUtf8(id) && |id| < MAX_LENGTH
    requires o.suite.toMontgomery(recipient).Some? && BoxKeyTo(o, recipient) != BoxKeyTo(o, o.keys.publicKey)
    requires var out := SubjectOnly(o, id, recipient, nonce);
      && Laws(o.suite) && o.keys.publicKey == o.suite.publicKey(o.keys.seed) && SealsAgainst(o, out, recipient)
    ensures var out := SubjectOnly(o, id, recipient, nonce);
      var row := Apply(o, db, Send(out)).messages;
      && Overwrites(o, Send(out), Text(id)) && row.Keys == db.messages.Keys
      && row[Text(id)].msg.folder == "sent" && row[Text(id)].msg.subject == Text(id) && row[Text(id)].msg.body == ""
      && !Evolves(db.messages[Text(id)], row[Text(id)])
  {
    hide *;
    SubjectIsFiled(o, id, recipient, nonce);
    CopyReplacesRow(o, db, SubjectOnly(o, id, recipient, nonce), Text(id));
  }

  /** What a stored copy under an id already there does to that row. */
  lemma CopyReplacesRow(o: Owner, db: Db, out: Outgoing, k: string)
    requires Valid(db) && k in db.messages && SentCopy(o, out).Some? && SentCopy(o, out).value.id == k
    ensures var row, copy := Apply(o, db, Send(out)).messages, SentCopy(o, out).value;
      && Overwrites(o, Send(out), k) && row.Keys == db.messages.Keys && !Evolves(db.messages[k], row[k])
      && row[k].msg.folder == copy.folder && row[k].msg.subject == copy.subject && row[k].msg.body == copy.body
  {
    hide SentCopy, Valid, Evolves;
    StepEvolves(o, db, Send(out), k);
  }

  lemma SubjectIsFiled(o: Owner, id: bytes, recipient: Key, nonce: Nonce)
    requires ValidUtf8(id) && |id| < MAX_LENGTH
    requires o.suite.toMontgomery(recipient).Some? && BoxKeyTo(o, recipient) != BoxKeyTo(o, o.keys.publicKey)
    requires var out := SubjectOnly(o, id, recipient, nonce);
      && Laws(o.suite) && o.keys.publicKey == o.suite.publicKey(o.keys.seed) && SealsAgainst(o, out, recipient)
    ensures var copy := SentCopy(o, SubjectOnly(o, id, recipient, nonce));
      && copy.Some? && copy.value.id == Text(id) && copy.value.folder == "sent"
      && copy.value.subject == Text(id) && copy.value.body == ""
  {
    hide Packet.Built, Packet.Open, Packet.BoxKey, MarshalPayload, Address.Parse, Address.Of, ValidUtf8, CurvePrivate;
    var out := SubjectOnly(o, id, recipient, nonce);
    Address.ParseInvertsOf(o.suite.sha256, out.recipient, recipient);
    MarshalPayloadFails(Packet.PayloadFor(out.draft));
    EmptyIsUtf8();
    KeysForPoints(o, recipient);
    Packet.BuildsExactly(o.suite, out.draft, o.keys, recipient, Pow.DEFAULT_DIFFICULTY);
    SenderOpens(o, out, recipient);
  }

  lemma EmptyIsUtf8()
    ensures ValidUtf8([])
  {
  }

  /** Two messages to others with one subject share a row: the later copy replaces the earlier one. */
  lemma SameSubjectReplaces(o: Owner, db: Db, first: Outgoing, second: Outgoing)
    requires Sealing(o, first) && Sealing(o, second) && OwnBoxIsOwn(o, first) && OwnBoxIsOwn(o, second)
    requires var k := Text(first.draft.subject); FallsBackTo(o, first, k) && FallsBackTo(o, second, k)
    ensures var k, once, twice := Text(first.draft.subject), Sent(o, db, first), Sent(o, Sent(o, db, first), second);
      && SentCopy(o, second).Some? && k in once.messages && twice.messages.Keys == once.messages.Keys
      && twice.messages[k].msg == Filled(SentCopy(o, second).value)
  {
    hide SentCopy, Sealing, Packet.BoxKey, MarshalPayload, Address.Parse, Address.Of, Text;
    FallbackIsCopyId(o, first);
    FallbackIsCopyId(o, second);
    CopyIdIsKnown(o, first);
    CopyIdIsKnown(o, second);
  }

  lemma FallbackIsCopyId(o: Owner, out: Outgoing)
    requires OwnBoxIsOwn(o, out) && FallsBackTo(o, out, Text(out.draft.subject))
    ensures CopyId(o, out) == Some(Text(out.draft.subject))
  {
    hide Packet.BoxKey, MarshalPayload, Address.Parse, Address.Of, Text;
    var parsed := Address.Parse(o.suite.sha256, out.recipient);
    Address.ParseInvertsOf(o.suite.sha256, out.recipient, parsed.value);
  }

  // ---------- what the stored rows say ----------

  /** A timestamp as the signed number it is stored as. */
  function Stamp(timestamp: uint64): int {
    if timestamp < 0x8000_0000_0000_0000 then timestamp else timestamp - 0x1_0000_0000_0000_0000
  }

  /**
   * A polled packet that opens becomes one new row under its payload's id, unless that id is stored:
   * unread in the inbox, between the addresses of the packet's two keys, at the packet's time.
   */
  lemma PolledRowSays(o: Owner, db: Db, pkt: DmailPacket, payload: Payload)
    requires Packet.Open(o.suite, pkt, o.keys.seed) == Ok(payload)
    ensures var db', k := Polled(o, db, pkt), Text(payload.messageId);
      && db'.pending == db.pending && db'.users == db.users
      && db'.messages == if k in db.messages then db.messages else
           db.messages[k := Row(db.nextRowid,
             Message(k, "inbox", Address.Of(o.suite.sha256, pkt.senderPubkey), Address.Of(o.suite.sha256, pkt.recipientPubkey),
                     Text(payload.subject), Text(payload.body), Stamp(pkt.timestamp), false, "", k, ""))]
  {
    hide Packet.Open, Address.Of;
  }

  /** A packet that does not open leaves everything as it is. */
  lemma UnopenedIsIgnored(o: Owner, db: Db, pkt: DmailPacket)
    requires Packet.Open(o.suite, pkt, o.keys.seed).Err?
    ensures Polled(o, db, pkt) == db
  {
    hide Packet.Open;
  }

  /** From one daemon to another: what is built for the owner and polled says what its sender wrote, and when. */
  lemma BuiltPacketIsReceived(o: Owner, db: Db, d: Packet.Draft, sender: KeyPair, difficulty: uint32, pkt: DmailPacket)
    requires Laws(o.suite) && sender.publicKey == o.suite.publicKey(sender.seed) && o.keys.publicKey == o.suite.publicKey(o.keys.seed)
    requires PayloadHolds(Packet.PayloadFor(d)) && Packet.Built(o.suite, d, sender, o.keys.publicKey, difficulty) == Ok(pkt)
    requires Text(d.messageId) !in db.messages
    ensures var row, k := Polled(o, db, pkt).messages, Text(d.messageId);
      && row.Keys == db.messages.Keys + {k} && (forall x :: x in db.messages ==> row[x] == db.messages[x])
      && row[k].msg == Message(k, "inbox", Address.Of(o.suite.sha256, sender.publicKey), Address.Of(o.suite.sha256, o.keys.publicKey),
                               Text(d.subject), Text(d.body), Stamp(d.timestamp), false, "", k, "")
  {
    hide Packet.Built, Packet.Open, Polled, PayloadHolds, Address.Of, Laws, Packet.SignableBytes, Packet.SignableBytesWithNonce;
    Packet.BuiltPacketOpens(o.suite, d, sender, o.keys.seed, difficulty);
    Packet.BuiltPacketSays(o.suite, d, sender, o.keys.publicKey, difficulty, pkt);
    PolledRowSays(o, db, pkt, Packet.PayloadFor(d));
  }

  /**
   * The copy kept of a sent message is read and in the sent folder, from the owner to the address
   * asked for, with subject and body as written. To whoever shares the owner's box key it is filed
   * under the payload's id at the packet's time, to everybody else under the subject at the time it
   * is stored.
   */
  lemma SentCopySays(o: Owner, db: Db, out: Outgoing, pub: bytes)
    requires Sealing(o, out) && Address.Parse(o.suite.sha256, out.recipient) == Ok(pub) && SentCopy(o, out).Some?
    ensures var shared := BoxKeyTo(o, pub) == BoxKeyTo(o, o.keys.publicKey);
      var k := Text(if shared then out.draft.messageId else out.draft.subject);
      Sent(o, db, out).messages == db.messages[k := Row(db.nextRowid,
        Message(k, "sent", Address.Of(o.suite.sha256, o.keys.publicKey), out.recipient, Text(out.draft.subject), Text(out.draft.body),
                if shared then Stamp(out.draft.timestamp) else out.clock, true, "", k, ""))]
  {
    hide SentCopy, BoxKeyTo, Sealing, Address.Parse, Address.Of, Text;
    CopyKept(o, out, pub);
  }

  lemma CopyKept(o: Owner, out: Outgoing, pub: bytes)
    requires Sealing(o, out) && Address.Parse(o.suite.sha256, out.recipient) == Ok(pub) && SentCopy(o, out).Some?
    ensures var shared := BoxKeyTo(o, pub) == BoxKeyTo(o, o.keys.publicKey);
      SentCopy(o, out).value ==
        Message(Text(if shared then out.draft.messageId else out.draft.subject), "sent", Address.Of(o.suite.sha256, o.keys.publicKey),
                out.recipient, Text(out.draft.subject), Text(out.draft.body),
                if shared then Stamp(out.draft.timestamp) else out.clock, true, "", "", "")
  {
    hide Packet.Built, Packet.Open, BoxKeyTo, Sealing, Address.Parse, Address.Of, Text, MarshalPayload, Encrypt;
    hide Packet.SignableBytes, Packet.SignableBytesWithNonce, Pow.Check;
    var built := Packet.Built(o.suite, out.draft, o.keys, pub, Pow.DEFAULT_DIFFICULTY);
    Packet.BuiltPacketSays(o.suite, out.draft, o.keys, pub, Pow.DEFAULT_DIFFICULTY, built.value);
    SenderOpens(o, out, pub);
  }

  // ---------- the daemon object ----------

  class Daemon {
    const owner: Owner
    const store: S.Store
    var pendingPoW: int

    ghost predicate Sound()
      reads this, store
    {
      Valid(store.db)
    }

    constructor (owner: Owner, store: S.Store)
      ensures this.owner == owner && this.store == store && pendingPoW == 0
    {
      this.owner := owner;
      this.store := store;
      pendingPoW := 0;
    }

    /** One poll; `polled` is what the DHT returned, already verified, or nothing. */
    method DoPoll(polled: Option<DmailPacket>)
      requires Sound()
      modifies store
      ensures Sound()
      ensures store.db == if polled.None? then old(store.db) else Polled(owner, old(store.db), polled.value)
    {
      hide Packet.Open, Address.Of, Valid, Upsert;
      if polled.None? {
        return;
      }
      var pkt := polled.value;
      var plain := Packet.Open(owner.suite, pkt, owner.keys.seed);
      if plain.Err? {
        return;
      }
      var payload := plain.value;
      var has := store.HasMessage(Text(payload.messageId));
      if has {
        return;
      }
      var _ := store.SaveMessage(Received(owner, pkt, payload));
    }

    /**
     * SendMessage and its goroutine up to the DHT push: the counter is raised while the packet is
     * built and lowered however the goroutine ends.
     */
    method SendMessage(out: Outgoing) returns (accepted: bool, pkt: Option<DmailPacket>)
      requires Sound()
      modifies this, store
      ensures Sound() && pendingPoW == old(pendingPoW)
      ensures accepted <==> Address.Parse(owner.suite.sha256, out.recipient).Ok?
      ensures pkt.Some? <==> SentCopy(owner, out).Some?
      ensures store.db == Sent(owner, old(store.db), out)
    {
      hide Packet.Built, Packet.Open, Address.Of, Address.Parse, Valid, Upsert;
      var recipientPub := Address.PubKeyFromAddress(owner.suite.sha256, out.recipient);
      if recipientPub.Err? {
        return false, None;
      }
      pendingPoW := pendingPoW + 1;
      var built := Packet.Build(owner.suite, out.draft, owner.keys, recipientPub.value, Pow.DEFAULT_DIFFICULTY);
      if built.Err? {
        pendingPoW := pendingPoW - 1;
        return true, None;
      }
      var sender := Address.Address(owner.suite.sha256, owner.keys.publicKey);
      var plain := Packet.Open(owner.suite, built.value, owner.keys.seed);
      if plain.Err? {
        var _ := store.SaveMessage(Message(Text(out.draft.subject), "sent", sender, out.recipient, Text(out.draft.subject),
                                           Text(out.draft.body), out.clock, true, "", "", ""));
      } else {
        var payload := plain.value;
        var _ := store.SaveMessage(Message(Text(payload.messageId), "sent", sender, out.recipient, Text(payload.subject),
                                           Text(payload.body), Packet.Int64(built.value.timestamp), true, "", "", ""));
      }
      pendingPoW := pendingPoW - 1;
      return true, Some(built.value);
    }
  }
}
