/**
 * What the requests of the multi-tenant daemon do to the tables, column by column: sending
 * (pkg/daemon/api_multi.go, handleMTSendMessage; pkg/daemon/multi_tenant.go, SendMessageForUser and
 * SendMessageFederated), pushing, reading, and polling.
 */
module Requests {
  import opened Bytes
  import opened Messages
  import opened Crypto
  import Like
  import opened Tables
  import opened Mailbox
  import opened Letters
  import opened MultiTenant
  import Address
  import Federation
  import Names
  import Packet
  import Pow
  import Registry

  // ---------- which address a recipient stands for ----------

  /** A name resolves to a key exactly when the value the DHT holds is a registration of that key. */
  lemma NodeResolvesExactly(suite: Suite, value: Option<bytes>, key: bytes)
    ensures NodeResolve(suite, value) == Some(key) <==>
            value.Some? && exists rec :: Registry.IsRegistration(suite, value.value, rec) && rec.pubkey == key
  {
    hide NodeResolve, Registry.IsRegistration;
    match value {
      case None => NoValueNoKey(suite);
      case Some(data) => VerdictIsRegistration(suite, data);
    }
  }

  lemma NoValueNoKey(suite: Suite)
    ensures NodeResolve(suite, None) == None
  {
  }

  lemma VerdictIsRegistration(suite: Suite, data: bytes)
    ensures match UnmarshalName(data)
      case None => NodeResolve(suite, Some(data)) == None && !exists rec :: Registry.IsRegistration(suite, data, rec)
      case Some(rec) =>
        && (NodeResolve(suite, Some(data)) == if Registry.IsRegistration(suite, data, rec) then Some(rec.pubkey) else None)
        && forall other :: Registry.IsRegistration(suite, data, other) ==> other == rec
  {
    hide UnmarshalName, Names.VerifyNameRecord, Names.IsHyphenated, Pow2, BigEndian, BigEndianValue;
    hide Names.SignableBytes, Names.SignableBytesWithNonce;
    match UnmarshalName(data) {
      case None =>
      case Some(rec) =>
        Names.AcceptedExactly(suite, rec);
        Names.VerdictOf(suite, rec);
        assert Names.VerifyNameRecord(suite, rec).Ok? <==> Registry.IsRegistration(suite, data, rec);
    }
  }

  /** The address used for a name: the one remembered, else that of the key the DHT's registration names. */
  lemma ResolvedExactly(suite: Suite, names: map<string, string>, net: Net, name: string, addr: string)
    ensures Resolved(suite, names, net, name) == Some(addr) <==>
            if name in names then addr == names[name]
            else
              && net.getName(name).Some?
              && exists rec :: Registry.IsRegistration(suite, net.getName(name).value, rec) && addr == Address.Of(suite.sha256, rec.pubkey)
  {
    hide NodeResolve, Registry.IsRegistration, Address.Of;
    var value := net.getName(name);
    if NodeResolve(suite, value).Some? {
      NodeResolvesExactly(suite, value, NodeResolve(suite, value).value);
    }
    if value.Some? {
      forall rec | Registry.IsRegistration(suite, value.value, rec)
        ensures NodeResolve(suite, value) == Some(rec.pubkey)
      {
        NodeResolvesExactly(suite, value, rec.pubkey);
      }
    }
  }

  /** The address a recipient stands for, and whether the message goes to another server. */
  ghost predicate StandsFor(suite: Suite, names: map<string, string>, net: Net, recipient: string, addr: string, federated: bool) {
    match Federation.Dispatch(recipient)
    case Federated(name, host) => federated && net.resolveUser(name, host) == Some(addr)
    case Named(name) => !federated && Resolved(suite, names, net, name) == Some(addr)
    case Direct(a) => !federated && a == addr
  }

  /**
   * A request is accepted exactly when recipient and subject are given, the user is logged in, and
   * the recipient stands for an address of a key; the letter is his, under the drawn id and time,
   * to that address, with the text and the reply id asked for.
   */
  lemma RequestMeans(suite: Suite, sessions: Sessions, names: map<string, string>, net: Net, user: string, recipient: string,
                     o: Outgoing, t: Task)
    ensures Request(suite, sessions, names, net, user, recipient, o) == Ok(t) <==>
            && recipient != "" && o.subject != [] && user in sessions
            && exists addr, federated ::
                 && StandsFor(suite, names, net, recipient, addr, federated) && Address.Parse(suite.sha256, addr).Ok?
                 && var l := Letter(user, o.msgId, Address.Of(suite.sha256, sessions[user].publicKey), addr,
                                    Text(o.subject), Text(o.body), o.now, Text(o.replyToId));
                    t == if federated then SaveFederated(l) else SaveSent(l)
  {
    hide Federation.Dispatch, Resolved, Address.Parse, Address.Of, Text;
    var r := Request(suite, sessions, names, net, user, recipient, o);
    if r.Ok? {
      assert StandsFor(suite, names, net, recipient, r.value.l.recipientAddr, r.value.SaveFederated?);
    }
  }

  /** The refusals, first a missing field, then per kind of recipient in the code's order. */
  lemma RefusalsMean(suite: Suite, sessions: Sessions, names: map<string, string>, net: Net, user: string, recipient: string,
                     o: Outgoing, e: Address.AddressError)
    ensures var r := Request(suite, sessions, names, net, user, recipient, o);
      var given := recipient != "" && o.subject != [];
      var kind := Federation.Dispatch(recipient);
      var nameless := kind.Named? && Resolved(suite, names, net, kind.name).None?;
      var unknown := kind.Federated? && net.resolveUser(kind.user, kind.host).None?;
      && (r == Err(MissingField) <==> !given)
      && (r == Err(Unresolved) <==> given && (nameless || (unknown && user in sessions)))
      && (r == Err(NoSession) <==> given && !nameless && user !in sessions)
      && (r == Err(BadAddress(e)) <==>
            && given && user in sessions
            && exists addr, federated ::
                 StandsFor(suite, names, net, recipient, addr, federated) && Address.Parse(suite.sha256, addr) == Err(e))
  {
    hide Federation.Dispatch, Resolved, Address.Parse, Address.Of, Text;
    match Federation.Dispatch(recipient) {
      case Federated(name, host) =>
        match net.resolveUser(name, host) {
          case None =>
          case Some(addr) => assert StandsFor(suite, names, net, recipient, addr, true);
        }
      case Named(name) =>
        match Resolved(suite, names, net, name) {
          case None =>
          case Some(addr) => assert StandsFor(suite, names, net, recipient, addr, false);
        }
      case Direct(addr) => assert StandsFor(suite, names, net, recipient, addr, false);
    }
  }

  // ---------- what a send leaves behind ----------

  /** A row with the content of a letter. */
  function LetterRow(l: Letter, user: string, folder: string, isRead: bool, status: string): Message {
    Message(user + ":" + l.msgId, folder, l.senderAddr, l.recipientAddr, l.subject, l.body, l.timestamp, isRead, l.replyToId,
            if l.replyToId != "" then l.replyToId else l.msgId, status)
  }

  /**
   * A send ends with one read row in the sender's sent folder, as being sent, and a push to make; a
   * local one with that row delivered and one unread row in the recipient's inbox, which takes the
   * place of the first when he wrote to himself. No other row changes.
   */
  lemma SendingLeaves(db: Db, l: Letter, federated: bool)
    requires Valid(db)
    ensures var (db', t') := SendRun(db, if federated then SaveFederated(l) else SaveSent(l));
      var k := Like.Key(l.sender, l.msgId);
      && db'.users == db.users && k in db'.messages
      && match (if federated then None else UserByPubkey(db.users, l.recipientAddr))
         case None =>
           t' == Push(l) && OnlyAt(db, db', k) && db'.messages[k].msg == LetterRow(l, l.sender, "sent", true, "sending")
         case Some(u) =>
           var k' := Like.Key(u.id, l.msgId);
           && t' == Delivered(l, u.id) && k' in db'.messages
           && (forall x :: x != k && x != k' ==>
                 (x in db'.messages <==> x in db.messages) && (x in db.messages ==> db'.messages[x] == db.messages[x]))
           && (if k' == k then db'.messages[k].msg == LetterRow(l, u.id, "inbox", false, "delivered")
               else && db'.messages[k].msg == LetterRow(l, l.sender, "sent", true, "delivered")
                    && db'.messages[k'].msg == LetterRow(l, u.id, "inbox", false, ""))
  {
    hide SaveFor, SetStatus, SendRun, Valid, Like.Key;
    var db1 := SaveFor(db, l.sender, SentCopy(l));
    CopySays(db, l.sender, l, SentCopy(l));
    if federated {
      FederatedSend(db, l);
    } else {
      match UserByPubkey(db.users, l.recipientAddr) {
        case None => RemoteSend(db, l);
        case Some(u) =>
          LocalSend(db, l);
          CopySays(db1, u.id, l, InboxCopy(l));
          StatusTouches(SaveFor(db1, u.id, InboxCopy(l)), Like.Key(l.sender, l.msgId), "delivered");
      }
    }
  }

  lemma CopySays(db: Db, user: string, l: Letter, m: Message)
    requires Valid(db) && (m == SentCopy(l) || m == InboxCopy(l))
    ensures var db', k := SaveFor(db, user, m), Like.Key(user, l.msgId);
      && Valid(db') && OnlyAt(db, db', k) && db'.users == db.users && k in db'.messages
      && (m == SentCopy(l) ==> db'.messages[k].msg == LetterRow(l, user, "sent", true, "sending"))
      && (m == InboxCopy(l) ==> db'.messages[k].msg == LetterRow(l, user, "inbox", false, ""))
  {
    SaveForTouches(db, user, m);
    SavingIsValid(db, user, m);
    hide SaveFor, Valid;
  }

  lemma SavingIsValid(db: Db, user: string, m: Message)
    requires Valid(db)
    ensures Valid(SaveFor(db, user, m))
  {
    hide Valid, Upsert, Like.Key;
    UpsertIsValid(db, Filled(m).(id := Like.Key(user, m.id)));
  }

  /** A push goes to the DHT exactly when the packet can be built at difficulty 20, has at most 262144 bytes and is taken. */
  lemma PushedExactly(suite: Suite, d: Packet.Draft, keys: KeyPair, recipientPub: bytes, dhtTakes: bool)
    ensures PushOutcome(suite, d, keys, recipientPub, dhtTakes) ==
            if && dhtTakes
               && exists p :: Packet.Built(suite, d, keys, recipientPub, 20) == Ok(p) && |MarshalPacket(p)| <= 262144
            then ByDht else Lost
  {
    hide Packet.Built, MarshalPacket;
    var built := Packet.Built(suite, d, keys, recipientPub, 20);
    if built.Ok? { assert built == Ok(built.value); }
  }

  /** A push that went through changes the sender's status, and nothing else: delivered by his server, sent by the DHT. */
  lemma PushingChanges(db: Db, l: Letter, outcome: Outcome)
    requires Valid(db)
    ensures var db', k := StepLetter(db, Push(l), outcome).0, l.sender + ":" + l.msgId;
      && db'.messages == (if k !in db.messages || outcome == Lost then db.messages
                          else db.messages[k := db.messages[k].(msg := db.messages[k].msg.(
                                 status := if outcome == ByFederation then "delivered" else "sent"))])
      && db'.pending == db.pending && db'.users == db.users
  {
    StatusChanges(db, Like.Key(l.sender, l.msgId), "delivered");
    StatusChanges(db, Like.Key(l.sender, l.msgId), "sent");
    hide SetStatus, Valid;
  }

  lemma StatusChanges(db: Db, k: string, status: string)
    requires Valid(db)
    ensures var db' := SetStatus(db, k, status);
      && db'.messages == (if k !in db.messages then db.messages
                          else db.messages[k := db.messages[k].(msg := db.messages[k].msg.(status := status))])
      && db'.pending == db.pending && db'.users == db.users
  {
    if k in db.messages { UpdatesChangeOneColumn(db, k, status); }
    hide Update;
  }

  // ---------- reading ----------

  /**
   * Reading a message sets the read flag of that row, and, when its sender has an account here, the
   * status of the row he has under the same id to read; no other row and no other column changes.
   */
  lemma ReadingChanges(db: Db, user: string, id: string)
    requires Valid(db)
    ensures var db', k := ReadRun(db, SetReadFlag(user, id)), user + ":" + id;
      && db'.users == db.users && db'.pending == db.pending
      && (k !in db.messages ==> db'.messages == db.messages)
      && (k in db.messages ==>
            var read := db.messages[k := db.messages[k].(msg := db.messages[k].msg.(isRead := true))];
            match UserByPubkey(db.users, db.messages[k].msg.sender)
            case None => db'.messages == read
            case Some(s) =>
              var k' := s.id + ":" + id;
              db'.messages == if k' in read then read[k' := read[k'].(msg := read[k'].msg.(status := "read"))] else read)
  {
    var k := Like.Key(user, id);
    var db1 := SetRead(db, k);
    ReadUnfolds(db, user, id);
    FlagChanges(db, k);
    hide SetRead, SetStatus, ReadRun, Valid;
    if k in db.messages {
      match UserByPubkey(db.users, db.messages[k].msg.sender) {
        case None =>
        case Some(s) => StatusChanges(db1, Like.Key(s.id, id), "read");
      }
    }
  }

  lemma FlagChanges(db: Db, k: string)
    requires Valid(db)
    ensures var db' := SetRead(db, k);
      && Valid(db') && db'.pending == db.pending && db'.users == db.users
      && db'.messages == (if k !in db.messages then db.messages
                          else db.messages[k := db.messages[k].(msg := db.messages[k].msg.(isRead := true))])
  {
    SetReadIsValid(db, k);
    if k in db.messages { UpdatesChangeOneColumn(db, k, ""); }
    hide Update, Valid;
  }

  // ---------- polling and processing ----------

  /**
   * What one polled address stores: nothing unless it is an address, the DHT has a value and it is a
   * user's; then one packet for that user, under the address of the key that signed it or, if it is
   * not accepted, under no sender, at the second the answer came.
   */
  lemma PolledPacket(suite: Suite, db: Db, users: seq<User>, addrs: seq<string>, dht: Dht, i: nat)
    requires i < |addrs|
    ensures var before, after := Arrived(db, Arrivals(suite, users, addrs[..i], dht)), Arrived(db, Arrivals(suite, users, addrs[..i + 1], dht));
      if Address.Parse(suite.sha256, addrs[i]).Err? || dht.get(addrs[i]).None? || UserByPubkey(users, addrs[i]).None? then after == before
      else
        var data, now := dht.get(addrs[i]).value, dht.clock(i);
        var sender := if UnmarshalPacket(data).Some? && Packet.Verify(suite, UnmarshalPacket(data).value, now) == Ok(())
                      then Address.Of(suite.sha256, UnmarshalPacket(data).value.senderPubkey) else "";
        after == before.(pending := before.pending +
          [Pending(|before.pending| + 1, UserByPubkey(users, addrs[i]).value.id, data, sender, now / 1_000_000_000, false)])
  {
    hide Address.Parse, SenderOf, Arrived, Arrivals, UnmarshalPacket, Packet.Verify, Address.Of, UserByPubkey;
    PolledOneMore(suite, db, users, addrs, dht, i);
    if dht.get(addrs[i]).Some? { SenderExactly(suite, dht.get(addrs[i]).value, dht.clock(i)); }
  }

  /**
   * Processing a packet that opens puts one unread row into its user's inbox: from the sender stored
   * with the packet, to his own address, at the second the packet arrived, a thread of its own.
   * Otherwise, and after that, it marks the packet.
   */
  lemma ProcessedPacket(env: Env, db: Db, t: Task, u: User)
    requires Valid(db) && UsersOk(db.users) && t.Process? && t.at < |t.packets| && u in db.users && u.id == t.user
    ensures var db', p, mail := StepProcess(env, db, t).0, t.packets[t.at], env.open(t.user, t.packets[t.at].rawData);
      if mail.Some? && !t.saved then
        var m := mail.value;
        var k := t.user + ":" + m.id;
        && OnlyAt(db, db', k) && k in db'.messages && db'.pending == db.pending
        && db'.messages[k].msg == Message(k, "inbox", p.sender, u.pubkey, m.subject, m.body, p.receivedAt, false, "", m.id, "")
      else
        && db'.messages == db.messages && |db'.pending| == |db.pending|
        && forall i :: 0 <= i < |db.pending| ==>
             db'.pending[i] == if db.pending[i].id == p.id then db.pending[i].(processed := true) else db.pending[i]
  {
    hide SaveFor, MarkProcessed, Valid;
    var p := t.packets[t.at];
    OwnAddress(db, u);
    match env.open(t.user, p.rawData) {
      case None => MarkProcessedMarksOne(db, p.id);
      case Some(m) =>
        MarkProcessedMarksOne(db, p.id);
        SaveForTouches(db, t.user, PacketCopy(db, t.user, p, m));
        SavingIsQuiet(db, t.user, PacketCopy(db, t.user, p, m));
    }
  }

  lemma OwnAddress(db: Db, u: User)
    requires UsersOk(db.users) && u in db.users
    ensures AddressOf(db, u.id) == u.pubkey
  {
  }

  lemma SavingIsQuiet(db: Db, user: string, m: Message)
    ensures SaveFor(db, user, m).pending == db.pending
  {
  }
}
