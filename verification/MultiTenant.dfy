/**
 * pkg/daemon/multi_tenant.go, with the handlers of api_multi.go and federation.go that change the
 * store: the daemon of many users. Every method is proved to make exactly the store calls of the
 * tasks in `Mailbox`, so what holds of every run of that machine holds of the daemon.
 */
module MultiTenant {
  import opened Bytes
  import opened Messages
  import opened Crypto
  import Like
  import opened Tables
  import opened Views
  import opened Mailbox
  import Address
  import Federation

  import Names
  import Packet
  import Pow
  import Processing
  import S = Store
  import Wire

  // ---------- requests ----------

  datatype SendError = MissingField | NoSession | Unresolved | BadAddress(cause: Address.AddressError)

  /** What is to be sent, with the id and the time drawn for it. */
  datatype Outgoing = Outgoing(subject: bytes, body: bytes, replyToId: bytes, msgId: string, now: int)

  /** What the network answers: the address of user@host, and the record the DHT holds for a name. */
  datatype Net = Net(resolveUser: (string, string) -> Option<string>, getName: string -> Option<bytes>)

  /** Node.ResolveName: the public key of a record that verifies. */
  function NodeResolve(suite: Suite, value: Option<bytes>): Option<bytes> {
    match value
    case None => None
    case Some(data) =>
      match UnmarshalName(data)
      case None => None
      case Some(rec) => if Names.VerifyNameRecord(suite, rec).Ok? then Some(rec.pubkey) else None
  }

  /** The address a name stands for: the one remembered, else the one the DHT has now. */
  function Resolved(suite: Suite, names: map<string, string>, net: Net, name: string): Option<string> {
    if name in names then Some(names[name])
    else match NodeResolve(suite, net.getName(name))
      case None => None
      case Some(key) => Some(Address.Of(suite.sha256, key))
  }

  type Sessions = map<string, KeyPair>

  function LetterTo(suite: Suite, keys: KeyPair, user: string, addr: string, o: Outgoing): Letter {
    Letter(user, o.msgId, Address.Of(suite.sha256, keys.publicKey), addr, Text(o.subject), Text(o.body), o.now, Text(o.replyToId))
  }

  /** What SendMessageForUser sets going, or why it refuses. */
  function DirectRequest(suite: Suite, sessions: Sessions, user: string, addr: string, o: Outgoing): (r: Result<Task, SendError>)
    ensures r.Ok? ==> r.value.SaveSent?
  {
    if user !in sessions then Err(NoSession)
    else match Address.Parse(suite.sha256, addr)
      case Err(e) => Err(BadAddress(e))
      case Ok(_) => Ok(SaveSent(LetterTo(suite, sessions[user], user, addr, o)))
  }

  /** What SendMessageFederated sets going, or why it refuses. */
  function FederatedRequest(suite: Suite, sessions: Sessions, user: string, resolved: Option<string>, o: Outgoing)
    : (r: Result<Task, SendError>)
    ensures r.Ok? ==> r.value.SaveFederated?
  {
    if user !in sessions then Err(NoSession)
    else match resolved
      case None => Err(Unresolved)
      case Some(addr) =>
        match Address.Parse(suite.sha256, addr)
        case Err(e) => Err(BadAddress(e))
        case Ok(_) => Ok(SaveFederated(LetterTo(suite, sessions[user], user, addr, o)))
  }

  function Request(suite: Suite, sessions: Sessions, names: map<string, string>, net: Net,
                   user: string, recipient: string, o: Outgoing): (r: Result<Task, SendError>)
    ensures r.Ok? ==> r.value.SaveSent? || r.value.SaveFederated?
  {
    if recipient == "" || o.subject == [] then Err(MissingField)
    else match Federation.Dispatch(recipient)
      case Federated(name, host) => FederatedRequest(suite, sessions, user, net.resolveUser(name, host), o)
      case Named(name) =>
        (match Resolved(suite, names, net, name)
         case None => Err(Unresolved)
         case Some(addr) => DirectRequest(suite, sessions, user, addr, o))
      case Direct(addr) => DirectRequest(suite, sessions, user, addr, o)
  }

  // ---------- tasks run without interruption ----------

  function CallsLeft(t: Task): nat {
    match t
    case SaveSent(_) => 5
    case LookUp(_) => 4
    case SaveInbox(_, _) => 3
    case Confirm(_, _) => 2
    case SaveFederated(_) => 2
    case SetReadFlag(_, _) => 4
    case GetRead(_, _) => 3
    case FindSender(_, _, _) => 2
    case Receipt(_, _, _) => 1
    case SetTrash(_, _) => 1
    case Process(_, packets, at, saved) => if at >= |packets| then 0 else 2 * (|packets| - at) - (if saved then 1 else 0)
    case _ => 0
  }

  /** A request's own store calls: up to the end of a local delivery, or to the background push. */
  function SendRun(db: Db, t: Task): (Db, Task)
    requires t.SaveSent? || t.LookUp? || t.SaveInbox? || t.Confirm? || t.SaveFederated? || t.Push? || t.Delivered?
    decreases CallsLeft(t)
  {
    if t.Push? || t.Delivered? then (db, t)
    else
      var (db', t') := StepLetter(db, t, Lost);
      SendRun(db', t')
  }

  function ReadRun(db: Db, t: Task): Db
    requires t.SetReadFlag? || t.GetRead? || t.FindSender? || t.Receipt? || t.Done?
    decreases CallsLeft(t)
  {
    if t.Done? then db
    else
      var (db', t') := StepRead(db, t);
      ReadRun(db', t')
  }

  function ProcessRun(env: Env, db: Db, t: Task): Db
    requires t.Process?
    decreases CallsLeft(t)
  {
    if t.at >= |t.packets| then db
    else
      var (db', t') := StepProcess(env, db, t);
      ProcessRun(env, db', t')
  }

  // ---------- arriving packets ----------

  /** The sender shown for a stored packet; empty when the packet does not verify. */
  function SenderOf(suite: Suite, data: bytes, now: int): string {
    match Packet.ReadAndVerify(suite, data, now)
    case Err(_) => ""
    case Ok(p) => Address.Of(suite.sha256, p.senderPubkey)
  }

  /** time.Unix: whole seconds of a time in nanoseconds. */
  function Seconds(now: int): int {
    now / Packet.SECOND
  }

  /** What the DHT holds for each address, and the time each answer comes in. */
  datatype Dht = Dht(get: string -> Option<bytes>, clock: nat -> int)

  /** One address polled: at most one packet arrives. */
  function Arrival(suite: Suite, users: seq<User>, addr: string, dht: Dht, at: nat): seq<Event> {
    if Address.Parse(suite.sha256, addr).Err? then []
    else match dht.get(addr)
      case None => []
      case Some(data) =>
        match UserByPubkey(users, addr)
        case None => []
        case Some(u) => [Arrive(u.id, data, SenderOf(suite, data, dht.clock(at)), Seconds(dht.clock(at)))]
  }

  /** Checking this answer panics, which ends the daemon: there is nobody to recover in the poll's goroutine. */
  predicate Crashes(suite: Suite, users: seq<User>, addr: string, dht: Dht, at: nat) {
    && Address.Parse(suite.sha256, addr).Ok? && dht.get(addr).Some? && UserByPubkey(users, addr).Some?
    && VerifyPanics(suite, dht.get(addr).value, dht.clock(at))
  }

  predicate VerifyPanics(suite: Suite, data: bytes, now: int) {
    match UnmarshalPacket(data)
    case None => false
    case Some(p) => Packet.Verify(suite, p, now) in {Err(Packet.PowPanic), Err(Packet.KeyPanic)}
  }

  /** Which answers of the DHT end a poll: packets in size and time whose puzzle test runs off the hash, or whose key has a wrong length. */
  lemma PanicsExactly(suite: Suite, data: bytes, now: int)
    ensures VerifyPanics(suite, data, now) <==>
            && UnmarshalPacket(data).Some?
            && var p := UnmarshalPacket(data).value;
               && |MarshalPacket(p)| <= 262144
               && now - 86_400_000_000_000 <= Packet.PacketSecond(p.timestamp) * 1_000_000_000 <= now + 3_600_000_000_000
               && (|| (p.powDifficulty > 256 && suite.sha256(Packet.SignableBytes(p) + BigEndian(p.powNonce, 8)) == seq(32, _ => 0))
                   || (Pow.Check(suite.sha256, Packet.SignableBytes(p), p.powNonce, p.powDifficulty) == Pow.Met && |p.senderPubkey| != 32))
  {
    hide UnmarshalPacket, MarshalPacket, Packet.Verify, Packet.SignableBytes, Packet.PacketSecond, Pow.Check, BigEndian;
    if UnmarshalPacket(data).Some? { Packet.VerifyPanicsExactly(suite, UnmarshalPacket(data).value, now); }
  }

  function FirstTrue(flags: seq<bool>): (n: nat)
    ensures n <= |flags| && (n < |flags| ==> flags[n])
    ensures forall i :: 0 <= i < n ==> !flags[i]
  {
    if flags == [] || flags[0] then 0 else 1 + FirstTrue(flags[1..])
  }

  function CrashFlags(suite: Suite, users: seq<User>, addrs: seq<string>, dht: Dht): (flags: seq<bool>)
    ensures |flags| == |addrs| && forall i :: 0 <= i < |addrs| ==> flags[i] == Crashes(suite, users, addrs[i], dht, i)
  {
    seq(|addrs|, i requires 0 <= i < |addrs| => Crashes(suite, users, addrs[i], dht, i))
  }

  /** How many of the addresses are polled through: all of them, or those before the first crash. */
  function PolledThrough(suite: Suite, users: seq<User>, addrs: seq<string>, dht: Dht): nat {
    FirstTrue(CrashFlags(suite, users, addrs, dht))
  }

  /** A poll goes on exactly up to the first address that is one, has a value and an owner, and whose value's check panics. */
  lemma PollStopsExactly(suite: Suite, users: seq<User>, addrs: seq<string>, dht: Dht, n: nat)
    ensures PolledThrough(suite, users, addrs, dht) == n <==>
            && n <= |addrs|
            && (forall i :: 0 <= i < n ==>
                  || Address.Parse(suite.sha256, addrs[i]).Err? || dht.get(addrs[i]).None? || UserByPubkey(users, addrs[i]).None?
                  || !VerifyPanics(suite, dht.get(addrs[i]).value, dht.clock(i)))
            && (n < |addrs| ==>
                  && Address.Parse(suite.sha256, addrs[n]).Ok? && dht.get(addrs[n]).Some? && UserByPubkey(users, addrs[n]).Some?
                  && VerifyPanics(suite, dht.get(addrs[n]).value, dht.clock(n)))
  {
    hide Address.Parse, VerifyPanics, UserByPubkey;
    var flags, at := CrashFlags(suite, users, addrs, dht), PolledThrough(suite, users, addrs, dht);
    assert forall i :: 0 <= i < at ==> !flags[i];
    assert at < |flags| ==> flags[at];
    assert at < n <= |addrs| ==> flags[at];
    assert n < at ==> !flags[n];
  }

  /** Packets that arrive for users of this list. */
  ghost predicate ForUsers(evs: seq<Event>, users: seq<User>) {
    forall i :: 0 <= i < |evs| ==> evs[i].Arrive? && exists u :: u in users && u.id == evs[i].user
  }

  lemma ArrivalForUsers(suite: Suite, users: seq<User>, addr: string, dht: Dht, at: nat)
    ensures ForUsers(Arrival(suite, users, addr, dht, at), users)
  {
    hide Address.Parse, SenderOf, Seconds;
  }

  lemma ForUsersConcat(a: seq<Event>, b: seq<Event>, users: seq<User>)
    requires ForUsers(a, users) && ForUsers(b, users)
    ensures ForUsers(a + b, users)
  {
  }

  function Arrivals(suite: Suite, users: seq<User>, addrs: seq<string>, dht: Dht): (evs: seq<Event>)
    ensures ForUsers(evs, users)
  {
    if addrs == [] then []
    else
      var init, last := Arrivals(suite, users, addrs[..|addrs| - 1], dht), Arrival(suite, users, addrs[|addrs| - 1], dht, |addrs| - 1);
      ArrivalForUsers(suite, users, addrs[|addrs| - 1], dht, |addrs| - 1);
      ForUsersConcat(init, last, users);
      init + last
  }

  function Arrived(db: Db, evs: seq<Event>): Db
    requires forall i :: 0 <= i < |evs| ==> evs[i].Arrive?
  {
    if evs == [] then db
    else
      var e := evs[|evs| - 1];
      AddPending(Arrived(db, evs[..|evs| - 1]), e.user, e.data, e.sender, e.now)
  }

  datatype DeliverError = BodyTooLarge | InvalidPacket | NoSuchRecipient

  /** What handleFederationDeliver does with a packet: the arrival it stores, or why it refuses. */
  function Accepted(suite: Suite, users: seq<User>, data: bytes, now: int): Result<Event, DeliverError> {
    if |data| > Packet.MAX_PACKET_SIZE then Err(BodyTooLarge)
    else match Packet.ReadAndVerify(suite, data, now)
      case Err(_) => Err(InvalidPacket)
      case Ok(p) =>
        match UserByPubkey(users, Address.Of(suite.sha256, p.recipientPubkey))
        case None => Err(NoSuchRecipient)
        case Some(u) => Ok(Arrive(u.id, data, Address.Of(suite.sha256, p.senderPubkey), Seconds(now)))
  }

  /**
   * A packet handed over is taken exactly when it has at most 262144 bytes, is a packet that Verify
   * accepts - so its signature checks under the sender it names - and some user has the address of
   * its recipient key; it is taken for him, under the sender's address and in whole seconds.
   */
  lemma AcceptedExactly(suite: Suite, users: seq<User>, data: bytes, now: int, ev: Event)
    ensures Accepted(suite, users, data, now) == Ok(ev) <==>
            && |data| <= 262144 && UnmarshalPacket(data).Some?
            && var p := UnmarshalPacket(data).value;
               && Packet.Verify(suite, p, now) == Ok(())
               && var u := UserByPubkey(users, Address.Of(suite.sha256, p.recipientPubkey));
                  u.Some? && ev == Arrive(u.value.id, data, Address.Of(suite.sha256, p.senderPubkey), now / 1_000_000_000)
    ensures Accepted(suite, users, data, now) == Ok(ev) ==>
              var p := UnmarshalPacket(data).value;
              |p.senderPubkey| == 32 && suite.checkSignature(p.senderPubkey, Packet.SignableBytesWithNonce(p), p.signature)
  {
    hide UnmarshalPacket, Packet.Verify, Packet.SignableBytesWithNonce, Packet.ReadAndVerify, Address.Of, UserByPubkey;
    if UnmarshalPacket(data).Some? { Packet.ReadExactly(suite, data, now, UnmarshalPacket(data).value); }
    ReadsOnlyPackets(suite, data, now);
  }

  /** The refusals in the order size, packet, recipient. */
  lemma RefusedExactly(suite: Suite, users: seq<User>, data: bytes, now: int)
    ensures var r, parsed := Accepted(suite, users, data, now), UnmarshalPacket(data);
      var verified := parsed.Some? && Packet.Verify(suite, parsed.value, now) == Ok(());
      && (r == Err(BodyTooLarge) <==> |data| > 262144)
      && (r == Err(InvalidPacket) <==> |data| <= 262144 && !verified)
      && (r == Err(NoSuchRecipient) <==>
            && |data| <= 262144 && verified
            && forall u :: u in users ==> u.pubkey != Address.Of(suite.sha256, parsed.value.recipientPubkey))
  {
    hide UnmarshalPacket, Packet.Verify, Packet.ReadAndVerify, Address.Of, Packet.SignableBytesWithNonce;
    if UnmarshalPacket(data).Some? { Packet.ReadExactly(suite, data, now, UnmarshalPacket(data).value); }
    ReadsOnlyPackets(suite, data, now);
    if Accepted(suite, users, data, now).Ok? {
      var u := UserByPubkey(users, Address.Of(suite.sha256, UnmarshalPacket(data).value.recipientPubkey));
      assert u.value in users;
    }
  }

  /**
   * The packet is signed by the sender it names, its recipient key is the user's, and it has been
   * put at the end of the pending packets: for that user, with these bytes, the sender's address and
   * the second, unprocessed; everything else is as it was.
   */
  ghost predicate TakenOver(suite: Suite, db: Db, db': Db, data: bytes, now: int, u: User) {
    && UnmarshalPacket(data).Some?
    && var p := UnmarshalPacket(data).value;
       && |p.senderPubkey| == 32 && suite.checkSignature(p.senderPubkey, Packet.SignableBytesWithNonce(p), p.signature)
       && u in db.users && u.pubkey == Address.Of(suite.sha256, p.recipientPubkey)
       && db' == db.(pending := db.pending +
            [Pending(|db.pending| + 1, u.id, data, Address.Of(suite.sha256, p.senderPubkey), now / 1_000_000_000, false)])
  }

  lemma ReadsOnlyPackets(suite: Suite, data: bytes, now: int)
    ensures Packet.ReadAndVerify(suite, data, now).Ok? ==>
              UnmarshalPacket(data).Some? && Packet.ReadAndVerify(suite, data, now).value == UnmarshalPacket(data).value
  {
    hide UnmarshalPacket, Packet.Verify;
  }

  /** A polled packet is stored under the address of the key that signed it, and without a sender unless it is accepted. */
  lemma SenderExactly(suite: Suite, data: bytes, now: int)
    ensures SenderOf(suite, data, now) ==
            if UnmarshalPacket(data).Some? && Packet.Verify(suite, UnmarshalPacket(data).value, now) == Ok(())
            then Address.Of(suite.sha256, UnmarshalPacket(data).value.senderPubkey) else ""
    ensures UnmarshalPacket(data).Some? ==>
              var p := UnmarshalPacket(data).value;
              !suite.checkSignature(p.senderPubkey, Packet.SignableBytesWithNonce(p), p.signature) ==>
                SenderOf(suite, data, now) == ""
  {
    hide UnmarshalPacket, Packet.Verify, Packet.SignableBytesWithNonce, Packet.ReadAndVerify, Address.Of;
    if UnmarshalPacket(data).Some? { Packet.ReadExactly(suite, data, now, UnmarshalPacket(data).value); }
    ReadsOnlyPackets(suite, data, now);
  }

  /** What a user's private key makes of a raw packet. */
  function MailOf(suite: Suite, data: bytes, seed: Key): Option<Mail> {
    match Packet.OpenRaw(suite, data, seed)
    case Err(_) => None
    case Ok(p) => Some(Mail(Text(p.messageId), Text(p.subject), Text(p.body)))
  }

  /** A packet is mail for the holder of a key exactly when it opens with it; the mail is the payload's id, subject and body. */
  lemma MailExactly(suite: Suite, data: bytes, seed: Key, m: Mail)
    ensures MailOf(suite, data, seed) == Some(m) <==>
            && Packet.OpenRaw(suite, data, seed).Ok?
            && var p := Packet.OpenRaw(suite, data, seed).value;
               m.id == Text(p.messageId) && m.subject == Text(p.subject) && m.body == Text(p.body)
  {
    hide Packet.OpenRaw;
  }

  /** A session holds its user's own keys: the address is the registered one, and `env` says what they open. */
  ghost predicate KeysMatch(suite: Suite, sessions: Sessions, users: seq<User>, env: Env) {
    forall u :: u in sessions ==>
      && UserById(users, u).Some? && UserById(users, u).value.pubkey == Address.Of(suite.sha256, sessions[u].publicKey)
      && forall data: bytes :: env.open(u, data) == MailOf(suite, data, sessions[u].seed)
  }

  // ---------- the daemon object ----------

  class Daemon {
    const suite: Suite
    const store: S.Store
    var sessions: Sessions
    var pendingPoW: int
    /** The names resolved so far and their addresses. */
    var names: map<string, string>
    /** What each user's key opens, whether the user is logged in or not. */
    ghost const env: Env

    ghost predicate Sound()
      reads this, store
    {
      Valid(store.db) && KeysMatch(suite, sessions, store.db.users, env)
    }

    constructor (suite: Suite, store: S.Store, ghost env: Env)
      requires Valid(store.db)
      ensures this.suite == suite && this.store == store && this.env == env
      ensures sessions == map[] && names == map[] && pendingPoW == 0 && Sound()
    {
      this.suite, this.store, this.env := suite, store, env;
      sessions, names, pendingPoW := map[], map[], 0;
    }

    /** A login has decrypted the user's own key pair. */
    method StartSession(user: string, keys: KeyPair)
      requires Sound() && KeysMatch(suite, map[user := keys], store.db.users, env)
      modifies this`sessions
      ensures Sound() && sessions == old(sessions)[user := keys]
    {
      hide MailOf, Valid, Address.Of;
      sessions := sessions[user := keys];
    }

    method EndSession(user: string)
      requires Sound()
      modifies this`sessions
      ensures Sound() && sessions == old(sessions) - {user}
    {
      hide MailOf, Valid, Address.Of;
      sessions := sessions - {user};
    }

    /**
     * SendMessageForUser up to its return: a local delivery is complete, otherwise a background
     * task is counted and its letter returned.
     */
    method SendMessageForUser(user: string, recipientAddr: string, o: Outgoing) returns (r: Result<Option<Letter>, SendError>)
      requires Sound()
      modifies this`pendingPoW, store
      ensures Sound()
      ensures match DirectRequest(suite, sessions, user, recipientAddr, o)
        case Err(e) => r == Err(e) && store.db == old(store.db) && pendingPoW == old(pendingPoW)
        case Ok(t) =>
          var (db', t') := SendRun(old(store.db), t);
          && store.db == db'
          && r == Ok(if t'.Push? then Some(t.l) else None)
          && pendingPoW == old(pendingPoW) + (if t'.Push? then 1 else 0)
    {
      hide Address.Of, Address.Parse, Valid, SaveFor, SetStatus, KeysMatch, SendRun;
      if user !in sessions {
        return Err(NoSession);
      }
      var parsed := Address.PubKeyFromAddress(suite.sha256, recipientAddr);
      if parsed.Err? {
        return Err(BadAddress(parsed.error));
      }
      var senderAddr := Address.Address(suite.sha256, sessions[user].publicKey);
      var subject, body, replyToId := Text(o.subject), Text(o.body), Text(o.replyToId);
      ghost var l := LetterTo(suite, sessions[user], user, recipientAddr, o);
      var sentMsg := Message(o.msgId, "sent", senderAddr, recipientAddr, subject, body, o.now, true, replyToId, "", "sending");
      assert sentMsg == SentCopy(l);
      var _ := store.SaveMessageForUser(user, sentMsg);
      var local := store.GetUserByPubkey(recipientAddr);
      if local.Some? {
        var inboxMsg := Message(o.msgId, "inbox", senderAddr, recipientAddr, subject, body, o.now, false, replyToId, "", "");
        assert inboxMsg == InboxCopy(l);
        var _ := store.SaveMessageForUser(local.value.id, inboxMsg);
        store.UpdateMessageStatusForUser(user, o.msgId, "delivered");
        WritesKeepUsers(old(store.db), user, SentCopy(l), "", "");
        ghost var db1 := SaveFor(old(store.db), user, SentCopy(l));
        WritesKeepUsers(db1, local.value.id, InboxCopy(l), "", "");
        WritesKeepUsers(SaveFor(db1, local.value.id, InboxCopy(l)), "", SentCopy(l), Like.Key(user, o.msgId), "delivered");
        LocalSend(old(store.db), l);
        return Ok(None);
      }
      pendingPoW := pendingPoW + 1;
      WritesKeepUsers(old(store.db), user, SentCopy(l), "", "");
      RemoteSend(old(store.db), l);
      return Ok(Some(Letter(user, o.msgId, senderAddr, recipientAddr, subject, body, o.now, replyToId)));
    }

    /** SendMessageFederated up to its return; `resolved` is what the remote server answered. */
    method SendMessageFederated(user: string, resolved: Option<string>, o: Outgoing) returns (r: Result<Letter, SendError>)
      requires Sound()
      modifies this`pendingPoW, store
      ensures Sound()
      ensures match FederatedRequest(suite, sessions, user, resolved, o)
        case Err(e) => r == Err(e) && store.db == old(store.db) && pendingPoW == old(pendingPoW)
        case Ok(t) =>
          var (db', t') := SendRun(old(store.db), t);
          store.db == db' && t' == Push(t.l) && r == Ok(t.l) && pendingPoW == old(pendingPoW) + 1
    {
      hide Address.Of, Address.Parse, Valid, SaveFor, SetStatus, KeysMatch;
      if user !in sessions {
        return Err(NoSession);
      }
      if resolved.None? {
        return Err(Unresolved);
      }
      var recipientAddr := resolved.value;
      var parsed := Address.PubKeyFromAddress(suite.sha256, recipientAddr);
      if parsed.Err? {
        return Err(BadAddress(parsed.error));
      }
      var senderAddr := Address.Address(suite.sha256, sessions[user].publicKey);
      var l := Letter(user, o.msgId, senderAddr, recipientAddr, Text(o.subject), Text(o.body), o.now, Text(o.replyToId));
      var sentMsg := Message(o.msgId, "sent", senderAddr, recipientAddr, l.subject, l.body, o.now, true, l.replyToId, "", "sending");
      var _ := store.SaveMessageForUser(user, sentMsg);
      WritesKeepUsers(old(store.db), user, SentCopy(l), "", "");
      FederatedSend(old(store.db), l);
      pendingPoW := pendingPoW + 1;
      return Ok(l);
    }

    /** The goroutine of SendMessageForUser: build the packet, push it, record that it was sent. */
    method PushInBackground(l: Letter, d: Packet.Draft, keys: KeyPair, recipientPub: bytes, dhtTakes: bool)
      requires Sound()
      modifies this`pendingPoW, store
      ensures Sound() && pendingPoW == old(pendingPoW) - 1
      ensures store.db == StepLetter(old(store.db), Push(l), PushOutcome(suite, d, keys, recipientPub, dhtTakes)).0
    {
      hide Packet.Built, MarshalPacket, Valid, SetStatus, KeysMatch;
      var built := Packet.Build(suite, d, keys, recipientPub, Pow.DEFAULT_DIFFICULTY);
      if built.Ok? && |MarshalPacket(built.value)| <= Packet.MAX_PACKET_SIZE && dhtTakes {
        store.UpdateMessageStatusForUser(l.sender, l.msgId, "sent");
        WritesKeepUsers(old(store.db), "", SentCopy(l), Like.Key(l.sender, l.msgId), "sent");
      }
      pendingPoW := pendingPoW - 1;
    }

    /** The goroutine of SendMessageFederated: the recipient's server first, the DHT if it refuses. */
    method DeliverInBackground(l: Letter, d: Packet.Draft, keys: KeyPair, recipientPub: bytes, serverTakes: bool, dhtTakes: bool)
      requires Sound()
      modifies this`pendingPoW, store
      ensures Sound() && pendingPoW == old(pendingPoW) - 1
      ensures store.db == StepLetter(old(store.db), Push(l),
                if Packet.Built(suite, d, keys, recipientPub, Pow.DEFAULT_DIFFICULTY).Ok? && serverTakes then ByFederation
                else PushOutcome(suite, d, keys, recipientPub, dhtTakes)).0
    {
      hide Packet.Built, MarshalPacket, Valid, SetStatus, KeysMatch;
      var built := Packet.Build(suite, d, keys, recipientPub, Pow.DEFAULT_DIFFICULTY);
      if built.Ok? {
        if serverTakes {
          store.UpdateMessageStatusForUser(l.sender, l.msgId, "delivered");
          WritesKeepUsers(old(store.db), "", SentCopy(l), Like.Key(l.sender, l.msgId), "delivered");
        } else if |MarshalPacket(built.value)| <= Packet.MAX_PACKET_SIZE && dhtTakes {
          store.UpdateMessageStatusForUser(l.sender, l.msgId, "sent");
          WritesKeepUsers(old(store.db), "", SentCopy(l), Like.Key(l.sender, l.msgId), "sent");
        }
      }
      pendingPoW := pendingPoW - 1;
    }

    /** ResolveNameForUser: a name once resolved keeps its address, whatever the DHT says later. */
    method ResolveNameForUser(net: Net, full: string) returns (r: Option<string>)
      requires Sound()
      modifies this`names
      ensures Sound()
      ensures var name := Names.ToLower(Federation.TrimSuffix(full, ".dmail"));
        && r == Resolved(suite, old(names), net, name)
        && (r.Some? ==> names == old(names)[name := r.value])
        && (r.None? ==> names == old(names))
      ensures forall n :: n in old(names) ==> n in names && names[n] == old(names)[n]
    {
      hide NodeResolve, Address.Of;
      var name := Names.ToLower(Federation.TrimSuffix(full, ".dmail"));
      if name in names {
        assert names == names[name := names[name]];
        return Some(names[name]);
      }
      var key := NodeResolve(suite, net.getName(name));
      if key.None? {
        return None;
      }
      var addr := Address.Address(suite.sha256, key.value);
      names := names[name := addr];
      return Some(addr);
    }

    /** handleMTSendMessage: the recipient's form decides which way the message goes. */
    method HandleSendMessage(net: Net, user: string, recipient: string, o: Outgoing) returns (r: Result<(), SendError>)
      requires Sound()
      modifies this`pendingPoW, this`names, store
      ensures Sound()
      ensures forall n :: n in old(names) ==> n in names && names[n] == old(names)[n]
      ensures match Request(suite, sessions, old(names), net, user, recipient, o)
        case Err(e) => r == Err(e) && store.db == old(store.db) && pendingPoW == old(pendingPoW)
        case Ok(t) =>
          var (db', t') := SendRun(old(store.db), t);
          && r == Ok(()) && store.db == db'
          && pendingPoW == old(pendingPoW) + (if t'.Push? then 1 else 0)
    {
      hide *;
      RequestParts(suite, sessions, names, net, user, recipient, o);
      if recipient == "" || o.subject == [] {
        return Err(MissingField);
      }
      var direct := recipient;
      match Federation.Dispatch(recipient) {
        case Federated(name, host) =>
          var sent := SendMessageFederated(user, net.resolveUser(name, host), o);
          return if sent.Err? then Err(sent.error) else Ok(());
        case Named(name) =>
          var addr := ResolveNameForUser(net, recipient);
          if addr.None? {
            return Err(Unresolved);
          }
          direct := addr.value;
        case Direct(addr) =>
          direct := addr;
      }
      var sent := SendMessageForUser(user, direct, o);
      return if sent.Err? then Err(sent.error) else Ok(());
    }

    /** One round of the loop below: the packet's message is saved if the session's key opens it, and the packet is marked. */
    method ProcessPacket(user: string, pp: Pending)
      requires Sound() && user in sessions
      modifies store
      ensures Sound() && store.db.users == old(store.db.users)
      ensures store.db ==
        match env.open(user, pp.rawData)
        case None => MarkProcessed(old(store.db), pp.id)
        case Some(m) => MarkProcessed(SaveFor(old(store.db), user, PacketCopy(old(store.db), user, pp, m)), pp.id)
    {
      hide Valid, SaveFor, MarkProcessed, KeysMatch, MailOf, PacketCopy, AddressOf, Packet.OpenRaw, Address.Of, Text, SetStatus;
      ghost var before := store.db;
      var payload := Packet.OpenRaw(suite, pp.rawData, sessions[user].seed);
      OpenedCopy(suite, sessions, before, env, user, pp);
      MarkKeepsUsers(before, pp.id);
      if payload.Err? {
        store.MarkPacketProcessed(pp.id);
      } else {
        var p := payload.value;
        var recipient := Address.Address(suite.sha256, sessions[user].publicKey);
        var msg := Message(Text(p.messageId), "inbox", pp.sender, recipient, Text(p.subject), Text(p.body),
                           pp.receivedAt, false, "", "", "");
        var _ := store.SaveMessageForUser(user, msg);
        WritesKeepUsers(before, user, msg, "", "");
        MarkKeepsUsers(store.db, pp.id);
        store.MarkPacketProcessed(pp.id);
      }
    }

    /** ProcessPendingPackets: afterwards the user has no unprocessed packet left. */
    method ProcessPendingPackets(user: string) returns (ghost packets: seq<Pending>)
      requires Sound()
      modifies store
      ensures Sound()
      ensures user !in sessions ==> store.db == old(store.db)
      ensures user in sessions ==>
        && S.IsBacklog(old(store.db), user, packets)
        && store.db == ProcessRun(env, old(store.db), Process(user, packets, 0, false))
        && S.IsBacklog(store.db, user, [])
    {
      hide Valid, ProcessRun, SaveFor, MarkProcessed, KeysMatch, PacketCopy, S.IsBacklog;
      packets := [];
      if user !in sessions {
        return;
      }
      var backlog := store.GetPendingPackets(user);
      packets := backlog;
      ghost var whole := ProcessRun(env, store.db, Process(user, backlog, 0, false));
      for i := 0 to |backlog|
        invariant Sound() && store.db.users == old(store.db.users)
        invariant ProcessRun(env, store.db, Process(user, backlog, i, false)) == whole
      {
        OnePacket(env, store.db, user, backlog, i);
        ProcessPacket(user, backlog[i]);
      }
      RunEnds(env, store.db, user, backlog);
      ProcessingClears(env, old(store.db), user, backlog);
    }

    /**
     * doPollAll: each registered address is polled, and a packet found is stored for its user unread,
     * up to the first whose check panics.
     */
    method DoPollAll(dht: Dht) returns (crashed: bool)
      requires Sound()
      modifies store
      ensures Sound()
      ensures var users, addrs := old(store.db.users), PubkeysOf(old(store.db.users));
        var n := PolledThrough(suite, users, addrs, dht);
        n <= |addrs| && crashed == (n < |addrs|) && store.db == Arrived(old(store.db), Arrivals(suite, users, addrs[..n], dht))
    {
      hide Valid, KeysMatch, Address.Parse, AddPending, SenderOf, VerifyPanics, Arrived, Arrivals, Seconds, FirstTrue, CrashFlags;
      NothingPolled(suite, store.db, dht);
      var addrs := PubkeysOf(store.db.users);
      ghost var users := store.db.users;
      ghost var n := PolledThrough(suite, users, addrs, dht);
      for i := 0 to |addrs|
        invariant Valid(store.db) && store.db.users == users && i <= n
        invariant store.db == Arrived(old(store.db), Arrivals(suite, users, addrs[..i], dht))
      {
        var pkAddr := addrs[i];
        ghost var before := store.db;
        PolledOneMore(suite, old(store.db), users, addrs, dht, i);
        var pubKey := Address.PubKeyFromAddress(suite.sha256, pkAddr);
        var data := dht.get(pkAddr);
        if pubKey.Ok? && data.Some? {
          var owner := store.GetUserByPubkey(pkAddr);
          if owner.Some? {
            if VerifyPanics(suite, data.value, dht.clock(i)) {
              assert Crashes(suite, users, pkAddr, dht, i);
              return true;
            }
            var sender := SenderOf(suite, data.value, dht.clock(i));
            store.SavePendingPacket(owner.value.id, data.value, sender, Seconds(dht.clock(i)));
            ArrivalKeepsUsers(before, owner.value.id, data.value, sender, Seconds(dht.clock(i)));
          }
        }
        assert !Crashes(suite, users, pkAddr, dht, i);
      }
      assert addrs[..|addrs|] == addrs;
      return false;
    }

    /**
     * handleFederationDeliver; the result says whether the recipient is logged in, in which case
     * his packets are processed at once.
     */
    method HandleFederationDeliver(data: bytes, now: int) returns (r: Result<bool, DeliverError>)
      requires Sound()
      modifies store
      ensures Sound()
      ensures match Accepted(suite, old(store.db.users), data, now)
        case Err(e) => r == Err(e) && store.db == old(store.db)
        case Ok(ev) => r == Ok(ev.user in sessions) && store.db == Arrived(old(store.db), [ev])
      ensures r.Ok? ==> exists u :: TakenOver(suite, old(store.db), store.db, data, now, u) && r.value == (u.id in sessions)
    {
      hide Valid, KeysMatch, Packet.ReadAndVerify, Address.Of, UnmarshalPacket, Packet.SignableBytesWithNonce;
      if |data| > Packet.MAX_PACKET_SIZE {
        return Err(BodyTooLarge);
      }
      var pkt := Packet.ReadAndVerify(suite, data, now);
      if pkt.Err? {
        return Err(InvalidPacket);
      }
      ReadsOnlyPackets(suite, data, now);
      Packet.ReadExactly(suite, data, now, pkt.value);
      var recipientAddr := Address.Address(suite.sha256, pkt.value.recipientPubkey);
      var user := store.GetUserByPubkey(recipientAddr);
      if user.None? {
        return Err(NoSuchRecipient);
      }
      var senderAddr := Address.Address(suite.sha256, pkt.value.senderPubkey);
      store.SavePendingPacket(user.value.id, data, senderAddr, Seconds(now));
      ArrivalKeepsUsers(old(store.db), user.value.id, data, senderAddr, Seconds(now));
      assert TakenOver(suite, old(store.db), store.db, data, now, user.value);
      return Ok(user.value.id in sessions);
    }

    /** handleMTMarkRead: the flag, then the receipt to a local sender. */
    method HandleMarkRead(user: string, id: string)
      requires Sound()
      modifies store
      ensures Sound() && store.db == ReadRun(old(store.db), SetReadFlag(user, id))
    {
      hide Valid, KeysMatch, SetRead, SetStatus, ReadRun;
      var scopedID := Like.Key(user, id);
      store.MarkRead(scopedID);
      ReadUnfolds(old(store.db), user, id);
      var msg := store.GetMessage(scopedID);
      if msg.Some? {
        var senderUser := store.GetUserByPubkey(msg.value.sender);
        if senderUser.Some? {
          store.UpdateMessageStatusForUser(senderUser.value.id, id, "read");
        }
      }
    }

    method HandleDeleteMessage(user: string, id: string)
      requires Sound()
      modifies store
      ensures Sound() && store.db == StepRead(old(store.db), SetTrash(user, id)).0
      ensures var k := user + ":" + id;
        store.db.messages == if k in old(store.db.messages)
          then old(store.db.messages)[k := old(store.db.messages)[k].(msg := old(store.db.messages)[k].msg.(folder := "trash"))]
          else old(store.db.messages)
    {
      hide Valid, KeysMatch, Trash;
      store.DeleteMessage(Like.Key(user, id));
      TrashKeepsUsers(old(store.db), Like.Key(user, id));
    }

    /** handleMTGetMessage: the id returned is the key, with the user's prefix. */
    method HandleGetMessage(user: string, id: string) returns (r: Option<Message>)
      requires Sound()
      ensures r.Some? <==> Like.Key(user, id) in store.db.messages
      ensures r.Some? ==> r.value == store.db.messages[Like.Key(user, id)].msg && r.value.id == Like.Key(user, id)
    {
      r := store.GetMessage(Like.Key(user, id));
    }
  }

  function PubkeysOf(users: seq<User>): (addrs: seq<string>)
    ensures |addrs| == |users| && forall i :: 0 <= i < |users| ==> addrs[i] == users[i].pubkey
  {
    seq(|users|, i requires 0 <= i < |users| => users[i].pubkey)
  }

  /** Node.Push: the packet must have been built and fit, and the DHT must take it. */
  function PushOutcome(suite: Suite, d: Packet.Draft, keys: KeyPair, recipientPub: bytes, dhtTakes: bool): Outcome {
    var built := Packet.Built(suite, d, keys, recipientPub, Pow.DEFAULT_DIFFICULTY);
    if built.Ok? && |MarshalPacket(built.value)| <= Packet.MAX_PACKET_SIZE && dhtTakes then ByDht else Lost
  }

  // ---------- what the methods' loops and branches need ----------

  lemma WritesKeepUsers(db: Db, user: string, m: Message, k: string, status: string)
    ensures SaveFor(db, user, m).users == db.users && SetStatus(db, k, status).users == db.users
  {
  }

  lemma LocalSend(db: Db, l: Letter)
    requires UserByPubkey(SaveFor(db, l.sender, SentCopy(l)).users, l.recipientAddr).Some?
    ensures var db1 := SaveFor(db, l.sender, SentCopy(l));
      var to := UserByPubkey(db1.users, l.recipientAddr).value.id;
      SendRun(db, SaveSent(l)) == (SetStatus(SaveFor(db1, to, InboxCopy(l)), Like.Key(l.sender, l.msgId), "delivered"), Delivered(l, to))
  {
    hide SaveFor, SetStatus, SentCopy, InboxCopy;
    var db1 := SaveFor(db, l.sender, SentCopy(l));
    var to := UserByPubkey(db1.users, l.recipientAddr).value.id;
    var db2 := SaveFor(db1, to, InboxCopy(l));
    assert SendRun(db2, Confirm(l, to)) == (SetStatus(db2, Like.Key(l.sender, l.msgId), "delivered"), Delivered(l, to));
    assert SendRun(db1, SaveInbox(l, to)) == SendRun(db2, Confirm(l, to));
    assert SendRun(db1, LookUp(l)) == SendRun(db1, SaveInbox(l, to));
  }

  lemma RemoteSend(db: Db, l: Letter)
    requires UserByPubkey(SaveFor(db, l.sender, SentCopy(l)).users, l.recipientAddr).None?
    ensures SendRun(db, SaveSent(l)) == (SaveFor(db, l.sender, SentCopy(l)), Push(l))
  {
    hide SaveFor, SentCopy;
    var db1 := SaveFor(db, l.sender, SentCopy(l));
    assert SendRun(db1, LookUp(l)) == SendRun(db1, Push(l)) == (db1, Push(l));
  }

  lemma RequestParts(suite: Suite, sessions: Sessions, names: map<string, string>, net: Net,
                     user: string, recipient: string, o: Outgoing)
    ensures Federation.Dispatch(recipient).Named? ==>
      Federation.Dispatch(recipient).name == Names.ToLower(Federation.TrimSuffix(recipient, ".dmail"))
    ensures Request(suite, sessions, names, net, user, recipient, o) ==
      if recipient == "" || o.subject == [] then Err(MissingField)
      else match Federation.Dispatch(recipient)
        case Federated(name, host) => FederatedRequest(suite, sessions, user, net.resolveUser(name, host), o)
        case Named(name) =>
          (if Resolved(suite, names, net, name).None? then Err(Unresolved)
           else DirectRequest(suite, sessions, user, Resolved(suite, names, net, name).value, o))
        case Direct(addr) => DirectRequest(suite, sessions, user, addr, o)
  {
    hide Federation.ParseFederatedAddress, Federation.TrimSuffix, Federation.HasSuffix, DirectRequest, FederatedRequest, Resolved;
  }

  lemma FederatedSend(db: Db, l: Letter)
    ensures SendRun(db, SaveFederated(l)) == (SaveFor(db, l.sender, SentCopy(l)), Push(l))
  {
    hide SaveFor, SentCopy;
    var db1 := SaveFor(db, l.sender, SentCopy(l));
    assert SendRun(db1, Push(l)) == (db1, Push(l));
  }

  lemma MarkKeepsUsers(db: Db, id: nat)
    ensures MarkProcessed(db, id).users == db.users
  {
  }

  lemma TrashKeepsUsers(db: Db, k: string)
    ensures Trash(db, k).users == db.users
  {
  }

  lemma ArrivalKeepsUsers(db: Db, user: string, data: bytes, sender: string, now: int)
    ensures AddPending(db, user, data, sender, now).users == db.users
  {
  }

  lemma NothingPolled(suite: Suite, db: Db, dht: Dht)
    ensures Arrived(db, Arrivals(suite, db.users, [], dht)) == db
  {
  }

  lemma {:induction false} PolledOneMore(suite: Suite, db: Db, users: seq<User>, addrs: seq<string>, dht: Dht, i: nat)
    requires i < |addrs|
    ensures var before, after := Arrived(db, Arrivals(suite, users, addrs[..i], dht)), Arrived(db, Arrivals(suite, users, addrs[..i + 1], dht));
      if Address.Parse(suite.sha256, addrs[i]).Err? || dht.get(addrs[i]).None? || UserByPubkey(users, addrs[i]).None? then after == before
      else after == AddPending(before, UserByPubkey(users, addrs[i]).value.id, dht.get(addrs[i]).value,
                               SenderOf(suite, dht.get(addrs[i]).value, dht.clock(i)), Seconds(dht.clock(i)))
  {
    hide Address.Parse, AddPending, SenderOf, Arrived;
    var evs := Arrivals(suite, users, addrs[..i], dht);
    assert addrs[..i + 1][..i] == addrs[..i];
    assert Arrivals(suite, users, addrs[..i + 1], dht) == evs + Arrival(suite, users, addrs[i], dht, i);
    var one := Arrival(suite, users, addrs[i], dht, i);
    if one == [] {
      assert evs + one == evs;
    } else {
      ArrivedOneMore(db, evs, one[0]);
    }
  }

  lemma ArrivedOneMore(db: Db, evs: seq<Event>, e: Event)
    requires e.Arrive? && forall i :: 0 <= i < |evs| ==> evs[i].Arrive?
    ensures Arrived(db, evs + [e]) == AddPending(Arrived(db, evs), e.user, e.data, e.sender, e.now)
  {
    hide AddPending;
    assert (evs + [e])[..|evs|] == evs;
  }

  lemma {:induction false} SessionOpens(suite: Suite, sessions: Sessions, db: Db, env: Env, user: string, data: bytes)
    requires KeysMatch(suite, sessions, db.users, env) && user in sessions
    ensures env.open(user, data) == MailOf(suite, data, sessions[user].seed)
    ensures AddressOf(db, user) == Address.Of(suite.sha256, sessions[user].publicKey)
  {
    hide MailOf, Address.Of;
  }

  /** A session's key opens what `env` says, and the row made of it is to the user's own address. */
  lemma OpenedCopy(suite: Suite, sessions: Sessions, db: Db, env: Env, user: string, pp: Pending)
    requires KeysMatch(suite, sessions, db.users, env) && user in sessions
    ensures match Packet.OpenRaw(suite, pp.rawData, sessions[user].seed)
      case Err(_) => env.open(user, pp.rawData) == None
      case Ok(p) =>
        && env.open(user, pp.rawData) == Some(Mail(Text(p.messageId), Text(p.subject), Text(p.body)))
        && PacketCopy(db, user, pp, env.open(user, pp.rawData).value) ==
           Message(Text(p.messageId), "inbox", pp.sender, Address.Of(suite.sha256, sessions[user].publicKey), Text(p.subject),
                   Text(p.body), pp.receivedAt, false, "", "", "")
  {
    hide Packet.OpenRaw, Address.Of, Text, AddressOf, KeysMatch;
    SessionOpens(suite, sessions, db, env, user, pp.rawData);
  }

  /** Two store calls for a packet that opens, one for a packet that does not. */
  lemma OnePacket(env: Env, db: Db, user: string, packets: seq<Pending>, i: nat)
    requires i < |packets|
    ensures var p := packets[i];
      ProcessRun(env, db, Process(user, packets, i, false)) ==
      match env.open(user, p.rawData)
      case None => ProcessRun(env, MarkProcessed(db, p.id), Process(user, packets, i + 1, false))
      case Some(m) => ProcessRun(env, MarkProcessed(SaveFor(db, user, PacketCopy(db, user, p, m)), p.id), Process(user, packets, i + 1, false))
  {
    hide SaveFor, MarkProcessed, PacketCopy;
    var p := packets[i];
    match env.open(user, p.rawData) {
      case None =>
      case Some(m) =>
        var db1 := SaveFor(db, user, PacketCopy(db, user, p, m));
        assert ProcessRun(env, db1, Process(user, packets, i, true)) ==
               ProcessRun(env, MarkProcessed(db1, p.id), Process(user, packets, i + 1, false));
    }
  }

  lemma RunEnds(env: Env, db: Db, user: string, packets: seq<Pending>)
    ensures ProcessRun(env, db, Process(user, packets, |packets|, false)) == db
  {
  }

  lemma ReadUnfolds(db: Db, user: string, id: string)
    ensures var db1, k := SetRead(db, Like.Key(user, id)), Like.Key(user, id);
      && db1.users == db.users
      && (forall k', status :: SetStatus(db1, k', status).users == db.users)
      && ReadRun(db, SetReadFlag(user, id)) ==
         (if k !in db1.messages then db1
          else match UserByPubkey(db1.users, db1.messages[k].msg.sender)
            case None => db1
            case Some(s) => SetStatus(db1, Like.Key(s.id, id), "read"))
  {
    var db1, k := SetRead(db, Like.Key(user, id)), Like.Key(user, id);
    ReadKeepsUsers(db, k);
    hide SetRead, SetStatus;
    assert ReadRun(db, SetReadFlag(user, id)) == ReadRun(db1, GetRead(user, id));
    if k in db1.messages {
      var addr := db1.messages[k].msg.sender;
      assert ReadRun(db1, GetRead(user, id)) == ReadRun(db1, FindSender(user, addr, id));
      match UserByPubkey(db1.users, addr) {
        case None => assert ReadRun(db1, Done(user)) == db1;
        case Some(s) =>
          var db2 := SetStatus(db1, Like.Key(s.id, id), "read");
          assert ReadRun(db1, Receipt(user, s.id, id)) == ReadRun(db2, Done(user)) == db2;
      }
    } else {
      assert ReadRun(db1, Done(user)) == db1;
    }
  }

  lemma ReadKeepsUsers(db: Db, k: string)
    ensures SetRead(db, k).users == db.users
    ensures forall k', status :: SetStatus(SetRead(db, k), k', status).users == db.users
  {
  }

  // ---------- processing the whole backlog ----------

  /** The user's unprocessed packets are all still to come. */
  ghost predicate Remaining(db: Db, user: string, packets: seq<Pending>, at: nat) {
    && at <= |packets|
    && (forall i :: 0 <= i < |db.pending| ==> db.pending[i].id == i + 1)
    && (forall i :: 0 <= i < |db.pending| && db.pending[i].userId == user && !db.pending[i].processed ==>
          exists j :: at <= j < |packets| && packets[j].id == db.pending[i].id)
  }

  lemma BacklogIsFetched(db: Db, user: string, packets: seq<Pending>)
    requires Valid(db) && S.IsBacklog(db, user, packets)
    ensures Remaining(db, user, packets, 0)
  {
    forall i | 0 <= i < |db.pending| && db.pending[i].userId == user && !db.pending[i].processed
      ensures exists j :: 0 <= j < |packets| && packets[j].id == db.pending[i].id
    {
      assert db.pending[i] in packets;
    }
  }

  lemma MarkingReduces(db: Db, user: string, packets: seq<Pending>, at: nat)
    requires at < |packets| && Remaining(db, user, packets, at)
    ensures Remaining(MarkProcessed(db, packets[at].id), user, packets, at + 1)
  {
    var db' := MarkProcessed(db, packets[at].id);
    forall i | 0 <= i < |db'.pending| && db'.pending[i].userId == user && !db'.pending[i].processed
      ensures exists j :: at + 1 <= j < |packets| && packets[j].id == db'.pending[i].id
    {
      var j :| at <= j < |packets| && packets[j].id == db.pending[i].id;
      assert j != at;
    }
  }

  lemma {:induction false} ProcessRunReduces(env: Env, db: Db, user: string, packets: seq<Pending>, at: nat)
    requires Remaining(db, user, packets, at)
    ensures Remaining(ProcessRun(env, db, Process(user, packets, at, false)), user, packets, |packets|)
    decreases |packets| - at
  {
    if at < |packets| {
      hide Remaining, SaveFor, MarkProcessed, ProcessRun;
      var p := packets[at];
      OnePacket(env, db, user, packets, at);
      match env.open(user, p.rawData) {
        case None =>
          MarkingReduces(db, user, packets, at);
          ProcessRunReduces(env, MarkProcessed(db, p.id), user, packets, at + 1);
        case Some(m) =>
          var db1 := SaveFor(db, user, PacketCopy(db, user, p, m));
          SavingKeepsRemaining(db, user, PacketCopy(db, user, p, m), packets, at);
          MarkingReduces(db1, user, packets, at);
          ProcessRunReduces(env, MarkProcessed(db1, p.id), user, packets, at + 1);
      }
    }
  }

  lemma SavingKeepsRemaining(db: Db, user: string, m: Message, packets: seq<Pending>, at: nat)
    requires Remaining(db, user, packets, at)
    ensures Remaining(SaveFor(db, user, m), user, packets, at)
  {
    Processing.SavingGrows(db, user, m);
  }

  /** Run to its end, processing leaves none of the user's packets unprocessed. */
  lemma ProcessingClears(env: Env, db: Db, user: string, packets: seq<Pending>)
    requires Valid(db) && S.IsBacklog(db, user, packets)
    ensures S.IsBacklog(ProcessRun(env, db, Process(user, packets, 0, false)), user, [])
  {
    BacklogIsFetched(db, user, packets);
    ProcessRunReduces(env, db, user, packets, 0);
    hide *;
    NoneRemaining(ProcessRun(env, db, Process(user, packets, 0, false)), user, packets);
  }

  lemma NoneRemaining(db: Db, user: string, packets: seq<Pending>)
    requires Remaining(db, user, packets, |packets|)
    ensures S.IsBacklog(db, user, [])
  {
  }
}
