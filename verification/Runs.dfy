/**
 * The daemon's methods as runs of the machine in `Mailbox`, and a message followed from one server
 * to another.
 */
module Runs {
  import opened Bytes
  import opened Messages
  import opened Tables
  import opened Mailbox
  import opened Letters
  import opened MultiTenant
  import Address
  import Crypto
  import Delivery
  import opened Like
  import Packet
  import Pow
  import Isolation
  import Processing
  import Requests
  import S = Store
  import SearchIndex
  import Searches
  import Views
  import Wire

  lemma RunCons(env: Env, s: State, ev: Event, evs: seq<Event>)
    requires Allowed(s, ev) && IsRun(env, After(env, s, ev), evs)
    ensures IsRun(env, s, [ev] + evs) && End(env, s, [ev] + evs) == End(env, After(env, s, ev), evs)
  {
    hide Allowed, After;
    assert ([ev] + evs)[1..] == evs;
  }

  // ---------- sending ----------

  /** A request the daemon accepts may start: its session makes its sender a registered user under his own address. */
  lemma RequestMayStart(suite: Crypto.Suite, sessions: Sessions, env: Env, names: map<string, string>, net: Net, s: State,
                        user: string, recipient: string, o: Outgoing)
    requires KeysMatch(suite, sessions, s.db.users, env) && FreshId(s, o.msgId)
    requires Request(suite, sessions, names, net, user, recipient, o).Ok?
    ensures MayStart(s, Request(suite, sessions, names, net, user, recipient, o).value)
  {
    hide Address.Of, Address.Parse, FreshId, MailOf;
    assert user in sessions;
    assert UserById(s.db.users, user).Some?;
  }

  lemma SendRunIsARun(env: Env, s: State, i: nat) returns (evs: seq<Event>)
    requires i < |s.tasks|
    requires var t := s.tasks[i]; t.SaveSent? || t.LookUp? || t.SaveInbox? || t.Confirm? || t.SaveFederated? || t.Push? || t.Delivered?
    ensures IsRun(env, s, evs)
    ensures End(env, s, evs) == State(SendRun(s.db, s.tasks[i]).0, s.tasks[i := SendRun(s.db, s.tasks[i]).1])
    decreases CallsLeft(s.tasks[i])
  {
    hide SaveFor, SetStatus;
    var t := s.tasks[i];
    if t.Push? || t.Delivered? {
      evs := [];
      assert s.tasks[i := t] == s.tasks;
    } else {
      var ev := Advance(i, Lost, []);
      var s' := After(env, s, ev);
      assert s' == State(StepLetter(s.db, t, Lost).0, s.tasks[i := StepLetter(s.db, t, Lost).1]);
      var rest := SendRunIsARun(env, s', i);
      evs := [ev] + rest;
      RunCons(env, s, ev, rest);
      assert s'.tasks[i := SendRun(s.db, t).1] == s.tasks[i := SendRun(s.db, t).1];
    }
  }

  /** What the daemon does for a send request, up to its return, is a run of the machine. */
  lemma {:induction false} SendingIsARun(env: Env, s: State, t: Task) returns (evs: seq<Event>)
    requires MayStart(s, t) && (t.SaveSent? || t.SaveFederated?)
    ensures IsRun(env, s, evs)
    ensures End(env, s, evs) == State(SendRun(s.db, t).0, s.tasks + [SendRun(s.db, t).1])
  {
    hide MayStart, SendRun;
    var s' := After(env, s, Start(t));
    var rest := SendRunIsARun(env, s', |s.tasks|);
    evs := [Start(t)] + rest;
    RunCons(env, s, Start(t), rest);
    assert s'.tasks[|s.tasks| := SendRun(s.db, t).1] == s.tasks + [SendRun(s.db, t).1];
  }

  // ---------- reading ----------

  lemma {:induction false} ReadRunIsARun(env: Env, s: State, i: nat) returns (evs: seq<Event>, t': Task)
    requires i < |s.tasks|
    requires var t := s.tasks[i]; t.SetReadFlag? || t.GetRead? || t.FindSender? || t.Receipt? || t.Done?
    ensures IsRun(env, s, evs)
    ensures End(env, s, evs) == State(ReadRun(s.db, s.tasks[i]), s.tasks[i := t'])
    decreases CallsLeft(s.tasks[i])
  {
    hide SetRead, SetStatus;
    var t := s.tasks[i];
    if t.Done? {
      evs, t' := [], t;
      assert s.tasks[i := t] == s.tasks;
    } else {
      var ev := Advance(i, Lost, []);
      var s' := After(env, s, ev);
      assert s' == State(StepRead(s.db, t).0, s.tasks[i := StepRead(s.db, t).1]);
      var rest;
      rest, t' := ReadRunIsARun(env, s', i);
      evs := [ev] + rest;
      RunCons(env, s, ev, rest);
      assert s'.tasks[i := t'] == s.tasks[i := t'];
    }
  }

  // ---------- processing ----------

  lemma ProcessRunIsARun(env: Env, s: State, i: nat) returns (evs: seq<Event>, t': Task)
    requires i < |s.tasks| && s.tasks[i].Process?
    requires var t := s.tasks[i]; t.at <= |t.packets| && (t.saved ==> t.at < |t.packets|)
    ensures IsRun(env, s, evs) && Finished(t')
    ensures End(env, s, evs) == State(ProcessRun(env, s.db, s.tasks[i]), s.tasks[i := t'])
    decreases CallsLeft(s.tasks[i])
  {
    hide SaveFor, MarkProcessed, PacketCopy;
    var t := s.tasks[i];
    if t.at >= |t.packets| {
      evs, t' := [], t;
      assert s.tasks[i := t] == s.tasks;
    } else {
      var ev := Advance(i, Lost, []);
      var s' := After(env, s, ev);
      assert s' == State(StepProcess(env, s.db, t).0, s.tasks[i := StepProcess(env, s.db, t).1]);
      var rest;
      rest, t' := ProcessRunIsARun(env, s', i);
      evs := [ev] + rest;
      RunCons(env, s, ev, rest);
      assert s'.tasks[i := t'] == s.tasks[i := t'];
    }
  }

  /** Processing the backlog is a run of the machine, which fetches it and works it off. */
  lemma ProcessingIsARun(env: Env, s: State, user: string, packets: seq<Pending>) returns (evs: seq<Event>, t': Task)
    requires IsUser(s.db, user) && S.IsBacklog(s.db, user, packets)
    ensures IsRun(env, s, evs) && Finished(t')
    ensures End(env, s, evs) == State(ProcessRun(env, s.db, Process(user, packets, 0, false)), s.tasks + [t'])
  {
    hide ProcessRun, S.IsBacklog, IsUser;
    var i := |s.tasks|;
    var s1 := After(env, s, Start(Fetch(user)));
    var fetch := Advance(i, Lost, packets);
    assert Allowed(s1, fetch);
    var s2 := After(env, s1, fetch);
    assert s2 == State(s.db, s1.tasks[i := Process(user, packets, 0, false)]);
    var rest;
    rest, t' := ProcessRunIsARun(env, s2, i);
    RunCons(env, s1, fetch, rest);
    RunCons(env, s, Start(Fetch(user)), [fetch] + rest);
    evs := [Start(Fetch(user))] + ([fetch] + rest);
    assert s2.tasks[i := t'] == s.tasks + [t'];
  }

  // ---------- arrivals ----------

  lemma {:induction false} RunSnoc(env: Env, s: State, evs: seq<Event>, ev: Event)
    requires IsRun(env, s, evs) && Allowed(End(env, s, evs), ev)
    ensures IsRun(env, s, evs + [ev]) && End(env, s, evs + [ev]) == After(env, End(env, s, evs), ev)
    decreases |evs|
  {
    hide Allowed, After;
    if evs == [] {
      assert [] + [ev] == [ev] + [];
      RunCons(env, s, ev, []);
    } else {
      RunSnoc(env, After(env, s, evs[0]), evs[1..], ev);
      assert evs + [ev] == [evs[0]] + (evs[1..] + [ev]);
      RunCons(env, s, evs[0], evs[1..] + [ev]);
    }
  }

  lemma {:induction false} ArrivedIsARun(env: Env, s: State, evs: seq<Event>)
    requires forall i :: 0 <= i < |evs| ==> evs[i].Arrive? && IsUser(s.db, evs[i].user)
    ensures IsRun(env, s, evs) && End(env, s, evs) == State(Arrived(s.db, evs), s.tasks) && Arrived(s.db, evs).users == s.db.users
  {
    if evs != [] {
      hide IsRun, End, Allowed, After, IsUser, AddPending;
      var init, e := evs[..|evs| - 1], evs[|evs| - 1];
      ArrivedIsARun(env, s, init);
      SameUsers(s.db, End(env, s, init).db, e.user);
      ArriveStep(env, End(env, s, init), e);
      RunSnoc(env, s, init, e);
      assert evs == init + [e];
    }
  }

  lemma SameUsers(db: Db, db': Db, user: string)
    requires db'.users == db.users && IsUser(db, user)
    ensures IsUser(db', user)
  {
  }

  lemma ArriveStep(env: Env, s: State, e: Event)
    requires e.Arrive? && IsUser(s.db, e.user)
    ensures Allowed(s, e) && After(env, s, e) == State(AddPending(s.db, e.user, e.data, e.sender, e.now), s.tasks)
    ensures AddPending(s.db, e.user, e.data, e.sender, e.now).users == s.db.users
  {
  }

  /** A poll of all users is a run of arrivals. */
  lemma PollingIsARun(env: Env, suite: Crypto.Suite, s: State, addrs: seq<string>, dht: Dht)
    ensures var evs := Arrivals(suite, s.db.users, addrs, dht);
      IsRun(env, s, evs) && End(env, s, evs) == State(Arrived(s.db, evs), s.tasks)
  {
    hide Arrived;
    var evs := Arrivals(suite, s.db.users, addrs, dht);
    assert forall i :: 0 <= i < |evs| ==> evs[i].Arrive? && IsUser(s.db, evs[i].user);
    ArrivedIsARun(env, s, evs);
  }

  // ---------- the window is reached ----------

  /** Some run leads from the one state to the other. */
  ghost predicate Leads(env: Env, s: State, s': State) {
    exists evs :: IsRun(env, s, evs) && End(env, s, evs) == s'
  }

  lemma LeadsOn(env: Env, s: State, s': State, ev: Event)
    requires Leads(env, s, s') && Allowed(s', ev)
    ensures Leads(env, s, After(env, s', ev))
  {
    hide IsRun, End, Allowed, After;
    var evs :| IsRun(env, s, evs) && End(env, s, evs) == s';
    RunSnoc(env, s, evs, ev);
  }

  lemma LeadsHere(env: Env, s: State)
    ensures Leads(env, s, s)
  {
    assert IsRun(env, s, []) && End(env, s, []) == s;
  }

  /** Two users, one of whom has written to the other. */
  ghost predicate Correspond(a: User, b: User, l: Letter) {
    && IsTenantId(a.id) && IsTenantId(b.id) && a.id != b.id && a.pubkey != b.pubkey
    && IsLetterId(l.msgId) && l.sender == a.id && l.senderAddr == a.pubkey && l.recipientAddr == b.pubkey
  }

  lemma InboxIsReached(env: Env, a: User, b: User, l: Letter) returns (s: State)
    requires Correspond(a, b, l)
    ensures Leads(env, INITIAL, s) && s.db.users == [a, b] && s.tasks == [Confirm(l, b.id)]
    ensures SaveFor(SaveFor(EMPTY.(users := [a, b]), a.id, SentCopy(l)), b.id, InboxCopy(l)) == s.db
  {
    hide Leads, IsTenantId, IsLetterId, SaveFor;
    LeadsHere(env, INITIAL);
    var s1 := State(EMPTY.(users := [a]), []);
    assert After(env, INITIAL, Signup(a)) == s1;
    LeadsOn(env, INITIAL, INITIAL, Signup(a));
    var s2 := State(EMPTY.(users := [a, b]), []);
    assert [a] + [b] == [a, b] && After(env, s1, Signup(b)) == s2;
    LeadsOn(env, INITIAL, s1, Signup(b));
    TwoUsers(s2.db, a, b);
    var s3 := State(s2.db, [SaveSent(l)]);
    assert After(env, s2, Start(SaveSent(l))) == s3;
    LeadsOn(env, INITIAL, s2, Start(SaveSent(l)));
    s := State(SaveFor(SaveFor(s2.db, a.id, SentCopy(l)), b.id, InboxCopy(l)), [Confirm(l, b.id)]);
    LetterGoesToInbox(env, s2.db, l, b);
    SavingKeepsUsers(s2.db, a.id, SentCopy(l));
    SavingKeepsUsers(SaveFor(s2.db, a.id, SentCopy(l)), b.id, InboxCopy(l));
  }

  /** Three calls of a letter to a local user. */
  lemma LetterGoesToInbox(env: Env, db: Db, l: Letter, b: User)
    requires Leads(env, INITIAL, State(db, [SaveSent(l)])) && UserByPubkey(db.users, l.recipientAddr) == Some(b)
    ensures Leads(env, INITIAL, State(SaveFor(SaveFor(db, l.sender, SentCopy(l)), b.id, InboxCopy(l)), [Confirm(l, b.id)]))
  {
    hide Leads, SaveFor, SentCopy, InboxCopy, UserByPubkey;
    var ev := Advance(0, Lost, []);
    var db1 := SaveFor(db, l.sender, SentCopy(l));
    LeadsOn(env, INITIAL, State(db, [SaveSent(l)]), ev);
    assert After(env, State(db, [SaveSent(l)]), ev) == State(db1, [LookUp(l)]);
    SavingKeepsUsers(db, l.sender, SentCopy(l));
    LeadsOn(env, INITIAL, State(db1, [LookUp(l)]), ev);
    assert After(env, State(db1, [LookUp(l)]), ev) == State(db1, [SaveInbox(l, b.id)]);
    LeadsOn(env, INITIAL, State(db1, [SaveInbox(l, b.id)]), ev);
    assert After(env, State(db1, [SaveInbox(l, b.id)]), ev) == State(SaveFor(db1, b.id, InboxCopy(l)), [Confirm(l, b.id)]);
  }

  lemma SavingKeepsUsers(db: Db, user: string, m: Message)
    ensures SaveFor(db, user, m).users == db.users
  {
    hide Key;
  }

  lemma TwoUsers(db: Db, a: User, b: User)
    requires db.users == [a, b] && a.id != b.id && a.pubkey != b.pubkey
    ensures UserByPubkey(db.users, b.pubkey) == Some(b) && UserByPubkey(db.users, a.pubkey) == Some(a)
    ensures AddressOf(db, a.id) == a.pubkey && AddressOf(db, b.id) == b.pubkey && IsUser(db, a.id) && IsUser(db, b.id)
  {
    assert db.users[1..] == [b];
    assert a in db.users && b in db.users;
  }

  /**
   * The window does open: the recipient can read the inbox copy, and the receipt be on its way,
   * before the local delivery is confirmed. From there the confirmation can come last.
   */
  lemma WindowIsReachable(env: Env, a: User, b: User, l: Letter) returns (s: State)
    requires Correspond(a, b, l)
    ensures Leads(env, INITIAL, s) && s.tasks == [Confirm(l, b.id), Receipt(b.id, a.id, l.msgId)]
    ensures Delivery.SentKey(l) in s.db.messages && Delivery.StatusOf(s.db, l) == "sending"
    ensures IsRun(env, s, [Advance(1, Lost, []), Advance(0, Lost, [])])
    ensures var e := End(env, s, [Advance(1, Lost, []), Advance(0, Lost, [])]);
      Delivery.SentKey(l) in e.db.messages && Delivery.StatusOf(e.db, l) == "delivered"
  {
    hide Leads, IsTenantId, IsLetterId, SaveFor, SetRead, Valid, Like.Key;
    hide IsRun, End, AddressOf, IsUser, Allowed, After;
    var s4 := InboxIsReached(env, a, b, l);
    var k := Like.Key(b.id, l.msgId);
    var db1 := SaveFor(EMPTY.(users := [a, b]), a.id, SentCopy(l));
    SaveForTouches(EMPTY.(users := [a, b]), a.id, SentCopy(l));
    SaveForTouches(db1, b.id, InboxCopy(l));
    Like.KeyIsInjective(a.id, l.msgId, b.id, l.msgId);
    TwoUsers(s4.db, a, b);
    EmptyIsValid(a, b);
    SavedTwice(EMPTY.(users := [a, b]), a.id, SentCopy(l), b.id, InboxCopy(l));
    var s5 := State(s4.db, [Confirm(l, b.id), SetReadFlag(b.id, l.msgId)]);
    ReadMayStart(env, s4, b.id, l.msgId);
    LeadsOn(env, INITIAL, s4, Start(SetReadFlag(b.id, l.msgId)));
    assert s4.tasks + [SetReadFlag(b.id, l.msgId)] == s5.tasks;
    ReadingLeads(env, s5, Confirm(l, b.id), b.id, l.msgId, a);
    var db2 := SetRead(s4.db, k);
    s := State(db2, [Confirm(l, b.id), Receipt(b.id, a.id, l.msgId)]);
    FlagsTouch(s4.db, k);
    SetReadIsValid(s4.db, k);
    Delivery.ReceiptInTheWindowIsLost(env, s, 0, 1, Lost);
  }

  lemma EmptyIsValid(a: User, b: User)
    ensures Valid(EMPTY.(users := [a, b]))
  {
  }

  lemma SavedTwice(db: Db, u: string, m: Message, v: string, n: Message)
    requires Valid(db)
    ensures Valid(SaveFor(SaveFor(db, u, m), v, n))
  {
    hide Valid, Upsert;
    UpsertIsValid(db, Filled(m).(id := Like.Key(u, m.id)));
    UpsertIsValid(SaveFor(db, u, m), Filled(n).(id := Like.Key(v, n.id)));
  }

  lemma ReadMayStart(env: Env, s: State, user: string, id: string)
    requires IsUser(s.db, user)
    ensures Allowed(s, Start(SetReadFlag(user, id)))
    ensures After(env, s, Start(SetReadFlag(user, id))) == State(s.db, s.tasks + [SetReadFlag(user, id)])
  {
    hide Like.Key, AddressOf, IsUser;
  }

  /** Three calls of a read request whose message came from a registered user. */
  lemma ReadingLeads(env: Env, s: State, other: Task, user: string, id: string, from: User)
    requires Leads(env, INITIAL, s) && s.tasks == [other, SetReadFlag(user, id)]
    requires Valid(s.db) && Like.Key(user, id) in s.db.messages && s.db.messages[Like.Key(user, id)].msg.sender == from.pubkey
    requires UserByPubkey(s.db.users, from.pubkey) == Some(from)
    ensures Leads(env, INITIAL, State(SetRead(s.db, Like.Key(user, id)), [other, Receipt(user, from.id, id)]))
  {
    hide Leads, Like.Key, SetRead, Valid;
    var k := Like.Key(user, id);
    var db' := SetRead(s.db, k);
    FlagsTouch(s.db, k);
    var ev := Advance(1, Lost, []);
    LeadsOn(env, INITIAL, s, ev);
    var s1 := State(db', [other, GetRead(user, id)]);
    assert After(env, s, ev) == s1;
    LeadsOn(env, INITIAL, s1, ev);
    var s2 := State(db', [other, FindSender(user, from.pubkey, id)]);
    assert After(env, s1, ev) == s2;
    LeadsOn(env, INITIAL, s2, ev);
    assert After(env, s2, ev) == State(db', [other, Receipt(user, from.id, id)]);
  }

  // ---------- a duplicate packet, and another user's search ----------

  /** A packet stored twice and processed once: its row is there, the index agrees, and the second copy is next. */
  lemma DuplicateIsReachable(env: Env, v: User, data: bytes, m: Mail) returns (s: State)
    requires IsTenantId(v.id) && env.open(v.id, data) == Some(m)
    ensures Leads(env, INITIAL, s) && |s.tasks| == 1 && s.tasks[0].Process? && s.tasks[0].user == v.id && !s.tasks[0].saved
    ensures s.tasks[0].at == 1 < |s.tasks[0].packets| && s.tasks[0].packets[1].rawData == data
    ensures Key(v.id, m.id) in s.db.messages && SearchIndex.IndexIs(s.db, map[])
    ensures var row := s.db.messages[Key(v.id, m.id)].msg; row.subject == m.subject && row.body == m.body
  {
    hide Leads, IsTenantId, SaveFor, Key, AddressOf, S.IsBacklog, MarkProcessed;
    var p, q := Pending(1, v.id, data, "", 0, false), Pending(2, v.id, data, "", 0, false);
    var db2 := EMPTY.(users := [v], pending := [p, q]);
    var s4 := State(db2, [Process(v.id, [p, q], 0, false)]);
    TwicePending(env, v, data);
    var row := PacketCopy(db2, v.id, p, m);
    var db5 := SaveFor(db2, v.id, row);
    var s5 := State(db5, [Process(v.id, [p, q], 0, true)]);
    assert After(env, s4, Advance(0, Lost, [])) == s5;
    LeadsOn(env, INITIAL, s4, Advance(0, Lost, []));
    s := State(MarkProcessed(db5, 1), [Process(v.id, [p, q], 1, false)]);
    assert After(env, s5, Advance(0, Lost, [])) == s;
    LeadsOn(env, INITIAL, s5, Advance(0, Lost, []));
    SaveForTouches(db2, v.id, row);
    FirstRowIsIndexed(db2, v.id, row);
    MarkTouches(db5, 1);
  }

  /** A user signs up, the same packet arrives for him twice, and his backlog is fetched. */
  lemma TwicePending(env: Env, v: User, data: bytes)
    requires IsTenantId(v.id)
    ensures var p, q := Pending(1, v.id, data, "", 0, false), Pending(2, v.id, data, "", 0, false);
      Leads(env, INITIAL, State(EMPTY.(users := [v], pending := [p, q]), [Process(v.id, [p, q], 0, false)]))
  {
    hide Leads, IsTenantId, Key, AddressOf, S.IsBacklog;
    LeadsHere(env, INITIAL);
    var db0 := EMPTY.(users := [v]);
    assert After(env, INITIAL, Signup(v)) == State(db0, []);
    LeadsOn(env, INITIAL, INITIAL, Signup(v));
    assert v in db0.users;
    var p, q := Pending(1, v.id, data, "", 0, false), Pending(2, v.id, data, "", 0, false);
    var arrive := Arrive(v.id, data, "", 0);
    var db1 := db0.(pending := [p]);
    assert After(env, State(db0, []), arrive) == State(db1, []);
    LeadsOn(env, INITIAL, State(db0, []), arrive);
    var db2 := db0.(pending := [p, q]);
    assert [p] + [q] == [p, q] && After(env, State(db1, []), arrive) == State(db2, []);
    LeadsOn(env, INITIAL, State(db1, []), arrive);
    var s3 := State(db2, [Fetch(v.id)]);
    assert [] + [Fetch(v.id)] == [Fetch(v.id)] && After(env, State(db2, []), Start(Fetch(v.id))) == s3;
    LeadsOn(env, INITIAL, State(db2, []), Start(Fetch(v.id)));
    BothAreBacklog(db2, v.id, p, q);
    assert After(env, s3, Advance(0, Lost, [p, q])) == State(db2, [Process(v.id, [p, q], 0, false)]);
    LeadsOn(env, INITIAL, s3, Advance(0, Lost, [p, q]));
  }

  lemma BothAreBacklog(db: Db, user: string, p: Pending, q: Pending)
    requires db.pending == [p, q] && p.userId == q.userId == user && !p.processed && !q.processed
    requires p != q && p.receivedAt <= q.receivedAt
    ensures S.IsBacklog(db, user, [p, q])
  {
  }

  lemma FirstRowIsIndexed(db: Db, user: string, m: Message)
    requires db.messages == map[] && db.index == map[]
    ensures var db' := MarkProcessed(SaveFor(db, user, m), 1); SearchIndex.IndexIs(db', map[])
  {
    var db' := MarkProcessed(SaveFor(db, user, m), 1);
    assert Key(user, m.id) in db'.messages;
    assert SearchIndex.IsLive(db', db.nextRowid);
  }

  /**
   * The search of a user with nothing to do with it: before another user's duplicate packet is
   * processed it is answered, afterwards it can only fail, though none of his rows has changed.
   */
  lemma DuplicateFailsAnothersSearch(env: Env, v: User, data: bytes, m: Mail, u: string, match': Views.Matcher, query: string, limit: int)
    returns (s: State)
    requires IsTenantId(v.id) && IsTenantId(u) && u != v.id && env.open(v.id, data) == Some(m) && match'(query, m.subject, m.body)
    ensures Leads(env, INITIAL, s) && Allowed(s, Advance(0, Lost, []))
    ensures var s' := After(env, s, Advance(0, Lost, []));
      && Isolation.SameShare(s.db, s'.db, u)
      && !S.MayAnswer(s.db, match', u, query, limit, Err(S.MissingContentRow))
      && forall r :: S.MayAnswer(s'.db, match', u, query, limit, r) <==> r == Err(S.MissingContentRow)
  {
    hide *;
    s := DuplicateIsReachable(env, v, data, m);
    var ev := Advance(0, Lost, []);
    LeadsToGood(env, s);
    NextCopyReplaces(env, s, v, data, m, u, match', query);
    Isolation.StepIsolates(env, s, ev, u);
    Searches.StaleAfterStep(env, s, ev, map[], match', query);
    Views.JoinIsAScan(s.db, map[], match', query);
    StaleDecides(s.db, match', u, query, limit);
    StaleDecides(After(env, s, ev).db, match', u, query, limit);
  }

  /** The second copy's save is next, replaces the row of the first, and is no business of anybody else. */
  lemma NextCopyReplaces(env: Env, s: State, v: User, data: bytes, m: Mail, u: string, match': Views.Matcher, query: string)
    requires |s.tasks| == 1 && s.tasks[0].Process? && s.tasks[0].user == v.id && !s.tasks[0].saved
    requires s.tasks[0].at == 1 < |s.tasks[0].packets| && s.tasks[0].packets[1].rawData == data
    requires Key(v.id, m.id) in s.db.messages && env.open(v.id, data) == Some(m) && u != v.id
    requires var row := s.db.messages[Key(v.id, m.id)].msg; match'(query, row.subject, row.body)
    ensures var ev := Advance(0, Lost, []);
      && Allowed(s, ev) && !Isolation.ActsFor(s, ev, u) && !Isolation.Reaches(s, ev, u)
      && Searches.StepReplaces(env, s, ev, match', query)
  {
    hide Key, AddressOf;
  }

  lemma StaleDecides(db: Db, match': Views.Matcher, u: string, query: string, limit: int)
    ensures Views.StaleHit(db, match', query) ==>
              forall r :: S.MayAnswer(db, match', u, query, limit, r) <==> r == Err(S.MissingContentRow)
    ensures !Views.StaleHit(db, match', query) ==> !S.MayAnswer(db, match', u, query, limit, Err(S.MissingContentRow))
  {
    hide Views.StaleHit;
  }

  lemma LeadsToGood(env: Env, s: State)
    requires Leads(env, INITIAL, s)
    ensures Inv(s) && Processing.ProcessInv(env, s) && Valid(s.db)
  {
    Processing.InitialIsOk(env);
    hide Processing.ProcessInv, IsRun, End;
    var evs :| IsRun(env, INITIAL, evs) && End(env, INITIAL, evs) == s;
    Processing.RunKeepsProcessInv(env, INITIAL, evs);
  }

  // ---------- from one server to another ----------

  lemma EncryptedFits(p: DmailPacket)
    requires |MarshalPacket(p)| <= Packet.MAX_PACKET_SIZE
    ensures |p.encryptedPayload| < Wire.MAX_LENGTH
  {
    var vals := PacketRecord(p).vals;
    hide Wire.EncodeField;
    EightFields(vals);
    DataIsPartOfItsField(7, p.encryptedPayload);
  }

  lemma DataIsPartOfItsField(num: nat, d: bytes)
    ensures |d| <= |Wire.EncodeField(num, Wire.Data(d))|
  {
  }

  /** No unprocessed packet of the user carries this message id. */
  ghost predicate NoneWaiting(env: Env, db: Db, user: string, id: string) {
    forall p :: p in db.pending && p.userId == user && !p.processed ==> Processing.MailId(env, user, p) != Some(id)
  }

  /** What the recipient's row says of a message sent to him from another server. */
  function ArrivedRow(u: User, d: Packet.Draft, from: string, now: int): Message {
    Message(u.id + ":" + Text(d.messageId), "inbox", from, u.pubkey, Text(d.subject), Text(d.body), now / 1_000_000_000, false,
            "", Text(d.messageId), "")
  }

  /**
   * From one server to another, as one run: a message built for a registered key and handed to his
   * server in time and within size is accepted, waits as a packet, and once his backlog has been
   * fetched and worked off - whatever else is in it, under other message ids - his row says who wrote
   * what and when it came, unread in the inbox, and no packet of his is left.
   */
  lemma FederatedMailArrives(s: Crypto.Suite, d: Packet.Draft, sender: Crypto.KeyPair, recipient: Crypto.Key, p: DmailPacket,
                             now: int, st: State, u: User, env: Env, packets: seq<Pending>) returns (evs: seq<Event>)
    requires Crypto.Laws(s) && sender.publicKey == s.publicKey(sender.seed) && PayloadHolds(Packet.PayloadFor(d))
    requires Packet.Built(s, d, sender, s.publicKey(recipient), Pow.DEFAULT_DIFFICULTY) == Ok(p)
    requires Packet.SaneClock(now) && Packet.InWindow(d.timestamp, now)
    requires |MarshalPacket(p)| <= 262144 && Pow.Solvable(s.sha256, Packet.SignableBytes(p), Pow.DEFAULT_DIFFICULTY)
    requires Inv(st) && UserByPubkey(st.db.users, Address.Of(s.sha256, s.publicKey(recipient))) == Some(u)
    requires forall data: bytes :: env.open(u.id, data) == MailOf(s, data, recipient)
    requires NoneWaiting(env, st.db, u.id, Text(d.messageId))
    requires S.IsBacklog(AddPending(st.db, u.id, MarshalPacket(p), Address.Of(s.sha256, sender.publicKey), now / 1_000_000_000),
                         u.id, packets)
    ensures var from, arrival := Address.Of(s.sha256, sender.publicKey),
              Arrive(u.id, MarshalPacket(p), Address.Of(s.sha256, sender.publicKey), now / 1_000_000_000);
      && Accepted(s, st.db.users, MarshalPacket(p), now) == Ok(arrival)
      && IsRun(env, st, [arrival] + evs)
      && var db, k := End(env, st, [arrival] + evs).db, u.id + ":" + Text(d.messageId);
         k in db.messages && db.messages[k].msg == ArrivedRow(u, d, from, now) && S.IsBacklog(db, u.id, [])
  {
    hide *;
    var data, from, m := MarshalPacket(p), Address.Of(s.sha256, sender.publicKey), Mail(Text(d.messageId), Text(d.subject), Text(d.body));
    BuiltIsRead(s, d, sender, recipient, p, now, st.db.users, u);
    InvParts(st, u);
    var arrival := Arrive(u.id, data, from, now / 1_000_000_000);
    ArrivalMayCome(st, u, arrival);
    ArriveStep(env, st, arrival);
    var db1 := AddPending(st.db, u.id, data, from, now / 1_000_000_000);
    StepKeepsInv(env, st, arrival);
    InvParts(State(db1, st.tasks), u);
    var t';
    evs, t' := ProcessingIsARun(env, State(db1, st.tasks), u.id, packets);
    RunCons(env, st, arrival, evs);
    var at := NewPacketIsListed(env, st.db, u.id, data, from, now / 1_000_000_000, packets, m);
    RunWrites(env, db1, u, packets, 0, at, m);
    ProcessingClears(env, db1, u.id, packets);
    RowIsArrived(u, d, from, now, packets[at], m);
  }

  lemma ArrivalMayCome(st: State, u: User, e: Event)
    requires u in st.db.users && e.Arrive? && e.user == u.id
    ensures IsUser(st.db, e.user)
  {
  }

  lemma InvParts(st: State, u: User)
    requires Inv(st) && u in st.db.users
    ensures Valid(st.db) && UsersOk(st.db.users) && IsTenantId(u.id) && IsUser(st.db, u.id)
  {
    hide Valid, IsTenantId, Views.Scoped;
  }

  /** The packet that has just arrived is in the backlog, and no other packet there carries its message id. */
  lemma NewPacketIsListed(env: Env, db: Db, user: string, data: bytes, from: string, second: int, packets: seq<Pending>, m: Mail)
    returns (at: nat)
    requires Valid(db) && NoneWaiting(env, db, user, m.id)
    requires S.IsBacklog(AddPending(db, user, data, from, second), user, packets)
    ensures at < |packets| && packets[at].rawData == data && packets[at].sender == from && packets[at].receivedAt == second
    ensures forall i :: 0 <= i < |packets| && i != at ==> Processing.MailId(env, user, packets[i]) != Some(m.id)
  {
    var p := Pending(|db.pending| + 1, user, data, from, second, false);
    assert AddPending(db, user, data, from, second).pending[|db.pending|] == p;
    at :| 0 <= at < |packets| && packets[at] == p;
    forall i | 0 <= i < |packets| && i != at
      ensures Processing.MailId(env, user, packets[i]) != Some(m.id)
    {
      assert packets[i] != p;
      assert packets[i] in db.pending;
    }
  }

  /** Packets under other ids leave a user's row as it is. */
  lemma {:induction false} RunSpares(env: Env, db: Db, user: string, packets: seq<Pending>, at: nat, id: string)
    requires IsTenantId(user) && at <= |packets|
    requires forall i :: at <= i < |packets| ==> Processing.MailId(env, user, packets[i]) != Some(id)
    ensures var db', k := ProcessRun(env, db, Process(user, packets, at, false)), Key(user, id);
      (k in db'.messages <==> k in db.messages) && (k in db.messages ==> db'.messages[k] == db.messages[k])
    decreases |packets| - at
  {
    if at < |packets| {
      hide ProcessRun, SaveFor, MarkProcessed, Key, IsTenantId, AddressOf;
      var p := packets[at];
      OnePacket(env, db, user, packets, at);
      match env.open(user, p.rawData) {
        case None =>
          MarkTouches(db, p.id);
          RunSpares(env, MarkProcessed(db, p.id), user, packets, at + 1, id);
        case Some(m) =>
          var copy := PacketCopy(db, user, p, m);
          var db1 := SaveFor(db, user, copy);
          SaveForTouches(db, user, copy);
          KeyIsInjective(user, id, user, m.id);
          MarkTouches(db1, p.id);
          RunSpares(env, MarkProcessed(db1, p.id), user, packets, at + 1, id);
      }
    } else {
      hide SaveFor, MarkProcessed, Key, IsTenantId;
    }
  }

  /** The one packet that carries an id determines the row under it, wherever in the backlog it is. */
  lemma {:induction false} RunWrites(env: Env, db: Db, u: User, packets: seq<Pending>, at: nat, j: nat, m: Mail)
    requires IsTenantId(u.id) && UsersOk(db.users) && u in db.users
    requires at <= j < |packets| && env.open(u.id, packets[j].rawData) == Some(m)
    requires forall i :: at <= i < |packets| && i != j ==> Processing.MailId(env, u.id, packets[i]) != Some(m.id)
    ensures var db', k := ProcessRun(env, db, Process(u.id, packets, at, false)), Key(u.id, m.id);
      && k in db'.messages
      && db'.messages[k].msg == Message(k, "inbox", packets[j].sender, u.pubkey, m.subject, m.body, packets[j].receivedAt, false, "", m.id, "")
    decreases j - at
  {
    hide ProcessRun, SaveFor, MarkProcessed, Key, IsTenantId, AddressOf, UsersOk;
    var p := packets[at];
    OnePacket(env, db, u.id, packets, at);
    match env.open(u.id, p.rawData) {
      case None =>
        MarkTouches(db, p.id);
        RunWrites(env, MarkProcessed(db, p.id), u, packets, at + 1, j, m);
      case Some(m') =>
        var copy := PacketCopy(db, u.id, p, m');
        var db1 := SaveFor(db, u.id, copy);
        SaveForTouches(db, u.id, copy);
        MarkTouches(db1, p.id);
        if at == j {
          Requests.OwnAddress(db, u);
          RunSpares(env, MarkProcessed(db1, p.id), u.id, packets, at + 1, m.id);
        } else {
          RunWrites(env, MarkProcessed(db1, p.id), u, packets, at + 1, j, m);
        }
    }
  }

  lemma RowIsArrived(u: User, d: Packet.Draft, from: string, now: int, p: Pending, m: Mail)
    requires p.sender == from && p.receivedAt == now / 1_000_000_000
    requires m == Mail(Text(d.messageId), Text(d.subject), Text(d.body))
    ensures Key(u.id, m.id) == u.id + ":" + Text(d.messageId)
    ensures Message(Key(u.id, m.id), "inbox", p.sender, u.pubkey, m.subject, m.body, p.receivedAt, false, "", m.id, "")
            == ArrivedRow(u, d, from, now)
  {
  }

  /** What is built for a key is accepted for its user and opens with the key to the mail that was written. */
  lemma BuiltIsRead(s: Crypto.Suite, d: Packet.Draft, sender: Crypto.KeyPair, recipient: Crypto.Key, p: DmailPacket, now: int,
                    users: seq<User>, u: User)
    requires Crypto.Laws(s) && sender.publicKey == s.publicKey(sender.seed) && PayloadHolds(Packet.PayloadFor(d))
    requires Packet.Built(s, d, sender, s.publicKey(recipient), Pow.DEFAULT_DIFFICULTY) == Ok(p)
    requires Packet.SaneClock(now) && Packet.InWindow(d.timestamp, now)
    requires |MarshalPacket(p)| <= 262144 && Pow.Solvable(s.sha256, Packet.SignableBytes(p), Pow.DEFAULT_DIFFICULTY)
    requires UserByPubkey(users, Address.Of(s.sha256, s.publicKey(recipient))) == Some(u)
    ensures Accepted(s, users, MarshalPacket(p), now) ==
            Ok(Arrive(u.id, MarshalPacket(p), Address.Of(s.sha256, sender.publicKey), now / 1_000_000_000))
    ensures MailOf(s, MarshalPacket(p), recipient) == Some(Mail(Text(d.messageId), Text(d.subject), Text(d.body)))
    ensures u in users && u.pubkey == Address.Of(s.sha256, s.publicKey(recipient))
  {
    assert Packet.MAX_PACKET_SIZE == 262144;
    hide *;
    EncryptedFits(p);
    Packet.BuildThenVerify(s, d, sender, s.publicKey(recipient), Pow.DEFAULT_DIFFICULTY, now);
    Packet.BuildThenOpen(s, d, sender, recipient, Pow.DEFAULT_DIFFICULTY);
    Packet.BuiltParts(s, d, sender, s.publicKey(recipient), Pow.DEFAULT_DIFFICULTY);
    BuiltIsAccepted(s, d, sender, s.publicKey(recipient), p, now, users, u);
    PayloadIsMail(s, MarshalPacket(p), recipient, d);
  }

  lemma BuiltIsAccepted(s: Crypto.Suite, d: Packet.Draft, sender: Crypto.KeyPair, recipientPub: Crypto.Key, p: DmailPacket,
                        now: int, users: seq<User>, u: User)
    requires Packet.Verify(s, p, now) == Ok(()) && |MarshalPacket(p)| <= Packet.MAX_PACKET_SIZE && |p.encryptedPayload| < Wire.MAX_LENGTH
    requires p == Packet.Unstamped(d, sender, recipientPub, Pow.DEFAULT_DIFFICULTY, p.encryptedPayload)
                    .(powNonce := p.powNonce, signature := p.signature)
    requires |p.signature| == 64
    requires UserByPubkey(users, Address.Of(s.sha256, recipientPub)) == Some(u)
    ensures Accepted(s, users, MarshalPacket(p), now) ==
            Ok(Arrive(u.id, MarshalPacket(p), Address.Of(s.sha256, sender.publicKey), now / 1_000_000_000))
  {
    hide MarshalPacket, UnmarshalPacket, Packet.Verify, Address.Of;
    PacketRoundTrip(p);
  }

  lemma {:induction false} PayloadIsMail(s: Crypto.Suite, data: bytes, seed: Crypto.Key, d: Packet.Draft)
    requires Packet.OpenRaw(s, data, seed) == Ok(Packet.PayloadFor(d))
    ensures MailOf(s, data, seed) == Some(Mail(Text(d.messageId), Text(d.subject), Text(d.body)))
  {
    hide Packet.OpenRaw;
  }
}
