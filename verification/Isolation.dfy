/**
 * Tenant isolation over the steps of the machine: what a user sees changes only through his own
 * tasks, through mail delivered to him, and through receipts for mail he sent.
 */
module Isolation {
  import opened Bytes
  import opened Like
  import opened Tables
  import opened Query
  import opened Views
  import opened Mailbox
  import opened Processing
  import opened Letters
  import S = Store

  /** On whose behalf a task runs. */
  function Owner(t: Task): string {
    match LetterOf(t)
    case Some(l) => l.sender
    case None => t.user
  }

  ghost predicate ActsFor(s: State, ev: Event, u: string)
    requires Allowed(s, ev)
  {
    match ev
    case Arrive(user, _, _, _) => user == u
    case Advance(i, _, _) => Owner(s.tasks[i]) == u
    case DeliverAtOnce(i) => Owner(s.tasks[i]) == u
    case _ => false
  }

  /** Local delivery to the user, or a receipt for a message of his. */
  ghost predicate Reaches(s: State, ev: Event, u: string)
    requires Allowed(s, ev)
  {
    match ev
    case Advance(i, _, _) =>
      (s.tasks[i].SaveInbox? && s.tasks[i].to == u) || (s.tasks[i].Receipt? && s.tasks[i].sender == u)
    case DeliverAtOnce(i) => s.tasks[i].to == u
    case _ => false
  }

  // ---------- a user's share of the tables ----------

  ghost predicate SameRows(db: Db, db': Db, u: string) {
    forall id :: (Key(u, id) in db'.messages <==> Key(u, id) in db.messages)
              && (Key(u, id) in db.messages ==> db'.messages[Key(u, id)] == db.messages[Key(u, id)])
  }

  ghost predicate SamePackets(db: Db, db': Db, u: string) {
    && (forall i :: 0 <= i < |db.pending| && db.pending[i].userId == u ==> i < |db'.pending| && db'.pending[i] == db.pending[i])
    && (forall i :: 0 <= i < |db'.pending| && db'.pending[i].userId == u ==> i < |db.pending| && db'.pending[i] == db.pending[i])
  }

  ghost predicate SameShare(db: Db, db': Db, u: string) {
    SameRows(db, db', u) && SamePackets(db, db', u)
  }

  lemma OnlyAtSpares(db: Db, db': Db, user: string, id: string, u: string)
    requires OnlyAt(db, db', Key(user, id)) && IsTenantId(user) && IsTenantId(u) && user != u
    ensures SameRows(db, db', u)
  {
    hide IsTenantId, Key;
    forall x
      ensures Key(u, x) != Key(user, id)
    {
      KeyIsInjective(u, x, user, id);
    }
  }

  // ---------- each kind of task ----------

  lemma LetterStepSpares(db: Db, t: Task, outcome: Outcome, u: string)
    requires Sends(t) && Valid(db) && IsTenantId(u) && t.l.sender != u && (t.SaveInbox? ==> t.to != u)
    requires forall v :: v in UsersOf(t) ==> IsTenantId(v)
    ensures SameRows(db, StepLetter(db, t, outcome).0, u) && StepLetter(db, t, outcome).0.pending == db.pending
  {
    hide IsTenantId, Valid, StepLetter, Key, UsersOf, SameRows;
    var user := LetterStepTouches(db, t, outcome);
    LetterStepIsQuiet(db, t, outcome);
    OnlyAtSpares(db, StepLetter(db, t, outcome).0, user, t.l.msgId, u);
  }

  lemma ReadStepSpares(db: Db, t: Task, u: string)
    requires Reads(t) && Valid(db) && IsTenantId(u) && t.user != u && (t.Receipt? ==> t.sender != u)
    requires forall v :: v in UsersOf(t) ==> IsTenantId(v)
    ensures SameRows(db, StepRead(db, t).0, u) && StepRead(db, t).0.pending == db.pending
  {
    var user := if t.Receipt? then t.sender else t.user;
    assert user in UsersOf(t);
    ReadStepIsQuiet(db, t);
    hide IsTenantId, Valid, SetRead, Trash, SetStatus, Key, UsersOf, SameRows;
    var k := Key(user, if t.FindSender? || t.GetRead? then "" else t.id);
    FlagsTouch(db, k);
    StatusTouches(db, k, "read");
    OnlyAtSpares(db, StepRead(db, t).0, user, if t.FindSender? || t.GetRead? then "" else t.id, u);
  }

  lemma ProcessStepSpares(env: Env, db: Db, t: Task, u: string)
    requires t.Process? && t.at < |t.packets| && IsTenantId(u) && IsTenantId(t.user) && t.user != u && TaskOk(env, db, t)
    ensures SameShare(db, StepProcess(env, db, t).0, u)
  {
    var p := t.packets[t.at];
    assert IsFetched(db, t.user, p);
    hide IsTenantId, SaveFor, Key, AddressOf, TaskOk, SameRows;
    OnlyAtSpares(db, db, t.user, "", u);
    MarkSpares(db, p, t.user, u);
    match env.open(t.user, p.rawData) {
      case None =>
      case Some(m) =>
        if !t.saved {
          var row := PacketCopy(db, t.user, p, m);
          SavingGrows(db, t.user, row);
          SaveForTouches(db, t.user, row);
          OnlyAtSpares(db, SaveFor(db, t.user, row), t.user, m.id, u);
        }
    }
  }

  lemma MarkSpares(db: Db, p: Pending, user: string, u: string)
    requires IsFetched(db, user, p) && user != u
    ensures SamePackets(db, MarkProcessed(db, p.id), u) && (SameRows(db, db, u) ==> SameRows(db, MarkProcessed(db, p.id), u))
  {
  }

  lemma TaskStepSpares(env: Env, s: State, i: nat, outcome: Outcome, snapshot: seq<Pending>, u: string)
    requires Inv(s) && ProcessInv(env, s) && IsTenantId(u) && i < |s.tasks| && !Finished(s.tasks[i])
    requires var t := s.tasks[i]; Owner(t) != u && (t.SaveInbox? ==> t.to != u) && (t.Receipt? ==> t.sender != u)
    ensures SameShare(s.db, StepTask(env, s.db, s.tasks[i], outcome, snapshot).0, u)
  {
    hide StepLetter, StepRead, StepProcess, Inv, Valid, UsersOk, IsTenantId, NothingLost, Key, SameRows;
    var t := s.tasks[i];
    assert TaskOk(env, s.db, t);
    TaskUsersAreTenants(s, i);
    assert Owner(t) in UsersOf(t);
    if t.Process? {
      ProcessStepSpares(env, s.db, t, u);
    } else if Reads(t) {
      ReadStepSpares(s.db, t, u);
    } else if t.Fetch? {
      FetchSpares(s.db, u);
    } else {
      LetterStepSpares(s.db, t, outcome, u);
    }
  }

  lemma FetchSpares(db: Db, u: string)
    ensures SameShare(db, db, u)
  {
  }

  lemma {:induction false} SharesChain(a: Db, b: Db, c: Db, u: string)
    requires SameShare(a, b, u) && SameShare(b, c, u)
    ensures SameShare(a, c, u)
  {
  }

  lemma QuietSpares(db: Db, db': Db, u: string)
    requires SameRows(db, db', u) && db'.pending == db.pending
    ensures SameShare(db, db', u)
  {
  }

  lemma DeliverAtOnceSpares(db: Db, l: Letter, to: string, u: string)
    requires Valid(db) && IsTenantId(u) && IsTenantId(to) && IsTenantId(l.sender) && to != u && l.sender != u
    ensures SameShare(db, Delivery(db, l, to), u)
  {
    hide IsTenantId, Valid, SaveFor, SetStatus, Key, SameRows;
    var db1 := SaveFor(db, to, InboxCopy(l));
    SaveForTouches(db, to, InboxCopy(l));
    OnlyAtSpares(db, db1, to, l.msgId, u);
    SavingGrows(db, to, InboxCopy(l));
    QuietSpares(db, db1, u);
    SavedIsValid(db, to, InboxCopy(l));
    StatusTouches(db1, Key(l.sender, l.msgId), "delivered");
    OnlyAtSpares(db1, SetStatus(db1, Key(l.sender, l.msgId), "delivered"), l.sender, l.msgId, u);
    FlagsGrow(db1, Key(l.sender, l.msgId), "delivered");
    QuietSpares(db1, SetStatus(db1, Key(l.sender, l.msgId), "delivered"), u);
    SharesChain(db, db1, SetStatus(db1, Key(l.sender, l.msgId), "delivered"), u);
  }

  lemma SavedIsValid(db: Db, user: string, m: Message)
    requires Valid(db)
    ensures Valid(SaveFor(db, user, m))
  {
    hide Valid, Upsert;
    UpsertIsValid(db, Filled(m).(id := Key(user, m.id)));
  }

  // ---------- main results ----------

  /** A step that is not the user's own and does not deliver to him or carry a receipt to him leaves his share as it is. */
  lemma StepIsolates(env: Env, s: State, ev: Event, u: string)
    requires Inv(s) && ProcessInv(env, s) && Allowed(s, ev) && IsTenantId(u)
    requires !ActsFor(s, ev, u) && !Reaches(s, ev, u)
    ensures SameShare(s.db, After(env, s, ev).db, u)
  {
    hide StepTask, Inv, ProcessInv, Delivery, MayStart, S.IsBacklog, IsTenantId, Key, SameRows;
    match ev {
      case Start(t) => FetchSpares(s.db, u);
      case Arrive(user, data, sender, now) => ArrivalSpares(s.db, user, data, sender, now, u);
      case Signup(v) => SignupSpares(s.db, v, u);
      case Advance(i, outcome, snapshot) => TaskStepSpares(env, s, i, outcome, snapshot, u);
      case DeliverAtOnce(i) =>
        DeliveryUsers(s, i);
        DeliverAtOnceSpares(s.db, s.tasks[i].l, s.tasks[i].to, u);
    }
  }

  lemma ArrivalSpares(db: Db, user: string, data: bytes, sender: string, now: int, u: string)
    requires user != u
    ensures SameShare(db, AddPending(db, user, data, sender, now), u)
  {
  }

  lemma SignupSpares(db: Db, v: User, u: string)
    ensures SameShare(db, db.(users := db.users + [v]), u)
  {
  }

  lemma DeliveryUsers(s: State, i: nat)
    requires Inv(s) && i < |s.tasks| && s.tasks[i].SaveInbox?
    ensures Valid(s.db) && IsTenantId(s.tasks[i].to) && IsTenantId(s.tasks[i].l.sender)
  {
    hide Inv, Valid, UsersOk, IsTenantId;
    TaskUsersAreTenants(s, i);
    assert s.tasks[i].to in UsersOf(s.tasks[i]) && s.tasks[i].l.sender in UsersOf(s.tasks[i]);
  }

  /** None of the run's steps is the user's own or reaches him. */
  ghost predicate IsForeignRun(env: Env, s: State, evs: seq<Event>, u: string)
    requires IsRun(env, s, evs)
    decreases |evs|
  {
    evs == [] || (!ActsFor(s, evs[0], u) && !Reaches(s, evs[0], u) && IsForeignRun(env, After(env, s, evs[0]), evs[1..], u))
  }

  lemma {:induction false} RunIsolates(env: Env, s: State, evs: seq<Event>, u: string)
    requires Inv(s) && ProcessInv(env, s) && IsTenantId(u) && IsRun(env, s, evs) && IsForeignRun(env, s, evs, u)
    ensures SameShare(s.db, End(env, s, evs).db, u)
    decreases |evs|
  {
    if evs == [] {
      FetchSpares(s.db, u);
    } else {
      hide Inv, ProcessInv, IsTenantId, Allowed, After, ActsFor, Reaches, SameShare, Grows;
      StepIsolates(env, s, evs[0], u);
      StepKeepsInv(env, s, evs[0]);
      StepKeepsProcessInv(env, s, evs[0]);
      RunIsolates(env, After(env, s, evs[0]), evs[1..], u);
      SharesChain(s.db, After(env, s, evs[0]).db, End(env, s, evs).db, u);
    }
  }

  /** The same share shows the same lists, counts, threads and backlog, and a search finds the same rows, if it can be answered. */
  lemma SameShareSameViews(db: Db, db': Db, u: string, folder: string, id: string, match': Matcher, query: string,
                           packets: seq<Pending>)
    requires IsTenantId(u) && Scoped(db) && Scoped(db') && SameShare(db, db', u)
    ensures LikeKeys(db', u) == LikeKeys(db, u)
    ensures forall k :: k in LikeKeys(db, u) ==> k in db'.messages && db'.messages[k] == db.messages[k]
    ensures FolderFor(db', u, folder) == FolderFor(db, u, folder) && UnreadFor(db', u, folder) == UnreadFor(db, u, folder)
    ensures ThreadKeysFor(db', u, id) == ThreadKeysFor(db, u, id)
    ensures LikeKeys(db', u) * ScanHits(db', match', query) == LikeKeys(db, u) * ScanHits(db, match', query)
    ensures S.IsBacklog(db', u, packets) <==> S.IsBacklog(db, u, packets)
  {
    LikeKeysStay(db, db', u);
    BacklogStays(db, db', u, packets);
    hide IsTenantId, Scoped, Key, S.IsBacklog, Hits;
    assert forall k :: k in FolderFor(db', u, folder) <==> k in FolderFor(db, u, folder);
    assert forall k :: k in UnreadFor(db', u, folder) <==> k in UnreadFor(db, u, folder);
    var hits, hits' := LikeKeys(db, u) * ScanHits(db, match', query), LikeKeys(db', u) * ScanHits(db', match', query);
    assert forall k :: k in hits' <==> k in hits;
    if Key(u, id) in db.messages {
      assert db'.messages[Key(u, id)] == db.messages[Key(u, id)];
      ThreadsStay(db, db', u, db.messages[Key(u, id)].msg.threadId, id);
    }
  }

  lemma ThreadsStay(db: Db, db': Db, u: string, stored: string, id: string)
    requires LikeKeys(db', u) == LikeKeys(db, u)
    requires forall k :: k in LikeKeys(db, u) ==> k in db.messages && k in db'.messages && db'.messages[k] == db.messages[k]
    requires Key(u, id) in db.messages && Key(u, id) in db'.messages && db'.messages[Key(u, id)] == db.messages[Key(u, id)]
    requires db.messages[Key(u, id)].msg.threadId == stored
    ensures ThreadKeysFor(db', u, id) == ThreadKeysFor(db, u, id)
  {
    hide Key, LikeKeys;
    var thread := if stored == "" then id else stored;
    assert (set k | k in LikeKeys(db', u) && db'.messages[k].msg.threadId == thread) ==
           (set k | k in LikeKeys(db, u) && db.messages[k].msg.threadId == thread);
  }

  lemma LikeKeysStay(db: Db, db': Db, u: string)
    requires IsTenantId(u) && Scoped(db) && Scoped(db') && SameRows(db, db', u)
    ensures LikeKeys(db', u) == LikeKeys(db, u)
    ensures forall k :: k in LikeKeys(db, u) ==> k in db.messages && k in db'.messages && db'.messages[k] == db.messages[k]
  {
    hide IsTenantId, LikeKeys, Key;
    LikeFindsOwnRows(db, u);
    LikeFindsOwnRows(db', u);
    forall k | Owned(u, k)
      ensures k == Key(u, k[|u| + 1..])
    {
      assert k == (u + ":") + k[|u| + 1..];
      KeyParts(u, k[|u| + 1..]);
    }
  }

  lemma KeyParts(u: string, id: string)
    ensures Key(u, id) == u + ":" + id
  {
  }

  lemma BacklogStays(db: Db, db': Db, u: string, packets: seq<Pending>)
    requires SamePackets(db, db', u)
    ensures S.IsBacklog(db', u, packets) <==> S.IsBacklog(db, u, packets)
  {
    hide S.ByAge;
    forall p: Pending | p.userId == u
      ensures p in db.pending <==> p in db'.pending
    {
    }
  }

  /** A delivery writes one row of the recipient and no other; it is a new one unless he wrote to himself. */
  lemma DeliveryWritesOneRow(env: Env, s: State, i: nat, outcome: Outcome)
    requires i < |s.tasks| && s.tasks[i].SaveInbox? && LetterInv(s, s.tasks[i].l.msgId)
    ensures var l, to, db' := s.tasks[i].l, s.tasks[i].to, After(env, s, Advance(i, outcome, [])).db;
      && (Key(to, l.msgId) in s.db.messages <==> to == l.sender)
      && Key(to, l.msgId) in db'.messages
      && db'.messages[Key(to, l.msgId)].msg == Filled(InboxCopy(l)).(id := Key(to, l.msgId))
      && OnlyAt(s.db, db', Key(to, l.msgId))
  {
    hide SaveFor, Key, IsTenantId;
    var t := s.tasks[i];
    assert Carries(t, t.l.msgId) && LetterOk(s.db, t);
    assert HasRow(StageOf(t), t.l, t.to) <==> t.to == t.l.sender;
    SaveForTouches(s.db, t.to, InboxCopy(t.l));
  }

  /** A receipt changes the status of one row of the user and nothing else. */
  lemma ReceiptChangesOneStatus(env: Env, s: State, i: nat, outcome: Outcome)
    requires Valid(s.db) && i < |s.tasks| && s.tasks[i].Receipt?
    ensures var k, db' := Key(s.tasks[i].sender, s.tasks[i].id), After(env, s, Advance(i, outcome, [])).db;
      && OnlyAt(s.db, db', k) && db'.messages.Keys == s.db.messages.Keys
      && (k in s.db.messages ==> db'.messages[k].msg == s.db.messages[k].msg.(status := "read"))
  {
    hide SetStatus, Key, Valid;
    var k := Key(s.tasks[i].sender, s.tasks[i].id);
    StatusTouches(s.db, k, "read");
    SameKeys(s.db, SetStatus(s.db, k, "read"), k);
  }

  lemma SameKeys(db: Db, db': Db, k: string)
    requires OnlyAt(db, db', k) && (k in db'.messages <==> k in db.messages)
    ensures db'.messages.Keys == db.messages.Keys
  {
    assert forall k' :: k' in db'.messages <==> k' in db.messages;
  }
}
