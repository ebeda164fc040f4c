/**
 * Pending packets over whole runs (pkg/daemon/multi_tenant.go, ProcessPendingPackets and doPollAll):
 * no packet is lost, and any interleaving of processing runs ends with the same messages.
 */
module Processing {
  import opened Bytes
  import opened Like
  import opened Tables
  import opened Letters
  import opened Mailbox
  import opened Views
  import S = Store

  /** The packet does not open under its user's key, or the user has a row for its message. */
  ghost predicate Kept(env: Env, db: Db, p: Pending) {
    match env.open(p.userId, p.rawData)
    case None => true
    case Some(m) => Key(p.userId, m.id) in db.messages
  }

  ghost predicate NothingLost(env: Env, db: Db) {
    forall i :: 0 <= i < |db.pending| && db.pending[i].processed ==> Kept(env, db, db.pending[i])
  }

  /** A fetched packet is a row of the table, whose content never changes. */
  ghost predicate IsFetched(db: Db, user: string, p: Pending) {
    && 1 <= p.id <= |db.pending|
    && p.userId == user && db.pending[p.id - 1].userId == user
    && db.pending[p.id - 1].rawData == p.rawData
  }

  /** What a processing task has done so far: the packets before `at`, and the save of the current one. */
  ghost predicate TaskOk(env: Env, db: Db, t: Task) {
    t.Process? ==>
      && t.at <= |t.packets|
      && (forall j :: 0 <= j < |t.packets| ==> IsFetched(db, t.user, t.packets[j]))
      && (forall j :: 0 <= j < t.at ==> IsFetched(db, t.user, t.packets[j]) && db.pending[t.packets[j].id - 1].processed)
      && (t.saved ==> && t.at < |t.packets|
                      && env.open(t.user, t.packets[t.at].rawData).Some?
                      && Key(t.user, env.open(t.user, t.packets[t.at].rawData).value.id) in db.messages)
  }

  ghost predicate ProcessInv(env: Env, s: State) {
    NothingLost(env, s.db) && forall i :: 0 <= i < |s.tasks| ==> TaskOk(env, s.db, s.tasks[i])
  }

  /** No key and no packet disappears, packets keep their content, and processed ones stay so. */
  ghost predicate Grows(db: Db, db': Db) {
    && (forall k :: k in db.messages ==> k in db'.messages)
    && |db.pending| <= |db'.pending|
    && forall i :: 0 <= i < |db.pending| ==>
         && db'.pending[i].userId == db.pending[i].userId
         && db'.pending[i].rawData == db.pending[i].rawData
         && (db.pending[i].processed ==> db'.pending[i].processed)
  }

  lemma TaskOkIsStable(env: Env, db: Db, db': Db, t: Task)
    requires TaskOk(env, db, t) && Grows(db, db')
    ensures TaskOk(env, db', t)
  {
  }

  lemma SavingGrows(db: Db, user: string, m: Message)
    ensures Grows(db, SaveFor(db, user, m)) && SaveFor(db, user, m).pending == db.pending
    ensures forall k :: k in SaveFor(db, user, m).messages <==> k in db.messages || k == Key(user, m.id)
  {
  }

  lemma FlagsGrow(db: Db, id: string, status: string)
    ensures SetRead(db, id).pending == db.pending && Trash(db, id).pending == db.pending && SetStatus(db, id, status).pending == db.pending
    ensures SetRead(db, id).messages.Keys == db.messages.Keys
    ensures Trash(db, id).messages.Keys == db.messages.Keys
    ensures SetStatus(db, id, status).messages.Keys == db.messages.Keys
  {
  }

  lemma MarkingGrows(db: Db, id: nat)
    ensures Grows(db, MarkProcessed(db, id)) && MarkProcessed(db, id).messages == db.messages
    ensures |MarkProcessed(db, id).pending| == |db.pending|
    ensures forall i :: 0 <= i < |db.pending| ==>
              MarkProcessed(db, id).pending[i].processed == (db.pending[i].processed || i == id - 1)
  {
  }

  /** A store call other than marking: the same packets, and no key disappears. */
  lemma QuietStep(env: Env, db: Db, db': Db)
    requires NothingLost(env, db) && db'.pending == db.pending
    requires forall k :: k in db.messages ==> k in db'.messages
    ensures NothingLost(env, db') && Grows(db, db')
  {
  }

  lemma LetterStepIsQuiet(db: Db, t: Task, outcome: Outcome)
    requires t.SaveSent? || t.LookUp? || t.SaveInbox? || t.Confirm? || t.Push? || t.SaveFederated?
    ensures StepLetter(db, t, outcome).0.pending == db.pending
    ensures forall k :: k in db.messages ==> k in StepLetter(db, t, outcome).0.messages
    ensures !StepLetter(db, t, outcome).1.Process?
  {
    hide SaveFor, SetStatus;
    match t {
      case SaveSent(l) => SavingGrows(db, l.sender, SentCopy(l));
      case SaveFederated(l) => SavingGrows(db, l.sender, SentCopy(l));
      case LookUp(l) =>
      case SaveInbox(l, to) => SavingGrows(db, to, InboxCopy(l));
      case Confirm(l, to) => FlagsGrow(db, Key(l.sender, l.msgId), "delivered");
      case Push(l) =>
        FlagsGrow(db, Key(l.sender, l.msgId), "delivered");
        FlagsGrow(db, Key(l.sender, l.msgId), "sent");
    }
  }

  lemma ReadStepIsQuiet(db: Db, t: Task)
    requires t.SetReadFlag? || t.GetRead? || t.FindSender? || t.Receipt? || t.SetTrash?
    ensures StepRead(db, t).0.pending == db.pending
    ensures StepRead(db, t).0.messages.Keys == db.messages.Keys
    ensures !StepRead(db, t).1.Process?
  {
    hide SetRead, Trash, SetStatus;
    match t {
      case SetReadFlag(user, id) => FlagsGrow(db, Key(user, id), "");
      case GetRead(user, id) =>
      case FindSender(user, addr, id) =>
      case Receipt(user, sender, id) => FlagsGrow(db, Key(sender, id), "read");
      case SetTrash(user, id) => FlagsGrow(db, Key(user, id), "");
    }
  }

  lemma ProcessStepKeeps(env: Env, db: Db, t: Task)
    requires NothingLost(env, db) && t.Process? && t.at < |t.packets| && TaskOk(env, db, t)
    ensures var (db', t') := StepProcess(env, db, t);
            NothingLost(env, db') && Grows(db, db') && TaskOk(env, db', t')
  {
    hide SaveFor;
    var p := t.packets[t.at];
    assert IsFetched(db, t.user, p);
    var saving := env.open(t.user, p.rawData).Some? && !t.saved;
    if saving {
      SavingGrows(db, t.user, PacketCopy(db, t.user, p, env.open(t.user, p.rawData).value));
      QuietStep(env, db, StepProcess(env, db, t).0);
    } else {
      MarkingGrows(db, p.id);
    }
  }

  lemma FetchIsOk(env: Env, db: Db, user: string, snapshot: seq<Pending>)
    requires Valid(db) && S.IsBacklog(db, user, snapshot)
    ensures TaskOk(env, db, Process(user, snapshot, 0, false))
  {
    hide S.ByAge;
    forall j | 0 <= j < |snapshot|
      ensures IsFetched(db, user, snapshot[j])
    {
      var p := snapshot[j];
      assert p in db.pending;
      var i :| 0 <= i < |db.pending| && db.pending[i] == p;
    }
  }

  lemma StepTaskKeeps(env: Env, db: Db, t: Task, outcome: Outcome, snapshot: seq<Pending>)
    requires Valid(db) && NothingLost(env, db) && !Finished(t) && TaskOk(env, db, t)
    requires t.Fetch? ==> S.IsBacklog(db, t.user, snapshot)
    ensures var (db', t') := StepTask(env, db, t, outcome, snapshot);
            NothingLost(env, db') && Grows(db, db') && TaskOk(env, db', t')
  {
    hide Valid, NothingLost, Grows, StepLetter, StepRead, StepProcess, S.IsBacklog;
    if t.Fetch? {
      FetchIsOk(env, db, t.user, snapshot);
      QuietStep(env, db, db);
    } else if t.Process? {
      ProcessStepKeeps(env, db, t);
    } else if t.SetReadFlag? || t.GetRead? || t.FindSender? || t.Receipt? || t.SetTrash? {
      ReadStepIsQuiet(db, t);
      QuietStep(env, db, StepRead(db, t).0);
    } else {
      LetterStepIsQuiet(db, t, outcome);
      QuietStep(env, db, StepLetter(db, t, outcome).0);
    }
  }

  lemma StepKeepsProcessInv(env: Env, s: State, ev: Event)
    requires Inv(s) && ProcessInv(env, s) && Allowed(s, ev)
    ensures ProcessInv(env, After(env, s, ev))
    ensures Grows(s.db, After(env, s, ev).db)
  {
    hide Valid, NothingLost, Grows, TaskOk, StepTask, S.IsBacklog, Delivery, IsUser, FreshId;
    var s' := After(env, s, ev);
    match ev {
      case Start(t) =>
        QuietStep(env, s.db, s.db);
        StartedIsOk(env, s, t);
      case Arrive(user, data, sender, now) => ArrivalGrows(env, s.db, user, data, sender, now);
      case Signup(u) => QuietStep(env, s.db, s'.db);
      case Advance(i, outcome, snapshot) => StepTaskKeeps(env, s.db, s.tasks[i], outcome, snapshot);
      case DeliverAtOnce(i) =>
        DeliveryIsQuiet(s.db, s.tasks[i].l, s.tasks[i].to);
        QuietStep(env, s.db, s'.db);
        LetterTaskIsOk(env, s'.db, s'.tasks[i]);
    }
    forall i | 0 <= i < |s'.tasks|
      ensures TaskOk(env, s'.db, s'.tasks[i])
    {
      if i < |s.tasks| && s'.tasks[i] == s.tasks[i] {
        TaskOkIsStable(env, s.db, s'.db, s.tasks[i]);
      }
    }
  }

  lemma StartedIsOk(env: Env, s: State, t: Task)
    requires MayStart(s, t)
    ensures TaskOk(env, s.db, t)
  {
  }

  lemma LetterTaskIsOk(env: Env, db: Db, t: Task)
    requires !t.Process?
    ensures TaskOk(env, db, t)
  {
  }

  lemma ArrivalGrows(env: Env, db: Db, user: string, data: bytes, sender: string, now: int)
    requires NothingLost(env, db)
    ensures NothingLost(env, AddPending(db, user, data, sender, now)) && Grows(db, AddPending(db, user, data, sender, now))
  {
  }

  lemma DeliveryIsQuiet(db: Db, l: Letter, to: string)
    ensures Delivery(db, l, to).pending == db.pending
    ensures forall k :: k in db.messages ==> k in Delivery(db, l, to).messages
  {
    SavingGrows(db, to, InboxCopy(l));
    FlagsGrow(SaveFor(db, to, InboxCopy(l)), Key(l.sender, l.msgId), "delivered");
  }

  lemma {:induction false} RunKeepsProcessInv(env: Env, s: State, evs: seq<Event>)
    requires Inv(s) && ProcessInv(env, s) && IsRun(env, s, evs)
    ensures Inv(End(env, s, evs)) && ProcessInv(env, End(env, s, evs))
    decreases |evs|
  {
    hide Inv, ProcessInv, Allowed, After, Grows;
    if evs != [] {
      StepKeepsInv(env, s, evs[0]);
      StepKeepsProcessInv(env, s, evs[0]);
      RunKeepsProcessInv(env, After(env, s, evs[0]), evs[1..]);
    }
  }

  lemma InitialIsOk(env: Env)
    ensures Inv(INITIAL) && ProcessInv(env, INITIAL)
  {
  }

  /**
   * In every reachable state, wherever a run stops, a packet marked processed does not open under
   * its user's key or its message is in the user's table, whatever folder it has gone to since.
   */
  lemma NoPacketIsLost(env: Env, evs: seq<Event>, i: nat)
    requires IsRun(env, INITIAL, evs) && i < |End(env, INITIAL, evs).db.pending|
    requires End(env, INITIAL, evs).db.pending[i].processed
    ensures Kept(env, End(env, INITIAL, evs).db, End(env, INITIAL, evs).db.pending[i])
  {
    hide Inv, IsRun, End, Kept;
    InitialIsOk(env);
    RunKeepsProcessInv(env, INITIAL, evs);
  }

  // ---------- where a user's messages come from ----------

  /** Task t has fetched, and so far saved, a packet of this user with this message id. */
  ghost predicate HasSaved(env: Env, t: Task, user: string, id: string) {
    t.Process? && t.user == user &&
    exists j :: 0 <= j < |t.packets| && (j < t.at || (j == t.at && t.saved)) && MailId(env, user, t.packets[j]) == Some(id)
  }

  ghost predicate HasFetched(env: Env, t: Task, user: string, id: string) {
    t.Process? && t.user == user && exists j :: 0 <= j < |t.packets| && MailId(env, user, t.packets[j]) == Some(id)
  }

  function MailId(env: Env, user: string, p: Pending): Option<string> {
    match env.open(user, p.rawData)
    case None => None
    case Some(m) => Some(m.id)
  }

  /** The task has saved this letter for the user, as its sender or as its recipient. */
  predicate HasPosted(t: Task, user: string, id: string) {
    match LetterOf(t)
    case None => false
    case Some(l) =>
      && l.msgId == id && !t.SaveSent? && !t.SaveFederated?
      && (user == l.sender || ((t.Confirm? || t.Delivered?) && user == t.to))
  }

  ghost predicate Brought(env: Env, t: Task, user: string, id: string) {
    HasSaved(env, t, user, id) || HasPosted(t, user, id)
  }

  ghost predicate SomeBrought(env: Env, s: State, user: string, id: string) {
    exists i :: 0 <= i < |s.tasks| && Brought(env, s.tasks[i], user, id)
  }

  ghost predicate SomeFetched(env: Env, s: State, user: string, id: string) {
    exists i :: 0 <= i < |s.tasks| && HasFetched(env, s.tasks[i], user, id)
  }

  ghost predicate SomePosted(s: State, user: string, id: string) {
    exists i :: 0 <= i < |s.tasks| && HasPosted(s.tasks[i], user, id)
  }

  /** The task's next call saves a message with this id for the user. */
  ghost predicate SavesNow(env: Env, t: Task, user: string, id: string) {
    t.Process? && t.at < |t.packets| && !t.saved && t.user == user && MailId(env, user, t.packets[t.at]) == Some(id)
  }

  predicate PostsNow(t: Task, user: string, id: string) {
    || ((t.SaveSent? || t.SaveFederated?) && t.l.sender == user && t.l.msgId == id)
    || (t.SaveInbox? && t.to == user && t.l.msgId == id)
  }

  lemma SaveShowsUp(env: Env, db: Db, t: Task, user: string, id: string)
    requires t.Process? && t.at < |t.packets|
    requires t.saved ==> env.open(t.user, t.packets[t.at].rawData).Some?
    ensures HasSaved(env, StepProcess(env, db, t).1, user, id) <==> HasSaved(env, t, user, id) || SavesNow(env, t, user, id)
  {
    hide SaveFor, MarkProcessed;
    var t' := StepProcess(env, db, t).1;
    if HasSaved(env, t, user, id) {
      var j :| 0 <= j < |t.packets| && (j < t.at || (j == t.at && t.saved)) && MailId(env, user, t.packets[j]) == Some(id);
      assert j < t'.at;
    }
    if SavesNow(env, t, user, id) {
      assert t' == t.(saved := true);
    }
  }

  lemma KeysAfterProcess(env: Env, db: Db, t: Task, user: string, id: string)
    requires t.Process? && t.at < |t.packets| && IsTenantId(user) && IsTenantId(t.user)
    ensures Key(user, id) in StepProcess(env, db, t).0.messages <==> Key(user, id) in db.messages || SavesNow(env, t, user, id)
  {
    hide SaveFor, MarkProcessed, IsTenantId, Key;
    var p := t.packets[t.at];
    MarkingGrows(db, p.id);
    match env.open(t.user, p.rawData) {
      case None =>
      case Some(m) =>
        SavingGrows(db, t.user, PacketCopy(db, t.user, p, m));
        KeyIsInjective(user, id, t.user, m.id);
    }
  }

  lemma KeysAfterLetter(db: Db, t: Task, outcome: Outcome, user: string, id: string)
    requires t.SaveSent? || t.LookUp? || t.SaveInbox? || t.Confirm? || t.Push? || t.SaveFederated?
    requires IsTenantId(user) && forall v :: v in UsersOf(t) ==> IsTenantId(v)
    ensures Key(user, id) in StepLetter(db, t, outcome).0.messages <==> Key(user, id) in db.messages || PostsNow(t, user, id)
  {
    hide SaveFor, SetStatus, IsTenantId, Key;
    var to := if t.SaveInbox? then t.to else t.l.sender;
    assert to in UsersOf(t);
    KeyIsInjective(user, id, to, t.l.msgId);
    SavingGrows(db, t.l.sender, SentCopy(t.l));
    if t.SaveInbox? { SavingGrows(db, t.to, InboxCopy(t.l)); }
    FlagsGrow(db, Key(t.l.sender, t.l.msgId), "delivered");
    FlagsGrow(db, Key(t.l.sender, t.l.msgId), "sent");
  }

  lemma PostShowsUp(db: Db, t: Task, outcome: Outcome, user: string, id: string)
    requires t.SaveSent? || t.LookUp? || t.SaveInbox? || t.Confirm? || t.Push? || t.SaveFederated?
    ensures HasPosted(StepLetter(db, t, outcome).1, user, id) <==> HasPosted(t, user, id) || PostsNow(t, user, id)
    ensures !StepLetter(db, t, outcome).1.Process?
  {
    hide SaveFor, SetStatus, Key;
  }

  lemma ReadBringsNothing(env: Env, db: Db, t: Task, user: string, id: string)
    requires t.SetReadFlag? || t.GetRead? || t.FindSender? || t.Receipt? || t.SetTrash?
    ensures !Brought(env, StepRead(db, t).1, user, id) && !Brought(env, t, user, id)
  {
    hide Key, SetRead, Trash, SetStatus;
  }

  /** A task's call adds a message of the user exactly when the task has then brought it. */
  lemma TaskIsAccounted(env: Env, s: State, i: nat, outcome: Outcome, snapshot: seq<Pending>, user: string, id: string)
    requires Inv(s) && ProcessInv(env, s) && i < |s.tasks| && !Finished(s.tasks[i]) && IsTenantId(user)
    ensures var (t, r) := (s.tasks[i], StepTask(env, s.db, s.tasks[i], outcome, snapshot));
      && (Brought(env, r.1, user, id) <==> Brought(env, t, user, id) || SavesNow(env, t, user, id) || PostsNow(t, user, id))
      && (Key(user, id) in r.0.messages <==> Key(user, id) in s.db.messages || SavesNow(env, t, user, id) || PostsNow(t, user, id))
  {
    hide StepLetter, StepRead, StepProcess, Inv, Valid, UsersOk, IsTenantId, NothingLost, Key, HasSaved, HasPosted, Kept;
    var t := s.tasks[i];
    assert TaskOk(env, s.db, t);
    TaskUsersAreTenants(s, i);
    if t.Process? {
      assert t.user in UsersOf(t);
      SaveShowsUp(env, s.db, t, user, id);
      KeysAfterProcess(env, s.db, t, user, id);
      ProcessPostsNothing(env, s.db, t, user, id);
    } else if t.SetReadFlag? || t.GetRead? || t.FindSender? || t.Receipt? || t.SetTrash? {
      ReadBringsNothing(env, s.db, t, user, id);
      ReadStepIsQuiet(s.db, t);
    } else if t.Fetch? {
      NothingSavedYet(env, t, snapshot, user, id);
    } else {
      PostShowsUp(s.db, t, outcome, user, id);
      KeysAfterLetter(s.db, t, outcome, user, id);
      LettersSaveNothing(env, t, user, id);
      LettersSaveNothing(env, StepLetter(s.db, t, outcome).1, user, id);
    }
  }

  lemma ProcessPostsNothing(env: Env, db: Db, t: Task, user: string, id: string)
    requires t.Process? && t.at < |t.packets|
    ensures !HasPosted(t, user, id) && !HasPosted(StepProcess(env, db, t).1, user, id)
  {
    hide SaveFor, MarkProcessed;
  }

  lemma LettersSaveNothing(env: Env, t: Task, user: string, id: string)
    requires !t.Process?
    ensures !HasSaved(env, t, user, id)
  {
  }

  lemma NothingSavedYet(env: Env, t: Task, snapshot: seq<Pending>, user: string, id: string)
    requires t.Fetch?
    ensures !Brought(env, t, user, id) && !Brought(env, Process(t.user, snapshot, 0, false), user, id)
  {
  }

  /** The user's message ids are those of the start and those the tasks have brought. */
  ghost predicate Accounted(env: Env, start: Db, s: State, user: string) {
    forall id :: Key(user, id) in s.db.messages <==> Key(user, id) in start.messages || SomeBrought(env, s, user, id)
  }

  lemma BroughtByOthers(env: Env, tasks: seq<Task>, i: nat, t': Task, db: Db, db': Db, user: string, id: string)
    requires i < |tasks|
    ensures SomeBrought(env, State(db', tasks[i := t']), user, id) <==>
            Brought(env, t', user, id) || exists j :: 0 <= j < |tasks| && j != i && Brought(env, tasks[j], user, id)
    ensures SomeBrought(env, State(db, tasks), user, id) <==>
            Brought(env, tasks[i], user, id) || exists j :: 0 <= j < |tasks| && j != i && Brought(env, tasks[j], user, id)
  {
    hide Brought;
    var s' := State(db', tasks[i := t']);
    if Brought(env, t', user, id) {
      assert s'.tasks[i] == t';
    }
    if j :| 0 <= j < |tasks| && j != i && Brought(env, tasks[j], user, id) {
      assert s'.tasks[j] == tasks[j];
    }
  }

  lemma BroughtAfterStart(env: Env, s: State, t: Task, user: string, id: string)
    requires MayStart(s, t)
    ensures SomeBrought(env, s.(tasks := s.tasks + [t]), user, id) <==> SomeBrought(env, s, user, id)
  {
    hide FreshId, IsUser, AddressOf, Key;
    assert !Brought(env, t, user, id);
    hide Brought;
    var s' := s.(tasks := s.tasks + [t]);
    if SomeBrought(env, s, user, id) {
      var i :| 0 <= i < |s.tasks| && Brought(env, s.tasks[i], user, id);
      assert s'.tasks[i] == s.tasks[i];
    }
  }

  lemma AdvanceIsAccounted(env: Env, start: Db, s: State, i: nat, outcome: Outcome, snapshot: seq<Pending>, user: string)
    requires Inv(s) && ProcessInv(env, s) && i < |s.tasks| && !Finished(s.tasks[i])
    requires IsTenantId(user) && Accounted(env, start, s, user)
    ensures var r := StepTask(env, s.db, s.tasks[i], outcome, snapshot);
      Accounted(env, start, State(r.0, s.tasks[i := r.1]), user)
  {
    hide Inv, ProcessInv, StepTask, IsTenantId, Key, Brought, SavesNow, PostsNow, SomeBrought;
    var r := StepTask(env, s.db, s.tasks[i], outcome, snapshot);
    var s' := State(r.0, s.tasks[i := r.1]);
    forall id
      ensures Key(user, id) in s'.db.messages <==> Key(user, id) in start.messages || SomeBrought(env, s', user, id)
    {
      TaskIsAccounted(env, s, i, outcome, snapshot, user, id);
      BroughtByOthers(env, s.tasks, i, r.1, s.db, r.0, user, id);
    }
  }

  lemma StepIsAccounted(env: Env, start: Db, s: State, ev: Event, user: string)
    requires Inv(s) && ProcessInv(env, s) && Allowed(s, ev) && IsTenantId(user) && Accounted(env, start, s, user)
    ensures Accounted(env, start, After(env, s, ev), user)
  {
    hide Inv, ProcessInv, StepTask, IsTenantId, Key, Brought, S.IsBacklog, Mailbox.Delivery, MayStart;
    match ev {
      case Start(t) =>
        forall id
          ensures SomeBrought(env, s.(tasks := s.tasks + [t]), user, id) <==> SomeBrought(env, s, user, id)
        {
          BroughtAfterStart(env, s, t, user, id);
        }
      case Arrive(_, _, _, _) => assert forall id :: SomeBrought(env, After(env, s, ev), user, id) == SomeBrought(env, s, user, id);
      case Signup(_) => assert forall id :: SomeBrought(env, After(env, s, ev), user, id) == SomeBrought(env, s, user, id);
      case Advance(i, outcome, snapshot) => AdvanceIsAccounted(env, start, s, i, outcome, snapshot, user);
      case DeliverAtOnce(i) =>
        var one := Advance(i, Lost, []);
        var s1 := After(env, s, one);
        AdvanceIsAccounted(env, start, s, i, Lost, [], user);
        StepKeepsInv(env, s, one);
        StepKeepsProcessInv(env, s, one);
        AtOnceIsTwoSteps(env, s, i, Lost);
        AdvanceIsAccounted(env, start, s1, i, Lost, [], user);
    }
  }

  lemma {:induction false} RunIsAccounted(env: Env, start: Db, s: State, evs: seq<Event>, user: string)
    requires Inv(s) && ProcessInv(env, s) && IsRun(env, s, evs)
    requires IsTenantId(user) && Accounted(env, start, s, user)
    ensures Accounted(env, start, End(env, s, evs), user)
    decreases |evs|
  {
    hide Inv, ProcessInv, Allowed, After, Accounted, IsTenantId, Grows;
    if evs != [] {
      StepKeepsInv(env, s, evs[0]);
      StepKeepsProcessInv(env, s, evs[0]);
      StepIsAccounted(env, start, s, evs[0], user);
      RunIsAccounted(env, start, After(env, s, evs[0]), evs[1..], user);
    }
  }

  /** In a reachable state everything brought is there, so the state accounts for itself. */
  lemma ReachableIsAccounted(env: Env, evs: seq<Event>, user: string)
    requires IsRun(env, INITIAL, evs) && IsTenantId(user)
    ensures var s := End(env, INITIAL, evs); Inv(s) && ProcessInv(env, s) && Accounted(env, s.db, s, user)
  {
    InitialIsOk(env);
    assert Accounted(env, EMPTY, INITIAL, user);
    hide Inv, ProcessInv, IsRun, End, IsTenantId, SomeBrought;
    RunKeepsProcessInv(env, INITIAL, evs);
    RunIsAccounted(env, EMPTY, INITIAL, evs, user);
  }

  /** Every processing task of the user has run to its end. */
  ghost predicate AllFinished(s: State, user: string) {
    forall i :: 0 <= i < |s.tasks| && s.tasks[i].Process? && s.tasks[i].user == user ==> Finished(s.tasks[i])
  }

  lemma FinishedSavedAll(env: Env, s: State, user: string, id: string)
    requires ProcessInv(env, s) && AllFinished(s, user)
    ensures SomeBrought(env, s, user, id) <==> SomeFetched(env, s, user, id) || SomePosted(s, user, id)
  {
    hide NothingLost, MailId, HasPosted;
    if i :| 0 <= i < |s.tasks| && HasFetched(env, s.tasks[i], user, id) {
      var t := s.tasks[i];
      assert TaskOk(env, s.db, t) && Finished(t);
      assert HasSaved(env, t, user, id);
      assert Brought(env, t, user, id);
    }
    if i :| 0 <= i < |s.tasks| && HasSaved(env, s.tasks[i], user, id) {
      assert HasFetched(env, s.tasks[i], user, id);
    }
    if i :| 0 <= i < |s.tasks| && HasPosted(s.tasks[i], user, id) {
      assert Brought(env, s.tasks[i], user, id);
    }
  }

  /**
   * However processing runs interleave with each other and with sends, deliveries, polls, reads and
   * deletions: once the user's processing tasks are through, every packet they fetched is processed,
   * and the user's message ids are the old ones, those of the fetched packets that open, however
   * often a packet was stored or fetched, and those of letters saved for him.
   */
  lemma ProcessingAccounts(env: Env, first: seq<Event>, rest: seq<Event>, user: string)
    requires IsRun(env, INITIAL, first) && IsRun(env, End(env, INITIAL, first), rest) && IsTenantId(user)
    requires AllFinished(End(env, End(env, INITIAL, first), rest), user)
    ensures var s, e := End(env, INITIAL, first), End(env, End(env, INITIAL, first), rest);
            && (forall i, j :: 0 <= i < |e.tasks| && e.tasks[i].Process? && e.tasks[i].user == user && 0 <= j < |e.tasks[i].packets| ==>
                  IsFetched(e.db, user, e.tasks[i].packets[j]) && e.db.pending[e.tasks[i].packets[j].id - 1].processed)
            && (forall id :: Key(user, id) in e.db.messages <==>
                  Key(user, id) in s.db.messages || SomeFetched(env, e, user, id) || SomePosted(e, user, id))
  {
    hide Inv, IsRun, End, IsTenantId, Key, NothingLost, SomeFetched, SomeBrought, SomePosted;
    var s, e := End(env, INITIAL, first), End(env, End(env, INITIAL, first), rest);
    ReachableIsAccounted(env, first, user);
    RunIsAccounted(env, s.db, s, rest, user);
    RunKeepsProcessInv(env, s, rest);
    forall id
      ensures SomeBrought(env, e, user, id) <==> SomeFetched(env, e, user, id) || SomePosted(e, user, id)
    {
      FinishedSavedAll(env, e, user, id);
    }
    forall i, j | 0 <= i < |e.tasks| && e.tasks[i].Process? && e.tasks[i].user == user && 0 <= j < |e.tasks[i].packets|
      ensures IsFetched(e.db, user, e.tasks[i].packets[j]) && e.db.pending[e.tasks[i].packets[j].id - 1].processed
    {
      assert TaskOk(env, e.db, e.tasks[i]);
    }
  }

  // ---------- an empty backlog, and confluence ----------

  /** The raw packets a user has received, processed or not. */
  function DataOf(db: Db, user: string): set<bytes> {
    set p | p in db.pending && p.userId == user :: p.rawData
  }

  /** A packet of the user opens to a message with this id. */
  ghost predicate PacketWith(env: Env, db: Db, user: string, id: string) {
    exists data :: data in DataOf(db, user) && env.open(user, data).Some? && env.open(user, data).value.id == id
  }

  lemma SavedFromPacket(env: Env, s: State, user: string, id: string, i: nat)
    requires ProcessInv(env, s) && i < |s.tasks| && HasSaved(env, s.tasks[i], user, id)
    ensures PacketWith(env, s.db, user, id)
  {
    hide NothingLost;
    var t := s.tasks[i];
    assert TaskOk(env, s.db, t);
    var j :| 0 <= j < |t.packets| && (j < t.at || (j == t.at && t.saved)) && MailId(env, user, t.packets[j]) == Some(id);
    assert IsFetched(s.db, t.user, t.packets[j]);
    var p := s.db.pending[t.packets[j].id - 1];
    assert p in s.db.pending && p.rawData in DataOf(s.db, user);
  }

  lemma ProcessedPacketIsThere(env: Env, s: State, user: string, id: string)
    requires ProcessInv(env, s) && S.IsBacklog(s.db, user, []) && PacketWith(env, s.db, user, id)
    ensures Key(user, id) in s.db.messages
  {
    hide Key;
    var data :| data in DataOf(s.db, user) && env.open(user, data).Some? && env.open(user, data).value.id == id;
    var p :| p in s.db.pending && p.userId == user && p.rawData == data;
    var i :| 0 <= i < |s.db.pending| && s.db.pending[i] == p;
    assert p.processed;
    assert Kept(env, s.db, s.db.pending[i]);
  }

  lemma EmptyBacklogSaved(env: Env, start: Db, s: State, user: string, id: string)
    requires ProcessInv(env, s) && Accounted(env, start, s, user) && S.IsBacklog(s.db, user, [])
    ensures Key(user, id) in s.db.messages <==>
            Key(user, id) in start.messages || PacketWith(env, s.db, user, id) || SomePosted(s, user, id)
  {
    hide Key, ProcessInv, HasSaved, HasPosted, PacketWith, S.IsBacklog;
    if PacketWith(env, s.db, user, id) { ProcessedPacketIsThere(env, s, user, id); }
    if i :| 0 <= i < |s.tasks| && HasPosted(s.tasks[i], user, id) {
      assert Brought(env, s.tasks[i], user, id) && SomeBrought(env, s, user, id);
    }
    if SomeBrought(env, s, user, id) {
      var i :| 0 <= i < |s.tasks| && Brought(env, s.tasks[i], user, id);
      if HasSaved(env, s.tasks[i], user, id) { SavedFromPacket(env, s, user, id, i); }
    }
  }

  /** The packets that arrive for the user in a run. */
  function ArrivedFor(evs: seq<Event>, user: string): set<bytes> {
    if evs == [] then {}
    else (if evs[0].Arrive? && evs[0].user == user then {evs[0].data} else {}) + ArrivedFor(evs[1..], user)
  }

  /** The same packets, processed or not. */
  ghost predicate SameRawPackets(db: Db, db': Db) {
    |db'.pending| == |db.pending| && forall i :: 0 <= i < |db.pending| ==>
      db'.pending[i].userId == db.pending[i].userId && db'.pending[i].rawData == db.pending[i].rawData
  }

  lemma StepKeepsPackets(env: Env, s: State, ev: Event)
    requires Allowed(s, ev) && !ev.Arrive?
    ensures SameRawPackets(s.db, After(env, s, ev).db)
  {
    hide StepLetter, StepRead, StepProcess, MayStart, S.IsBacklog, Mailbox.Delivery;
    match ev {
      case Advance(i, outcome, _) =>
        var t := s.tasks[i];
        if t.Process? {
          ProcessKeepsPackets(env, s.db, t);
        } else if t.SetReadFlag? || t.GetRead? || t.FindSender? || t.Receipt? || t.SetTrash? {
          ReadStepIsQuiet(s.db, t);
        } else if !t.Fetch? {
          LetterStepIsQuiet(s.db, t, outcome);
        }
      case DeliverAtOnce(i) => DeliveryIsQuiet(s.db, s.tasks[i].l, s.tasks[i].to);
      case _ =>
    }
  }

  lemma ProcessKeepsPackets(env: Env, db: Db, t: Task)
    requires t.Process? && t.at < |t.packets|
    ensures SameRawPackets(db, StepProcess(env, db, t).0)
  {
    hide Key, AddressOf, Filled;
  }

  lemma SameData(db: Db, db': Db, user: string)
    requires SameRawPackets(db, db')
    ensures DataOf(db', user) == DataOf(db, user)
  {
    forall data
      ensures data in DataOf(db', user) <==> data in DataOf(db, user)
    {
      if data in DataOf(db, user) {
        var p :| p in db.pending && p.userId == user && p.rawData == data;
        var i :| 0 <= i < |db.pending| && db.pending[i] == p;
        assert db'.pending[i] in db'.pending;
      }
      if data in DataOf(db', user) {
        var p :| p in db'.pending && p.userId == user && p.rawData == data;
        var i :| 0 <= i < |db'.pending| && db'.pending[i] == p;
        assert db.pending[i] in db.pending;
      }
    }
  }

  lemma ArrivalAddsData(db: Db, to: string, data: bytes, sender: string, now: int, user: string)
    ensures DataOf(AddPending(db, to, data, sender, now), user) == DataOf(db, user) + (if to == user then {data} else {})
  {
    var db' := AddPending(db, to, data, sender, now);
    var p := db'.pending[|db.pending|];
    assert forall q :: q in db'.pending <==> q in db.pending || q == p;
    forall d | d in DataOf(db, user)
      ensures d in DataOf(db', user)
    {
      var q :| q in db.pending && q.userId == user && q.rawData == d;
      assert q in db'.pending;
    }
    if to == user { assert p in db'.pending && p.rawData in DataOf(db', user); }
  }

  lemma {:induction false} DataGrowsByArrivals(env: Env, s: State, evs: seq<Event>, user: string)
    requires IsRun(env, s, evs)
    ensures DataOf(End(env, s, evs).db, user) == DataOf(s.db, user) + ArrivedFor(evs, user)
    decreases |evs|
  {
    if evs != [] {
      var ev, s' := evs[0], After(env, s, evs[0]);
      if ev.Arrive? {
        ArrivalAddsData(s.db, ev.user, ev.data, ev.sender, ev.now, user);
        assert DataOf(s'.db, user) == DataOf(s.db, user) + (if ev.user == user then {ev.data} else {});
      } else {
        hide After, Allowed;
        StepKeepsPackets(env, s, ev);
        SameData(s.db, s'.db, user);
      }
      hide After, Allowed, DataOf;
      DataGrowsByArrivals(env, s', evs[1..], user);
    }
  }

  /**
   * When a run ends with the user's backlog empty, his message ids are the old ones, those of every
   * packet of his that opens, whether it was pending at the start or arrived since, and those of
   * letters saved for him.
   */
  lemma EmptyBacklogAccounts(env: Env, first: seq<Event>, rest: seq<Event>, user: string, id: string)
    requires IsRun(env, INITIAL, first) && IsRun(env, End(env, INITIAL, first), rest) && IsTenantId(user)
    requires S.IsBacklog(End(env, End(env, INITIAL, first), rest).db, user, [])
    ensures var s, e := End(env, INITIAL, first), End(env, End(env, INITIAL, first), rest);
      && DataOf(e.db, user) == DataOf(s.db, user) + ArrivedFor(rest, user)
      && (Key(user, id) in e.db.messages <==>
            Key(user, id) in s.db.messages || PacketWith(env, e.db, user, id) || SomePosted(e, user, id))
  {
    hide Inv, ProcessInv, IsRun, End, IsTenantId, Key, S.IsBacklog, PacketWith, SomePosted, Accounted, DataOf;
    var s := End(env, INITIAL, first);
    ReachableIsAccounted(env, first, user);
    RunIsAccounted(env, s.db, s, rest, user);
    RunKeepsProcessInv(env, s, rest);
    DataGrowsByArrivals(env, s, rest, user);
    EmptyBacklogSaved(env, s.db, End(env, s, rest), user, id);
  }

  /**
   * Two interleavings from one state in which the same packets arrive for the user and which leave
   * him no backlog end with the same message ids, letters apart.
   */
  lemma ProcessingIsConfluent(env: Env, first: seq<Event>, one: seq<Event>, other: seq<Event>, user: string, id: string)
    requires IsRun(env, INITIAL, first) && IsTenantId(user)
    requires var s := End(env, INITIAL, first);
      && IsRun(env, s, one) && S.IsBacklog(End(env, s, one).db, user, [])
      && IsRun(env, s, other) && S.IsBacklog(End(env, s, other).db, user, [])
      && ArrivedFor(one, user) == ArrivedFor(other, user)
      && (SomePosted(End(env, s, one), user, id) <==> SomePosted(End(env, s, other), user, id))
    ensures var s := End(env, INITIAL, first);
      Key(user, id) in End(env, s, one).db.messages <==> Key(user, id) in End(env, s, other).db.messages
  {
    hide IsRun, End, IsTenantId, Key, S.IsBacklog, SomePosted, ArrivedFor, DataOf, PacketWith;
    EmptyBacklogAccounts(env, first, one, user, id);
    EmptyBacklogAccounts(env, first, other, user, id);
    SameDataSameMail(env, End(env, End(env, INITIAL, first), one).db, End(env, End(env, INITIAL, first), other).db, user, id);
  }

  lemma SameDataSameMail(env: Env, db: Db, db': Db, user: string, id: string)
    requires DataOf(db, user) == DataOf(db', user)
    ensures PacketWith(env, db, user, id) <==> PacketWith(env, db', user, id)
  {
    hide DataOf;
  }

  // ---------- duplicates ----------

  /**
   * A processing step leaves a row the user already has alone unless the packet at hand carries
   * that very message id; then the row is written anew, unread and back in the inbox, whatever
   * the user had done with it.
   */
  lemma DuplicateResetsTheRow(env: Env, db: Db, t: Task, user: string, id: string)
    requires t.Process? && t.at < |t.packets| && IsTenantId(user) && IsTenantId(t.user) && Key(user, id) in db.messages
    ensures var row' := StepProcess(env, db, t).0.messages;
      && Key(user, id) in row'
      && (!SavesNow(env, t, user, id) ==> row'[Key(user, id)] == db.messages[Key(user, id)])
      && (SavesNow(env, t, user, id) ==>
            row'[Key(user, id)].msg.folder == "inbox" && !row'[Key(user, id)].msg.isRead && row'[Key(user, id)].msg.status == "")
  {
    hide IsTenantId, Key, MarkProcessed, AddressOf;
    var p := t.packets[t.at];
    MarkingGrows(db, p.id);
    match env.open(t.user, p.rawData) {
      case None =>
      case Some(m) => KeyIsInjective(user, id, t.user, m.id);
    }
  }
}
