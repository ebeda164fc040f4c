/**
 * Sent messages over whole runs (pkg/daemon/multi_tenant.go, SendMessageForUser and
 * SendMessageFederated): which rows a letter has at each stage of its delivery, and with which
 * content and status. Everything is said of one letter, whatever the others do.
 */
module Letters {
  import opened Bytes
  import opened Like
  import opened Tables
  import opened Views
  import opened Mailbox
  import S = Store

  /** No packet carries this id: ids in packets are drawn by their senders, this one by the daemon. */
  ghost predicate NoPacketCarries(env: Env, id: string) {
    forall user: string, data: bytes :: env.open(user, data).Some? ==> env.open(user, data).value.id != id
  }

  /** The task has a store call of a letter to make. */
  predicate Sends(t: Task) {
    t.SaveSent? || t.LookUp? || t.SaveInbox? || t.Confirm? || t.Push? || t.SaveFederated?
  }

  predicate Reads(t: Task) {
    t.SetReadFlag? || t.GetRead? || t.FindSender? || t.Receipt? || t.SetTrash?
  }

  // ---------- the rows of one letter ----------

  /** The content of a letter's row; read flag, folder, status and key are apart. */
  ghost predicate HoldsLetter(m: Message, l: Letter) {
    && m.sender == l.senderAddr && m.recipient == l.recipientAddr && m.subject == l.subject && m.body == l.body
    && m.timestamp == l.timestamp && m.replyToId == l.replyToId
    && m.threadId == (if l.replyToId != "" then l.replyToId else l.msgId)
  }

  datatype Stage = NoRows | SenderOnly(statuses: set<string>) | Both(to: string, statuses: set<string>)

  /** Who has a row at each stage, and which statuses the sender's can show; a receipt can come at any time. */
  function StageOf(t: Task): Stage
    requires LetterOf(t).Some?
  {
    match t
    case SaveSent(_) => NoRows
    case SaveFederated(_) => NoRows
    case LookUp(_) => SenderOnly({"sending", "read"})
    case SaveInbox(_, _) => SenderOnly({"sending", "read"})
    case Push(_) => SenderOnly({"sending", "read"})
    case Pushed(_) => SenderOnly({"sending", "sent", "delivered", "read"})
    case Confirm(l, to) => Both(to, {if to == l.sender then "" else "sending", "read"})
    case Delivered(_, to) => Both(to, {"delivered", "read"})
  }

  ghost predicate HasRow(g: Stage, l: Letter, user: string) {
    (!g.NoRows? && user == l.sender) || (g.Both? && user == g.to)
  }

  /** The letter's id has exactly the rows of its stage, with its content and an expected status. */
  ghost predicate RowsAre(db: Db, l: Letter, g: Stage) {
    && (forall w :: IsTenantId(w) ==> (Key(w, l.msgId) in db.messages <==> HasRow(g, l, w)))
    && (forall w :: IsTenantId(w) && HasRow(g, l, w) && Key(w, l.msgId) in db.messages ==>
          HoldsLetter(db.messages[Key(w, l.msgId)].msg, l))
    && (!g.NoRows? && Key(l.sender, l.msgId) in db.messages ==> db.messages[Key(l.sender, l.msgId)].msg.status in g.statuses)
    && (g.SenderOnly? && Key(l.sender, l.msgId) in db.messages ==> db.messages[Key(l.sender, l.msgId)].msg.folder in {"sent", "trash"})
    && (g.Both? ==> IsTenantId(g.to))
  }

  ghost predicate LetterOk(db: Db, t: Task) {
    match LetterOf(t)
    case None => true
    case Some(l) => IsTenantId(l.sender) && RowsAre(db, l, StageOf(t)) && (t.SaveInbox? ==> IsTenantId(t.to))
  }

  /** One task at most carries the id, and its letter has the rows of its stage; without one there are no rows. */
  ghost predicate LetterInv(s: State, id: string) {
    && (forall i, j :: 0 <= i < |s.tasks| && 0 <= j < |s.tasks| && Carries(s.tasks[i], id) && Carries(s.tasks[j], id) ==> i == j)
    && (forall i :: 0 <= i < |s.tasks| && Carries(s.tasks[i], id) ==> LetterOk(s.db, s.tasks[i]))
    && ((forall i :: 0 <= i < |s.tasks| ==> !Carries(s.tasks[i], id)) ==> NoRowsUnder(s.db, id))
  }

  ghost predicate NoRowsUnder(db: Db, id: string) {
    forall w :: IsTenantId(w) ==> Key(w, id) !in db.messages
  }

  // ---------- what one store call touches ----------

  /** Nothing but the row with this key is added or changed. */
  ghost predicate OnlyAt(db: Db, db': Db, k: string) {
    forall k' :: k' != k ==>
      (k' in db'.messages <==> k' in db.messages) && (k' in db.messages ==> db'.messages[k'] == db.messages[k'])
  }

  /** The row keeps its content and status. */
  ghost predicate SameContent(db: Db, db': Db, k: string) {
    && (k in db'.messages <==> k in db.messages)
    && (k in db.messages ==>
          var m, m' := db.messages[k].msg, db'.messages[k].msg;
          m' == m.(isRead := m'.isRead, folder := m'.folder) && m'.folder in {m.folder, "trash"})
  }

  /** The row stays with its content, and with its status or as read. */
  ghost predicate GentleAt(db: Db, db': Db, k: string) {
    && (k in db'.messages <==> k in db.messages)
    && (k in db.messages ==>
          var m, m' := db.messages[k].msg, db'.messages[k].msg;
          && m' == m.(isRead := m'.isRead, folder := m'.folder, status := m'.status)
          && m'.folder in {m.folder, "trash"}
          && m'.status in {m.status, "read"})
  }

  /** So does every user's row under this message id. */
  ghost predicate Gentle(db: Db, db': Db, id: string) {
    forall w :: IsTenantId(w) ==> GentleAt(db, db', Key(w, id))
  }

  /** Nobody's row under this id is added, or changed in content or status. */
  ghost predicate Still(db: Db, db': Db, id: string) {
    forall w :: IsTenantId(w) ==> SameContent(db, db', Key(w, id))
  }

  lemma SaveForTouches(db: Db, user: string, m: Message)
    ensures OnlyAt(db, SaveFor(db, user, m), Key(user, m.id))
    ensures Key(user, m.id) in SaveFor(db, user, m).messages
    ensures SaveFor(db, user, m).messages[Key(user, m.id)].msg == Filled(m).(id := Key(user, m.id))
    ensures SaveFor(db, user, m).users == db.users
  {
  }

  lemma StatusTouches(db: Db, k: string, status: string)
    requires Valid(db)
    ensures OnlyAt(db, SetStatus(db, k, status), k) && SetStatus(db, k, status).users == db.users
    ensures k in SetStatus(db, k, status).messages <==> k in db.messages
    ensures k in db.messages ==> SetStatus(db, k, status).messages[k].msg == db.messages[k].msg.(status := status)
  {
  }

  lemma FlagsTouch(db: Db, k: string)
    requires Valid(db)
    ensures OnlyAt(db, SetRead(db, k), k) && SameContent(db, SetRead(db, k), k) && SetRead(db, k).users == db.users
    ensures OnlyAt(db, Trash(db, k), k) && SameContent(db, Trash(db, k), k)
  {
  }

  lemma MarkTouches(db: Db, id: nat)
    ensures MarkProcessed(db, id).messages == db.messages && MarkProcessed(db, id).users == db.users
  {
  }

  /** A letter's store call writes one key, of a user it is for. */
  lemma LetterStepTouches(db: Db, t: Task, outcome: Outcome) returns (user: string)
    requires Sends(t) && Valid(db)
    ensures user in UsersOf(t) && OnlyAt(db, StepLetter(db, t, outcome).0, Key(user, t.l.msgId))
    ensures user == if t.SaveInbox? then t.to else t.l.sender
  {
    hide Valid, SaveFor, SetStatus, Key;
    user := if t.SaveInbox? then t.to else t.l.sender;
    if t.SaveInbox? { SaveForTouches(db, t.to, InboxCopy(t.l)); }
    SaveForTouches(db, t.l.sender, SentCopy(t.l));
    StatusTouches(db, Key(t.l.sender, t.l.msgId), "delivered");
    StatusTouches(db, Key(t.l.sender, t.l.msgId), "sent");
  }

  // ---------- the other tasks are gentle ----------

  lemma OnlyAtIsGentle(db: Db, db': Db, user: string, x: string, id: string)
    requires OnlyAt(db, db', Key(user, x)) && IsTenantId(user) && x != id
    ensures Gentle(db, db', id) && Still(db, db', id)
  {
    hide IsTenantId, Key;
    forall w | IsTenantId(w)
      ensures Key(w, id) != Key(user, x)
    {
      KeyIsInjective(w, id, user, x);
    }
  }

  lemma FlagIsGentle(db: Db, k: string, id: string)
    requires Valid(db)
    ensures Gentle(db, SetRead(db, k), id) && Gentle(db, Trash(db, k), id) && Gentle(db, SetStatus(db, k, "read"), id)
    ensures Gentle(db, db, id) && Still(db, db, id) && Still(db, SetRead(db, k), id) && Still(db, Trash(db, k), id)
  {
    hide SetRead, Trash, SetStatus, Key, IsTenantId, Valid;
    FlagsTouch(db, k);
    StatusTouches(db, k, "read");
    forall w | IsTenantId(w)
      ensures GentleAt(db, SetRead(db, k), Key(w, id)) && GentleAt(db, Trash(db, k), Key(w, id))
      ensures GentleAt(db, SetStatus(db, k, "read"), Key(w, id))
      ensures SameContent(db, SetRead(db, k), Key(w, id)) && SameContent(db, Trash(db, k), Key(w, id))
    {
      assert Key(w, id) == k || Key(w, id) != k;
    }
  }

  lemma ReadStepIsGentle(db: Db, t: Task, id: string)
    requires Reads(t) && Valid(db) && (t.Receipt? ==> IsTenantId(t.sender))
    ensures Gentle(db, StepRead(db, t).0, id) && (!(t.Receipt? && t.id == id) ==> Still(db, StepRead(db, t).0, id))
  {
    hide SetRead, Trash, SetStatus, Valid, Key, Gentle, Still, IsTenantId;
    match t {
      case SetReadFlag(user, x) => FlagIsGentle(db, Key(user, x), id);
      case Receipt(_, sender, x) =>
        FlagIsGentle(db, Key(sender, x), id);
        StatusTouches(db, Key(sender, x), "read");
        if x != id { OnlyAtIsGentle(db, SetStatus(db, Key(sender, x), "read"), sender, x, id); }
      case SetTrash(user, x) => FlagIsGentle(db, Key(user, x), id);
      case _ => FlagIsGentle(db, "", id);
    }
  }

  lemma ProcessStepIsGentle(env: Env, db: Db, t: Task, id: string)
    requires t.Process? && t.at < |t.packets| && IsTenantId(t.user) && NoPacketCarries(env, id)
    ensures Gentle(db, StepProcess(env, db, t).0, id) && Still(db, StepProcess(env, db, t).0, id)
  {
    hide IsTenantId, SaveFor, Key, AddressOf, MarkProcessed;
    var p := t.packets[t.at];
    MarkTouches(db, p.id);
    if env.open(t.user, p.rawData).Some? && !t.saved {
      var m := PacketCopy(db, t.user, p, env.open(t.user, p.rawData).value);
      SaveForTouches(db, t.user, m);
      OnlyAtIsGentle(db, SaveFor(db, t.user, m), t.user, m.id, id);
    }
  }

  lemma TaskUsersAreTenants(s: State, i: nat)
    requires Inv(s) && i < |s.tasks|
    ensures Valid(s.db) && UsersOk(s.db.users) && forall v :: v in UsersOf(s.tasks[i]) ==> IsTenantId(v)
  {
    hide IsTenantId, Valid, Scoped, UsersOk, IsUser, UsersOf;
    forall v | v in UsersOf(s.tasks[i])
      ensures IsTenantId(v)
    {
      UserIsTenant(s.db, v);
    }
  }

  /** A step of a task that does not carry the id leaves the letter's rows, except for a receipt. */
  lemma OtherTaskIsGentle(env: Env, s: State, i: nat, outcome: Outcome, snapshot: seq<Pending>, id: string)
    requires Inv(s) && NoPacketCarries(env, id) && i < |s.tasks| && !Finished(s.tasks[i]) && !Carries(s.tasks[i], id)
    ensures var t, db' := s.tasks[i], StepTask(env, s.db, s.tasks[i], outcome, snapshot).0;
      Gentle(s.db, db', id) && (!(t.Receipt? && t.id == id) ==> Still(s.db, db', id))
  {
    hide StepLetter, StepRead, StepProcess, NoPacketCarries, Inv, Valid, UsersOk, IsTenantId, Gentle, Still, Key;
    var t := s.tasks[i];
    TaskUsersAreTenants(s, i);
    if t.Process? {
      assert t.user in UsersOf(t);
      ProcessStepIsGentle(env, s.db, t, id);
    } else if Reads(t) {
      assert t.Receipt? ==> t.sender in UsersOf(t);
      ReadStepIsGentle(s.db, t, id);
    } else if t.Fetch? {
      FlagIsGentle(s.db, "", id);
    } else {
      var user := LetterStepTouches(s.db, t, outcome);
      OnlyAtIsGentle(s.db, StepLetter(s.db, t, outcome).0, user, t.l.msgId, id);
    }
  }

  lemma GentleKeepsLetter(db: Db, db': Db, t: Task, id: string)
    requires Carries(t, id) && LetterOk(db, t) && Gentle(db, db', id)
    ensures LetterOk(db', t)
  {
    hide IsTenantId, Key;
    var l, g := LetterOf(t).value, StageOf(t);
    assert !g.NoRows? ==> "read" in g.statuses;
    forall w | IsTenantId(w)
      ensures GentleAt(db, db', Key(w, l.msgId))
    {
    }
  }

  lemma GentleKeepsNone(db: Db, db': Db, id: string)
    requires NoRowsUnder(db, id) && Gentle(db, db', id)
    ensures NoRowsUnder(db', id)
  {
    hide IsTenantId, Key;
    forall w | IsTenantId(w)
      ensures Key(w, id) !in db'.messages
    {
      assert GentleAt(db, db', Key(w, id));
    }
  }

  // ---------- the letter's own steps ----------

  lemma SaveSentRows(db: Db, l: Letter)
    requires RowsAre(db, l, NoRows) && IsTenantId(l.sender)
    ensures RowsAre(SaveFor(db, l.sender, SentCopy(l)), l, SenderOnly({"sending", "read"}))
  {
    hide IsTenantId, Key, SaveFor;
    SaveForTouches(db, l.sender, SentCopy(l));
    forall w | IsTenantId(w)
      ensures Key(w, l.msgId) == Key(l.sender, l.msgId) ==> w == l.sender
    {
      KeyIsInjective(w, l.msgId, l.sender, l.msgId);
    }
  }

  /** The inbox copy is one more row, or it takes the place of the sender's own. */
  lemma SaveInboxRows(db: Db, l: Letter, to: string)
    requires RowsAre(db, l, SenderOnly({"sending", "read"})) && IsTenantId(l.sender) && IsTenantId(to)
    ensures RowsAre(SaveFor(db, to, InboxCopy(l)), l, StageOf(Confirm(l, to)))
  {
    hide IsTenantId, Key, SaveFor;
    SaveForTouches(db, to, InboxCopy(l));
    forall w | IsTenantId(w)
      ensures Key(w, l.msgId) == Key(to, l.msgId) ==> w == to
    {
      KeyIsInjective(w, l.msgId, to, l.msgId);
    }
    assert Key(l.sender, l.msgId) == Key(to, l.msgId) <==> l.sender == to;
  }

  /** A status update of the sender's row keeps the rows and replaces what statuses are possible. */
  lemma StatusRows(db: Db, l: Letter, g: Stage, g': Stage, status: string)
    requires Valid(db) && RowsAre(db, l, g) && IsTenantId(l.sender) && !g.NoRows? && !g'.NoRows? && status in g'.statuses
    requires g' == g.(statuses := g'.statuses)
    ensures RowsAre(SetStatus(db, Key(l.sender, l.msgId), status), l, g')
  {
    hide IsTenantId, Key, SetStatus, Valid;
    var k := Key(l.sender, l.msgId);
    StatusTouches(db, k, status);
    assert k in db.messages;
    forall w | IsTenantId(w)
      ensures Key(w, l.msgId) == k ==> w == l.sender
    {
      KeyIsInjective(w, l.msgId, l.sender, l.msgId);
    }
  }

  lemma MoreStatuses(db: Db, l: Letter, g: Stage, g': Stage)
    requires RowsAre(db, l, g) && !g.NoRows? && !g'.NoRows? && g' == g.(statuses := g'.statuses) && g.statuses <= g'.statuses
    ensures RowsAre(db, l, g')
  {
    hide IsTenantId, Key;
  }

  lemma OwnStep(db: Db, t: Task, outcome: Outcome)
    requires Sends(t) && Valid(db) && UsersOk(db.users) && LetterOk(db, t)
    ensures LetterOk(StepLetter(db, t, outcome).0, StepLetter(db, t, outcome).1)
  {
    hide IsTenantId, Key, SetStatus, SaveFor, Valid, RowsAre;
    var l := t.l;
    match t {
      case SaveSent(_) => SaveSentRows(db, l);
      case SaveFederated(_) => SaveSentRows(db, l);
      case LookUp(_) =>
      case SaveInbox(_, to) => SaveInboxRows(db, l, to);
      case Confirm(_, to) => StatusRows(db, l, StageOf(t), Both(to, {"delivered", "read"}), "delivered");
      case Push(_) =>
        var g, g' := StageOf(t), SenderOnly({"sending", "sent", "delivered", "read"});
        StatusRows(db, l, g, g', "delivered");
        StatusRows(db, l, g, g', "sent");
        MoreStatuses(db, l, g, g');
    }
  }

  /** A task keeps its letter from one call to the next. */
  lemma SameLetter(env: Env, db: Db, t: Task, outcome: Outcome, snapshot: seq<Pending>)
    requires !Finished(t)
    ensures LetterOf(StepTask(env, db, t, outcome, snapshot).1) == LetterOf(t)
  {
    hide SaveFor, SetStatus, SetRead, Trash, MarkProcessed, Key;
  }

  // ---------- every step keeps every letter ----------

  lemma AdvanceKeepsLetter(env: Env, s: State, i: nat, outcome: Outcome, snapshot: seq<Pending>, id: string)
    requires NoPacketCarries(env, id) && Inv(s) && LetterInv(s, id) && i < |s.tasks| && !Finished(s.tasks[i])
    ensures var r := StepTask(env, s.db, s.tasks[i], outcome, snapshot); LetterInv(State(r.0, s.tasks[i := r.1]), id)
  {
    hide NoPacketCarries, Inv, StepLetter, StepRead, StepProcess, LetterOk, Gentle, LetterOf, Valid, UsersOk, IsTenantId;
    var t := s.tasks[i];
    var r := StepTask(env, s.db, t, outcome, snapshot);
    SameLetter(env, s.db, t, outcome, snapshot);
    var tasks' := s.tasks[i := r.1];
    assert forall j :: 0 <= j < |s.tasks| ==> (Carries(tasks'[j], id) <==> Carries(s.tasks[j], id));
    if Carries(t, id) {
      assert Carries(tasks'[i], id);
      TaskUsersAreTenants(s, i);
      LettersSend(t);
      OwnStep(s.db, t, outcome);
    } else {
      OtherTaskIsGentle(env, s, i, outcome, snapshot, id);
      forall j | 0 <= j < |s.tasks| && j != i && Carries(s.tasks[j], id)
        ensures LetterOk(r.0, s.tasks[j])
      {
        GentleKeepsLetter(s.db, r.0, s.tasks[j], id);
      }
      if NoRowsUnder(s.db, id) { GentleKeepsNone(s.db, r.0, id); }
    }
  }

  lemma LettersSend(t: Task)
    requires LetterOf(t).Some? && !Finished(t)
    ensures Sends(t)
  {
  }

  /** A local delivery at once is its two store calls in a row. */
  lemma AtOnceIsTwoSteps(env: Env, s: State, i: nat, outcome: Outcome)
    requires i < |s.tasks| && s.tasks[i].SaveInbox?
    ensures var s1 := After(env, s, Advance(i, outcome, []));
      Allowed(s1, Advance(i, outcome, [])) && After(env, s1, Advance(i, outcome, [])) == After(env, s, DeliverAtOnce(i))
  {
    hide SaveFor, SetStatus;
    var t := s.tasks[i];
    var s1 := After(env, s, Advance(i, outcome, []));
    assert s1 == State(SaveFor(s.db, t.to, InboxCopy(t.l)), s.tasks[i := Confirm(t.l, t.to)]);
    assert s1.tasks[i := Delivered(t.l, t.to)] == s.tasks[i := Delivered(t.l, t.to)];
  }

  /** The id a new letter draws is fresh. */
  lemma StartKeepsLetter(s: State, t: Task, id: string)
    requires Inv(s) && LetterInv(s, id) && MayStart(s, t)
    ensures LetterInv(s.(tasks := s.tasks + [t]), id)
  {
    hide Valid, Scoped, TasksOk, AddressOf, UsersOk, IsTenantId, IsLetterId, Key, IsUser;
    var tasks' := s.tasks + [t];
    assert forall i :: 0 <= i < |s.tasks| ==> s.tasks[i] in s.tasks;
    if t.SaveSent? || t.SaveFederated? { UserIsTenant(s.db, t.l.sender); }
    assert forall i :: 0 <= i < |tasks'| ==> tasks'[i] == if i < |s.tasks| then s.tasks[i] else t;
  }

  lemma SameMessagesKeepLetter(s: State, db': Db, id: string)
    requires LetterInv(s, id) && db'.messages == s.db.messages
    ensures LetterInv(s.(db := db'), id)
  {
    hide IsTenantId, Key, HoldsLetter;
    forall i | 0 <= i < |s.tasks| && Carries(s.tasks[i], id)
      ensures LetterOk(db', s.tasks[i])
    {
      assert LetterOk(s.db, s.tasks[i]);
    }
  }

  /** The letter keeps exactly the rows of its stage, whatever step any task takes. */
  lemma StepKeepsLetter(env: Env, s: State, ev: Event, id: string)
    requires NoPacketCarries(env, id) && Inv(s) && LetterInv(s, id) && Allowed(s, ev)
    ensures LetterInv(After(env, s, ev), id)
  {
    hide NoPacketCarries, LetterInv, StepTask, Inv, Delivery, MayStart, S.IsBacklog;
    match ev {
      case Start(t) => StartKeepsLetter(s, t, id);
      case Arrive(user, data, sender, now) => SameMessagesKeepLetter(s, AddPending(s.db, user, data, sender, now), id);
      case Signup(u) => SameMessagesKeepLetter(s, s.db.(users := s.db.users + [u]), id);
      case Advance(i, outcome, snapshot) => AdvanceKeepsLetter(env, s, i, outcome, snapshot, id);
      case DeliverAtOnce(i) =>
        var s1 := After(env, s, Advance(i, Lost, []));
        AdvanceKeepsLetter(env, s, i, Lost, [], id);
        StepKeepsInv(env, s, Advance(i, Lost, []));
        AtOnceIsTwoSteps(env, s, i, Lost);
        AdvanceKeepsLetter(env, s1, i, Lost, [], id);
    }
  }

  lemma {:induction false} RunKeepsLetter(env: Env, s: State, evs: seq<Event>, id: string)
    requires NoPacketCarries(env, id) && Inv(s) && LetterInv(s, id) && IsRun(env, s, evs)
    ensures Inv(End(env, s, evs)) && LetterInv(End(env, s, evs), id)
    decreases |evs|
  {
    hide NoPacketCarries, LetterInv, Inv, Allowed, After;
    if evs != [] {
      StepKeepsInv(env, s, evs[0]);
      StepKeepsLetter(env, s, evs[0], id);
      RunKeepsLetter(env, After(env, s, evs[0]), evs[1..], id);
    }
  }

  lemma InitialLetters(id: string)
    ensures Inv(INITIAL) && LetterInv(INITIAL, id)
  {
  }

  /** In every reachable state a letter has exactly the rows of its stage. */
  lemma ReachableLetter(env: Env, evs: seq<Event>, id: string)
    requires NoPacketCarries(env, id) && IsRun(env, INITIAL, evs)
    ensures Inv(End(env, INITIAL, evs)) && LetterInv(End(env, INITIAL, evs), id)
  {
    InitialLetters(id);
    hide Inv, LetterInv, IsRun, End, NoPacketCarries;
    RunKeepsLetter(env, INITIAL, evs, id);
  }
}
