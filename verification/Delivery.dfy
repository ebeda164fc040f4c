/**
 * Delivery status over whole runs (pkg/daemon/multi_tenant.go, SendMessageForUser and
 * SendMessageFederated; pkg/daemon/api_multi.go, handleMTMarkRead). The status is meant to climb
 * sending < sent < delivered < read. Exactly when a step lowers it is proved of every letter in
 * every run; and that it only climbs, when the letter's local delivery is one step and its sender
 * does not read his sent copy before it has gone out.
 */
module Delivery {
  import opened Bytes
  import opened Like
  import opened Tables
  import opened Views
  import opened Mailbox
  import opened Letters
  import S = Store

  function Rank(status: string): nat {
    if status == "sending" then 1 else if status == "sent" then 2
    else if status == "delivered" then 3 else if status == "read" then 4 else 0
  }

  function SentKey(l: Letter): string {
    Key(l.sender, l.msgId)
  }

  /** The status shown to the sender. */
  function StatusOf(db: Db, l: Letter): string
    requires SentKey(l) in db.messages
  {
    db.messages[SentKey(l)].msg.status
  }

  /** The letter's own next call would lower a status: it is over a read receipt, or replaces the sent copy itself. */
  predicate LowersBy(t: Task, outcome: Outcome, status: string) {
    || (t.Confirm? && status == "read")
    || (t.Push? && outcome != Lost && status == "read")
    || (t.SaveInbox? && t.to == t.l.sender)
  }

  /** The step is the letter's own and lowers its status. */
  ghost predicate Lowers(s: State, ev: Event, j: nat, l: Letter)
    requires j < |s.tasks| && SentKey(l) in s.db.messages
  {
    match ev
    case Advance(i, outcome, _) => i == j && LowersBy(s.tasks[j], outcome, StatusOf(s.db, l))
    case DeliverAtOnce(i) => i == j && StatusOf(s.db, l) == "read"
    case _ => false
  }

  // ---------- one step ----------

  lemma GentleStatus(db: Db, db': Db, l: Letter)
    requires Gentle(db, db', l.msgId) && IsTenantId(l.sender) && SentKey(l) in db.messages
    ensures SentKey(l) in db'.messages && StatusOf(db', l) in {StatusOf(db, l), "read"}
  {
    hide IsTenantId;
    assert GentleAt(db, db', Key(l.sender, l.msgId));
  }

  /** Before its first save a letter has no row, and after that its status is one of its stage's. */
  lemma StageStatus(db: Db, t: Task)
    requires LetterOf(t).Some? && LetterOk(db, t) && SentKey(LetterOf(t).value) in db.messages
    ensures !StageOf(t).NoRows? && StatusOf(db, LetterOf(t).value) in StageOf(t).statuses
  {
    hide IsTenantId, Key, HoldsLetter;
    assert HasRow(StageOf(t), LetterOf(t).value, LetterOf(t).value.sender);
  }

  lemma SenderRow(l: Letter, to: string)
    requires IsTenantId(to) && IsTenantId(l.sender)
    ensures Key(to, l.msgId) == SentKey(l) <==> to == l.sender
  {
    hide IsTenantId, Key;
    KeyIsInjective(to, l.msgId, l.sender, l.msgId);
  }

  lemma OwnStepStatus(db: Db, t: Task, outcome: Outcome)
    requires Sends(t) && Valid(db) && LetterOk(db, t) && SentKey(t.l) in db.messages
    ensures var db' := StepLetter(db, t, outcome).0;
      && SentKey(t.l) in db'.messages
      && (Rank(StatusOf(db', t.l)) < Rank(StatusOf(db, t.l)) <==> LowersBy(t, outcome, StatusOf(db, t.l)))
      && (t.Confirm? ==> StatusOf(db', t.l) == "delivered")
      && (t.SaveInbox? ==> StatusOf(db', t.l) == if t.to == t.l.sender then "" else StatusOf(db, t.l))
  {
    hide Valid, IsTenantId, Key, SaveFor, SetStatus, RowsAre;
    var k := SentKey(t.l);
    StageStatus(db, t);
    StatusTouches(db, k, "delivered");
    StatusTouches(db, k, "sent");
    if t.SaveInbox? {
      SaveForTouches(db, t.to, InboxCopy(t.l));
      SenderRow(t.l, t.to);
    }
  }

  lemma AdvanceStatus(env: Env, s: State, i: nat, outcome: Outcome, snapshot: seq<Pending>, j: nat, l: Letter)
    requires NoPacketCarries(env, l.msgId) && Inv(s) && LetterInv(s, l.msgId) && i < |s.tasks| && !Finished(s.tasks[i])
    requires j < |s.tasks| && LetterOf(s.tasks[j]) == Some(l) && SentKey(l) in s.db.messages
    ensures var db' := StepTask(env, s.db, s.tasks[i], outcome, snapshot).0;
      && SentKey(l) in db'.messages
      && (Rank(StatusOf(db', l)) < Rank(StatusOf(s.db, l)) <==> i == j && LowersBy(s.tasks[j], outcome, StatusOf(s.db, l)))
      && (i == j && s.tasks[j].Confirm? ==> StatusOf(db', l) == "delivered")
      && (i == j && s.tasks[j].SaveInbox? ==>
            StatusOf(db', l) == if s.tasks[j].to == l.sender then "" else StatusOf(s.db, l))
      && (i != j ==> StatusOf(db', l) in {StatusOf(s.db, l), "read"})
  {
    hide StepLetter, StepRead, StepProcess, NoPacketCarries, IsTenantId, Key, RowsAre, Inv, Valid, UsersOk, Gentle, LowersBy;
    assert Carries(s.tasks[j], l.msgId) && LetterOk(s.db, s.tasks[j]);
    StageStatus(s.db, s.tasks[j]);
    if i != j {
      assert !Carries(s.tasks[i], l.msgId);
      OtherTaskIsGentle(env, s, i, outcome, snapshot, l.msgId);
      GentleStatus(s.db, StepTask(env, s.db, s.tasks[i], outcome, snapshot).0, l);
      ReadIsTop(StatusOf(s.db, l));
    } else {
      TaskUsersAreTenants(s, i);
      LettersSend(s.tasks[i]);
      OwnStepStatus(s.db, s.tasks[j], outcome);
    }
  }

  lemma ReadIsTop(status: string)
    ensures Rank(status) <= Rank("read")
  {
  }

  lemma AfterSaveInbox(env: Env, s: State, i: nat)
    requires i < |s.tasks| && s.tasks[i].SaveInbox?
    ensures After(env, s, Advance(i, Lost, [])).tasks == s.tasks[i := Confirm(s.tasks[i].l, s.tasks[i].to)]
    ensures After(env, s, Advance(i, Lost, [])).db == StepTask(env, s.db, s.tasks[i], Lost, []).0
  {
    hide SaveFor;
  }

  lemma DeliverAtOnceStatus(env: Env, s: State, i: nat, j: nat, l: Letter)
    requires NoPacketCarries(env, l.msgId) && Inv(s) && LetterInv(s, l.msgId) && i < |s.tasks| && s.tasks[i].SaveInbox?
    requires j < |s.tasks| && LetterOf(s.tasks[j]) == Some(l) && SentKey(l) in s.db.messages
    ensures var db' := After(env, s, DeliverAtOnce(i)).db;
      && SentKey(l) in db'.messages
      && (Rank(StatusOf(db', l)) < Rank(StatusOf(s.db, l)) <==> i == j && StatusOf(s.db, l) == "read")
      && (i == j ==> StatusOf(db', l) == "delivered")
  {
    hide StepTask, NoPacketCarries, Inv, LetterInv, Delivery, Key, LowersBy;
    var s1 := After(env, s, Advance(i, Lost, []));
    AfterSaveInbox(env, s, i);
    AdvanceStatus(env, s, i, Lost, [], j, l);
    AdvanceKeepsLetter(env, s, i, Lost, [], l.msgId);
    StepKeepsInv(env, s, Advance(i, Lost, []));
    AtOnceIsTwoSteps(env, s, i, Lost);
    AdvanceStatus(env, s1, i, Lost, [], j, l);
    if i == j { SaveInboxStatus(s, j); }
  }

  lemma SaveInboxStatus(s: State, j: nat)
    requires j < |s.tasks| && s.tasks[j].SaveInbox? && LetterInv(s, s.tasks[j].l.msgId) && SentKey(s.tasks[j].l) in s.db.messages
    ensures StatusOf(s.db, s.tasks[j].l) in {"sending", "read"}
  {
    hide RowsAre, IsTenantId, Key;
    assert Carries(s.tasks[j], s.tasks[j].l.msgId);
    StageStatus(s.db, s.tasks[j]);
  }

  /**
   * In every step from a state in which the letter has the rows of its stage, its row stays, and
   * its status falls exactly when the step is the letter's own and comes over a read receipt - the
   * confirmation of a local delivery, or a push that went through - or saves the inbox copy of a
   * message to oneself.
   */
  lemma StatusFallsExactly(env: Env, s: State, ev: Event, j: nat, l: Letter)
    requires NoPacketCarries(env, l.msgId) && Inv(s) && LetterInv(s, l.msgId) && Allowed(s, ev)
    requires j < |s.tasks| && LetterOf(s.tasks[j]) == Some(l) && SentKey(l) in s.db.messages
    ensures SentKey(l) in After(env, s, ev).db.messages
    ensures Rank(StatusOf(After(env, s, ev).db, l)) < Rank(StatusOf(s.db, l)) <==> Lowers(s, ev, j, l)
  {
    hide StepTask, NoPacketCarries, Inv, LetterInv, Delivery, MayStart, S.IsBacklog, Key, LowersBy, Rank;
    if ev.Advance? {
      AdvanceStatus(env, s, ev.i, ev.outcome, ev.snapshot, j, l);
    } else if ev.DeliverAtOnce? {
      DeliverAtOnceStatus(env, s, ev.i, j, l);
    }
  }

  /** The same in every reachable state of the daemon. */
  lemma StatusFallsExactlyOverRuns(env: Env, evs: seq<Event>, ev: Event, j: nat, l: Letter)
    requires NoPacketCarries(env, l.msgId) && IsRun(env, INITIAL, evs)
    requires var s := End(env, INITIAL, evs);
      Allowed(s, ev) && j < |s.tasks| && LetterOf(s.tasks[j]) == Some(l) && SentKey(l) in s.db.messages
    ensures var s := End(env, INITIAL, evs);
      && SentKey(l) in After(env, s, ev).db.messages
      && (Rank(StatusOf(After(env, s, ev).db, l)) < Rank(StatusOf(s.db, l)) <==> Lowers(s, ev, j, l))
  {
    hide NoPacketCarries, Inv, LetterInv, IsRun, End, Allowed, After, LetterOf, Key, Rank, Lowers;
    ReachableLetter(env, evs, l.msgId);
    StatusFallsExactly(env, End(env, INITIAL, evs), ev, j, l);
  }

  // ---------- when the status only climbs ----------

  /** No step separates this letter's inbox save from its confirmation. */
  ghost predicate DeliversAtOnce(s: State, ev: Event, id: string)
    requires Allowed(s, ev)
  {
    ev.Advance? && Carries(s.tasks[ev.i], id) ==> !s.tasks[ev.i].SaveInbox?
  }

  /** A request to read this letter comes when it exists, and from its sender only when its delivery is over. */
  ghost predicate ReadsACopy(s: State, ev: Event, id: string) {
    ev.Start? && ev.t.SetReadFlag? && ev.t.id == id ==>
      exists i :: 0 <= i < |s.tasks| && Carries(s.tasks[i], id) && (ev.t.user == Sender(s.tasks[i]) ==> Finished(s.tasks[i]))
  }

  function Sender(t: Task): string {
    match LetterOf(t)
    case Some(l) => l.sender
    case None => ""
  }

  ghost predicate IsOrderlyRun(env: Env, s: State, evs: seq<Event>, id: string)
    requires IsRun(env, s, evs)
    decreases |evs|
  {
    evs == [] ||
    (DeliversAtOnce(s, evs[0], id) && ReadsACopy(s, evs[0], id) && IsOrderlyRun(env, After(env, s, evs[0]), evs[1..], id))
  }

  /** A request about the letter's id that could still send its sender a receipt from his own copy. */
  predicate OwnRead(t: Task, sender: string, id: string) {
    || ((t.SetReadFlag? || t.GetRead?) && t.user == sender && t.id == id)
    || ((t.FindSender? || t.Receipt?) && t.id == id)
  }

  predicate AnyRead(t: Task, id: string) {
    (t.SetReadFlag? || t.GetRead? || t.FindSender? || t.Receipt?) && t.id == id
  }

  /** Until its delivery is over the letter is not confirmed in the open, not read, and no receipt for it is under way. */
  ghost predicate StillSending(s: State, i: nat, id: string)
    requires i < |s.tasks| && LetterOf(s.tasks[i]).Some?
  {
    var l := LetterOf(s.tasks[i]).value;
    && !s.tasks[i].Confirm?
    && (SentKey(l) in s.db.messages ==> StatusOf(s.db, l) == "sending")
    && forall k :: 0 <= k < |s.tasks| ==> !OwnRead(s.tasks[k], l.sender, id)
  }

  ghost predicate Orderly(s: State, id: string) {
    && (forall i :: 0 <= i < |s.tasks| && Carries(s.tasks[i], id) && !Finished(s.tasks[i]) ==> StillSending(s, i, id))
    && ((forall i :: 0 <= i < |s.tasks| ==> !Carries(s.tasks[i], id)) ==> forall k :: 0 <= k < |s.tasks| ==> !AnyRead(s.tasks[k], id))
  }

  // ---------- orderly runs keep the letter unread until it is delivered ----------

  lemma OwnOrderly(s: State, i: nat, outcome: Outcome, id: string)
    requires Inv(s) && LetterInv(s, id) && Orderly(s, id) && i < |s.tasks| && Sends(s.tasks[i])
    requires Carries(s.tasks[i], id) && !s.tasks[i].SaveInbox?
    ensures var r := StepLetter(s.db, s.tasks[i], outcome); Orderly(State(r.0, s.tasks[i := r.1]), id)
  {
    hide IsTenantId, Key, Inv, SetStatus, RowsAre, Valid, SaveFor;
    var t := s.tasks[i];
    var r := StepLetter(s.db, t, outcome);
    var s' := State(r.0, s.tasks[i := r.1]);
    SaveForTouches(s.db, t.l.sender, SentCopy(t.l));
    assert StillSending(s, i, id);
    assert Carries(s'.tasks[i], id);
    assert forall k :: 0 <= k < |s.tasks| && k != i ==> !Carries(s'.tasks[k], id);
  }

  /** The sender's row is not his to read, so a request for it finds nothing before the delivery. */
  lemma NothingToRead(s: State, i: nat, j: nat, id: string)
    requires Inv(s) && LetterInv(s, id) && i < |s.tasks| && j < |s.tasks| && s.tasks[i].GetRead? && s.tasks[i].id == id
    requires Carries(s.tasks[j], id) && !Finished(s.tasks[j]) && StillSending(s, j, id)
    ensures StepRead(s.db, s.tasks[i]).1.Done?
  {
    hide IsTenantId, Key, Inv, HoldsLetter;
    TaskUsersAreTenants(s, i);
    var t := s.tasks[i];
    assert t.user in UsersOf(t);
    assert LetterOk(s.db, s.tasks[j]);
    assert !OwnRead(t, LetterOf(s.tasks[j]).value.sender, id);
    assert !HasRow(StageOf(s.tasks[j]), LetterOf(s.tasks[j]).value, t.user);
  }

  /** What a request becomes is about the same id, and asks for no own copy if it did not before. */
  lemma ReadsGoOn(db: Db, t: Task, sender: string, id: string)
    requires Reads(t)
    ensures AnyRead(StepRead(db, t).1, id) ==> AnyRead(t, id)
    ensures OwnRead(StepRead(db, t).1, sender, id) ==> OwnRead(t, sender, id) || (t.GetRead? && t.id == id && !StepRead(db, t).1.Done?)
  {
    hide Key, SetRead, Trash, SetStatus;
  }

  lemma NextIsNoRead(env: Env, db: Db, t: Task, outcome: Outcome, snapshot: seq<Pending>, id: string)
    requires !Finished(t) && !Reads(t)
    ensures !AnyRead(StepTask(env, db, t, outcome, snapshot).1, id)
  {
    hide Key, SetRead, Trash, SetStatus, SaveFor, MarkProcessed;
  }

  lemma OtherOrderly(env: Env, s: State, i: nat, outcome: Outcome, snapshot: seq<Pending>, j: nat, id: string)
    requires NoPacketCarries(env, id) && Inv(s) && LetterInv(s, id) && i < |s.tasks| && !Finished(s.tasks[i])
    requires !Carries(s.tasks[i], id) && j < |s.tasks| && Carries(s.tasks[j], id) && !Finished(s.tasks[j]) && StillSending(s, j, id)
    ensures var r := StepTask(env, s.db, s.tasks[i], outcome, snapshot); StillSending(State(r.0, s.tasks[i := r.1]), j, id)
  {
    hide NoPacketCarries, Inv, Valid, UsersOk, IsTenantId, Key, StepTask, Gentle, Still, SameContent;
    var t, l := s.tasks[i], LetterOf(s.tasks[j]).value;
    var r := StepTask(env, s.db, t, outcome, snapshot);
    assert LetterOk(s.db, s.tasks[j]);
    assert !OwnRead(t, l.sender, id);
    OtherTaskIsGentle(env, s, i, outcome, snapshot, id);
    StillStatus(s.db, r.0, l);
    if Reads(t) {
      ReadIsStepRead(env, s.db, t, outcome, snapshot);
      ReadsGoOn(s.db, t, l.sender, id);
      if t.GetRead? && t.id == id { NothingToRead(s, i, j, id); }
    } else {
      NextIsNoRead(env, s.db, t, outcome, snapshot, id);
    }
    assert !OwnRead(r.1, l.sender, id);
  }

  lemma ReadIsStepRead(env: Env, db: Db, t: Task, outcome: Outcome, snapshot: seq<Pending>)
    requires Reads(t)
    ensures StepTask(env, db, t, outcome, snapshot) == StepRead(db, t)
  {
    hide StepRead;
  }

  lemma StillStatus(db: Db, db': Db, l: Letter)
    requires Still(db, db', l.msgId) && IsTenantId(l.sender)
    ensures SentKey(l) in db'.messages <==> SentKey(l) in db.messages
    ensures SentKey(l) in db.messages ==> StatusOf(db', l) == StatusOf(db, l)
  {
    hide IsTenantId;
    assert SameContent(db, db', Key(l.sender, l.msgId));
  }

  lemma AdvanceOrderly(env: Env, s: State, i: nat, outcome: Outcome, snapshot: seq<Pending>, id: string)
    requires NoPacketCarries(env, id) && Inv(s) && LetterInv(s, id) && Orderly(s, id) && i < |s.tasks| && !Finished(s.tasks[i])
    requires Carries(s.tasks[i], id) ==> !s.tasks[i].SaveInbox?
    ensures var r := StepTask(env, s.db, s.tasks[i], outcome, snapshot); Orderly(State(r.0, s.tasks[i := r.1]), id)
  {
    hide NoPacketCarries, Inv, LetterInv, StepLetter, StepRead, StepProcess, StillSending, LetterOf;
    var t := s.tasks[i];
    var r := StepTask(env, s.db, t, outcome, snapshot);
    var s' := State(r.0, s.tasks[i := r.1]);
    SameLetter(env, s.db, t, outcome, snapshot);
    if Carries(t, id) {
      LettersSend(t);
      OwnOrderly(s, i, outcome, id);
    } else {
      forall j | 0 <= j < |s'.tasks| && Carries(s'.tasks[j], id) && !Finished(s'.tasks[j])
        ensures StillSending(s', j, id)
      {
        OtherOrderly(env, s, i, outcome, snapshot, j, id);
      }
      if Reads(t) { ReadsGoOn(s.db, t, "", id); } else { NextIsNoRead(env, s.db, t, outcome, snapshot, id); }
      assert forall k :: 0 <= k < |s.tasks| ==> (Carries(s'.tasks[k], id) <==> Carries(s.tasks[k], id));
    }
  }

  lemma StartOrderly(s: State, t: Task, id: string)
    requires Inv(s) && LetterInv(s, id) && Orderly(s, id) && MayStart(s, t) && ReadsACopy(s, Start(t), id)
    ensures Orderly(s.(tasks := s.tasks + [t]), id)
  {
    hide Valid, Scoped, TasksOk, AddressOf, UsersOk, IsTenantId, IsLetterId, Key, IsUser, LetterOk;
    var s' := s.(tasks := s.tasks + [t]);
    assert forall i :: 0 <= i < |s.tasks| ==> s.tasks[i] in s.tasks && s'.tasks[i] == s.tasks[i];
    if t.SaveSent? || t.SaveFederated? { UserIsTenant(s.db, t.l.sender); }
    forall i | 0 <= i < |s'.tasks| && Carries(s'.tasks[i], id) && !Finished(s'.tasks[i])
      ensures StillSending(s', i, id)
    {
      if i < |s.tasks| { assert StillSending(s, i, id); }
    }
    assert (forall i :: 0 <= i < |s'.tasks| ==> !Carries(s'.tasks[i], id)) ==> forall i :: 0 <= i < |s.tasks| ==> !Carries(s.tasks[i], id);
  }

  lemma SameMessagesOrderly(s: State, db': Db, id: string)
    requires Orderly(s, id) && db'.messages == s.db.messages
    ensures Orderly(s.(db := db'), id)
  {
    hide Key;
    assert forall i :: 0 <= i < |s.tasks| && LetterOf(s.tasks[i]).Some? ==> StillSending(s.(db := db'), i, id) == StillSending(s, i, id);
  }

  lemma DeliveredOrderly(s: State, i: nat, db': Db, id: string)
    requires LetterInv(s, id) && i < |s.tasks| && s.tasks[i].SaveInbox? && Carries(s.tasks[i], id)
    ensures Orderly(State(db', s.tasks[i := Delivered(s.tasks[i].l, s.tasks[i].to)]), id)
  {
    hide LetterOk, StillSending;
    var tasks' := s.tasks[i := Delivered(s.tasks[i].l, s.tasks[i].to)];
    assert Carries(tasks'[i], id);
  }

  lemma StepOrderly(env: Env, s: State, ev: Event, id: string)
    requires NoPacketCarries(env, id) && Inv(s) && LetterInv(s, id) && Orderly(s, id)
    requires Allowed(s, ev) && DeliversAtOnce(s, ev, id) && ReadsACopy(s, ev, id)
    ensures Orderly(After(env, s, ev), id)
  {
    hide NoPacketCarries, LetterInv, StepTask, Inv, Mailbox.Delivery, MayStart, S.IsBacklog, Orderly, ReadsACopy, LetterOf;
    match ev {
      case Start(t) => StartOrderly(s, t, id);
      case Arrive(user, data, sender, now) => SameMessagesOrderly(s, AddPending(s.db, user, data, sender, now), id);
      case Signup(u) => SameMessagesOrderly(s, s.db.(users := s.db.users + [u]), id);
      case Advance(i, outcome, snapshot) => AdvanceOrderly(env, s, i, outcome, snapshot, id);
      case DeliverAtOnce(i) =>
        if Carries(s.tasks[i], id) {
          DeliveredOrderly(s, i, After(env, s, ev).db, id);
        } else {
          var s1 := After(env, s, Advance(i, Lost, []));
          AfterSaveInbox(env, s, i);
          AdvanceOrderly(env, s, i, Lost, [], id);
          AdvanceKeepsLetter(env, s, i, Lost, [], id);
          StepKeepsInv(env, s, Advance(i, Lost, []));
          AtOnceIsTwoSteps(env, s, i, Lost);
          AdvanceOrderly(env, s1, i, Lost, [], id);
        }
    }
  }

  // ---------- main results ----------

  ghost predicate Climbs(s: State, s': State, j: nat, l: Letter) {
    && j < |s'.tasks| && LetterOf(s'.tasks[j]) == Some(l) && SentKey(l) in s'.db.messages
    && (SentKey(l) in s.db.messages ==> Rank(StatusOf(s.db, l)) <= Rank(StatusOf(s'.db, l)))
  }

  lemma LetterStays(env: Env, s: State, ev: Event, j: nat)
    requires Allowed(s, ev) && j < |s.tasks| && LetterOf(s.tasks[j]).Some?
    ensures var s' := After(env, s, ev); j < |s'.tasks| && LetterOf(s'.tasks[j]) == LetterOf(s.tasks[j])
  {
    hide SaveFor, SetStatus, Key, FreshId, AddressOf, IsUser;
  }

  /** An orderly step does not come over a receipt. */
  lemma OrderlyStepsDoNotLower(env: Env, s: State, ev: Event, j: nat, l: Letter)
    requires Orderly(s, l.msgId) && Allowed(s, ev) && DeliversAtOnce(s, ev, l.msgId)
    requires j < |s.tasks| && LetterOf(s.tasks[j]) == Some(l) && SentKey(l) in s.db.messages
    ensures !Lowers(s, ev, j, l)
  {
    hide Key, S.IsBacklog, FreshId, IsUser, AddressOf;
    assert Carries(s.tasks[j], l.msgId);
    assert !Finished(s.tasks[j]) ==> StillSending(s, j, l.msgId);
  }

  /** Who reads a copy that is in his inbox reads in order: it is the recipient's, or one's own letter delivered to oneself. */
  lemma InboxCopiesAreReadInOrder(s: State, user: string, id: string)
    requires LetterInv(s, id) && Orderly(s, id) && IsTenantId(user)
    requires Key(user, id) in s.db.messages && s.db.messages[Key(user, id)].msg.folder == "inbox"
    ensures ReadsACopy(s, Start(SetReadFlag(user, id)), id)
  {
    hide IsTenantId, Key, HoldsLetter;
    assert !NoRowsUnder(s.db, id);
    var i: nat :| i < |s.tasks| && Carries(s.tasks[i], id);
    var l := LetterOf(s.tasks[i]).value;
    assert LetterOk(s.db, s.tasks[i]);
    assert HasRow(StageOf(s.tasks[i]), l, user);
    assert !Finished(s.tasks[i]) ==> StillSending(s, i, id);
  }

  /**
   * When this letter's local delivery is one step and its sender does not read his own copy before
   * it has gone out, its status only climbs, whatever else happens: mail to oneself and the disorder
   * of other letters included.
   */
  lemma {:induction false} StatusOnlyClimbs(env: Env, s: State, evs: seq<Event>, j: nat, l: Letter)
    requires NoPacketCarries(env, l.msgId) && Inv(s) && LetterInv(s, l.msgId) && Orderly(s, l.msgId)
    requires IsRun(env, s, evs) && IsOrderlyRun(env, s, evs, l.msgId)
    requires j < |s.tasks| && LetterOf(s.tasks[j]) == Some(l) && SentKey(l) in s.db.messages
    ensures Climbs(s, End(env, s, evs), j, l)
    decreases |evs|
  {
    hide NoPacketCarries, Inv, LetterInv, Orderly, Allowed, After, ReadsACopy, DeliversAtOnce, LetterOf, Key, Lowers;
    if evs != [] {
      var s' := After(env, s, evs[0]);
      StepKeepsInv(env, s, evs[0]);
      StepKeepsLetter(env, s, evs[0], l.msgId);
      StepOrderly(env, s, evs[0], l.msgId);
      LetterStays(env, s, evs[0], j);
      OrderlyStepsDoNotLower(env, s, evs[0], j, l);
      StatusFallsExactly(env, s, evs[0], j, l);
      StatusOnlyClimbs(env, s', evs[1..], j, l);
    }
  }

  lemma {:induction false} RunOrderly(env: Env, s: State, evs: seq<Event>, id: string)
    requires NoPacketCarries(env, id) && Inv(s) && LetterInv(s, id) && Orderly(s, id)
    requires IsRun(env, s, evs) && IsOrderlyRun(env, s, evs, id)
    ensures Orderly(End(env, s, evs), id)
    decreases |evs|
  {
    hide NoPacketCarries, Inv, LetterInv, Orderly, Allowed, After, ReadsACopy, DeliversAtOnce;
    if evs != [] {
      StepKeepsInv(env, s, evs[0]);
      StepKeepsLetter(env, s, evs[0], id);
      StepOrderly(env, s, evs[0], id);
      RunOrderly(env, After(env, s, evs[0]), evs[1..], id);
    }
  }

  /** The same over whole runs of the daemon: what the status was at any point is a lower bound ever after. */
  lemma StatusOnlyClimbsFromTheStart(env: Env, first: seq<Event>, rest: seq<Event>, j: nat, l: Letter)
    requires NoPacketCarries(env, l.msgId) && IsRun(env, INITIAL, first) && IsOrderlyRun(env, INITIAL, first, l.msgId)
    requires var s := End(env, INITIAL, first);
      && IsRun(env, s, rest) && IsOrderlyRun(env, s, rest, l.msgId)
      && j < |s.tasks| && LetterOf(s.tasks[j]) == Some(l) && SentKey(l) in s.db.messages
    ensures Climbs(End(env, INITIAL, first), End(env, End(env, INITIAL, first), rest), j, l)
  {
    InitialLetters(l.msgId);
    assert Orderly(INITIAL, l.msgId);
    hide NoPacketCarries, Inv, LetterInv, IsRun, IsOrderlyRun, End, Orderly, Climbs;
    ReachableLetter(env, first, l.msgId);
    RunOrderly(env, INITIAL, first, l.msgId);
    StatusOnlyClimbs(env, End(env, INITIAL, first), rest, j, l);
  }

  // ---------- where the obvious claim fails ----------

  /**
   * The window: with the inbox copy saved and the receipt under way, the two remaining store calls
   * do not commute. The receipt last leaves "read"; the confirmation last leaves "delivered",
   * although the recipient has read the message.
   */
  lemma ReceiptInTheWindowIsLost(env: Env, s: State, i: nat, k: nat, outcome: Outcome)
    requires Valid(s.db) && i < |s.tasks| && k < |s.tasks| && i != k && s.tasks[i].Confirm?
    requires var l := s.tasks[i].l; s.tasks[k] == Receipt(s.tasks[i].to, l.sender, l.msgId) && SentKey(l) in s.db.messages
    ensures var l, confirm, receipt := s.tasks[i].l, Advance(i, outcome, []), Advance(k, outcome, []);
      && IsRun(env, s, [confirm, receipt]) && IsRun(env, s, [receipt, confirm])
      && SentKey(l) in End(env, s, [confirm, receipt]).db.messages && StatusOf(End(env, s, [confirm, receipt]).db, l) == "read"
      && SentKey(l) in End(env, s, [receipt, confirm]).db.messages && StatusOf(End(env, s, [receipt, confirm]).db, l) == "delivered"
  {
    hide SetStatus, Key, Valid;
    var l, confirm, receipt := s.tasks[i].l, Advance(i, outcome, []), Advance(k, outcome, []);
    TwoSteps(env, s, confirm, receipt);
    TwoSteps(env, s, receipt, confirm);
    var key := SentKey(l);
    StatusTouches(s.db, key, "read");
    StatusTouches(s.db, key, "delivered");
    SetStatusIsValid(s.db, key, "read");
    SetStatusIsValid(s.db, key, "delivered");
    StatusTouches(SetStatus(s.db, key, "read"), key, "delivered");
    StatusTouches(SetStatus(s.db, key, "delivered"), key, "read");
    assert After(env, After(env, s, receipt), confirm).db == SetStatus(SetStatus(s.db, key, "read"), key, "delivered");
    assert After(env, After(env, s, confirm), receipt).db == SetStatus(SetStatus(s.db, key, "delivered"), key, "read");
  }

  lemma TwoSteps(env: Env, s: State, a: Event, b: Event)
    requires Allowed(s, a) && Allowed(After(env, s, a), b)
    ensures IsRun(env, s, [a, b]) && End(env, s, [a, b]) == After(env, After(env, s, a), b)
  {
    hide Allowed, After;
    assert [a, b][1..] == [b];
    assert [b][1..] == [];
    var s1 := After(env, s, a);
    assert IsRun(env, s1, [b]) && IsRun(env, After(env, s1, b), []);
    assert End(env, s1, [b]) == End(env, After(env, s1, b), []) == After(env, s1, b);
  }

  lemma SenderIsFound(db: Db, l: Letter)
    requires UsersOk(db.users) && IsUser(db, l.sender) && l.senderAddr == AddressOf(db, l.sender)
    ensures UserByPubkey(db.users, l.senderAddr).Some? && UserByPubkey(db.users, l.senderAddr).value.id == l.sender
  {
    hide IsTenantId;
    assert UserById(db.users, l.sender).Some?;
  }

  /** A message to oneself: its inbox copy has the key of the sent copy and replaces it, status and all. */
  lemma SelfMailOverwritesTheSentCopy(db: Db, l: Letter, outcome: Outcome)
    requires UsersOk(db.users) && IsUser(db, l.sender) && l.senderAddr == AddressOf(db, l.sender) && l.recipientAddr == l.senderAddr
    ensures var (db1, t1) := StepLetter(db, SaveSent(l), outcome);
      var (db2, t2) := StepLetter(db1, t1, outcome);
      && t2 == SaveInbox(l, l.sender)
      && var (db3, t3) := StepLetter(db2, t2, outcome);
         && SentKey(l) in db1.messages && db1.messages[SentKey(l)].msg.folder == "sent" && StatusOf(db1, l) == "sending"
         && db3.messages.Keys == db1.messages.Keys
         && db3.messages[SentKey(l)].msg == db1.messages[SentKey(l)].msg.(folder := "inbox", isRead := false, status := "")
  {
    var db1 := SaveFor(db, l.sender, SentCopy(l));
    SaveForTouches(db, l.sender, SentCopy(l));
    SaveForTouches(db1, l.sender, InboxCopy(l));
    SenderIsFound(db, l);
    OnlyKey(db1, SaveFor(db1, l.sender, InboxCopy(l)), SentKey(l));
    hide SaveFor, UsersOk, IsUser, AddressOf, Key, OnlyAt;
  }

  lemma OnlyKey(db: Db, db': Db, k: string)
    requires OnlyAt(db, db', k) && k in db.messages && k in db'.messages
    ensures db'.messages.Keys == db.messages.Keys
  {
    assert forall k' :: k' in db'.messages <==> k' in db.messages;
  }

  /**
   * A read request for one's own sent copy sends the receipt to oneself: the copy counts as read
   * before it was sent, and the push that follows lowers the status again.
   */
  lemma OwnReceiptThenPushFalls(db: Db, l: Letter)
    requires Valid(db) && UsersOk(db.users) && IsUser(db, l.sender) && l.senderAddr == AddressOf(db, l.sender)
    requires SentKey(l) in db.messages && db.messages[SentKey(l)].msg.sender == l.senderAddr
    ensures var (db1, t1) := StepRead(db, SetReadFlag(l.sender, l.msgId));
      var (db2, t2) := StepRead(db1, t1);
      && t2.FindSender?
      && var (db3, t3) := StepRead(db2, t2);
         && t3.Receipt?
         && var (db4, _) := StepRead(db3, t3);
            && SentKey(l) in db4.messages && StatusOf(db4, l) == "read"
            && var (db5, _) := StepLetter(db4, Push(l), ByDht);
               && SentKey(l) in db5.messages && StatusOf(db5, l) == "sent"
  {
    hide SetRead, SetStatus, Valid, UsersOk, IsUser, AddressOf, Key;
    var k := SentKey(l);
    var db1 := SetRead(db, k);
    FlagsTouch(db, k);
    SetReadIsValid(db, k);
    SenderIsFound(db, l);
    StatusTouches(db1, k, "read");
    SetStatusIsValid(db1, k, "read");
    StatusTouches(SetStatus(db1, k, "read"), k, "sent");
  }
}
