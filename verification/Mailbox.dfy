/**
 * The multi-tenant mailbox as a state machine. Requests and background goroutines are tasks; one
 * step of a task is one store call, so every interleaving of store calls is a run.
 */
module Mailbox {
  import opened Bytes
  import opened Like
  import opened Tables
  import opened Views
  import S = Store

  /** The part of a decrypted payload that is kept. */
  datatype Mail = Mail(id: string, subject: string, body: string)

  /** What opening a raw packet with a user's key gives. */
  datatype Env = Env(open: (string, bytes) -> Option<Mail>)

  /** A message being sent: who sends it, under which fresh id, and what it says. */
  datatype Letter = Letter(
    sender: string, msgId: string, senderAddr: string, recipientAddr: string,
    subject: string, body: string, timestamp: int, replyToId: string)

  datatype Outcome = ByFederation | ByDht | Lost

  /** Each constructor names the store call made next. */
  datatype Task =
    | SaveSent(l: Letter)
    | LookUp(l: Letter)
    | SaveInbox(l: Letter, to: string)
    | Confirm(l: Letter, to: string)
    | Delivered(l: Letter, to: string)
    | Push(l: Letter)
    | Pushed(l: Letter)
    | SaveFederated(l: Letter)
    | Fetch(user: string)
    | Process(user: string, packets: seq<Pending>, at: nat, saved: bool)
    | SetReadFlag(user: string, id: string)
    | GetRead(user: string, id: string)
    | FindSender(user: string, addr: string, id: string)
    | Receipt(user: string, sender: string, id: string)
    | SetTrash(user: string, id: string)
    | Done(user: string)

  datatype State = State(db: Db, tasks: seq<Task>)

  datatype Event =
    | Start(t: Task)
    | Arrive(user: string, data: bytes, sender: string, now: int)
    | Signup(u: User)
    | Advance(i: nat, outcome: Outcome, snapshot: seq<Pending>)
    /** Both store calls of a local delivery at once. */
    | DeliverAtOnce(i: nat)

  const LETTER_PREFIX := "msg-"

  predicate IsLetterId(id: string) {
    LETTER_PREFIX <= id
  }

  // ---------- rows ----------

  function SentCopy(l: Letter): Message {
    Message(l.msgId, "sent", l.senderAddr, l.recipientAddr, l.subject, l.body, l.timestamp, true, l.replyToId, "", "sending")
  }

  function InboxCopy(l: Letter): Message {
    Message(l.msgId, "inbox", l.senderAddr, l.recipientAddr, l.subject, l.body, l.timestamp, false, l.replyToId, "", "")
  }

  function AddressOf(db: Db, user: string): string {
    match UserById(db.users, user)
    case None => ""
    case Some(u) => u.pubkey
  }

  function UserById(users: seq<User>, id: string): (r: Option<User>)
    ensures r.Some? ==> r.value in users && r.value.id == id
    ensures r.None? ==> forall u :: u in users ==> u.id != id
  {
    if users == [] then None else if users[0].id == id then Some(users[0]) else UserById(users[1..], id)
  }

  /** The row made of a decrypted pending packet; the thread it replied to is not kept. */
  function PacketCopy(db: Db, user: string, p: Pending, m: Mail): Message {
    Message(m.id, "inbox", p.sender, AddressOf(db, user), m.subject, m.body, p.receivedAt, false, "", "", "")
  }

  // ---------- one store call of a task ----------

  function StepLetter(db: Db, t: Task, outcome: Outcome): (Db, Task)
    requires t.SaveSent? || t.LookUp? || t.SaveInbox? || t.Confirm? || t.Push? || t.SaveFederated?
  {
    match t
    case SaveSent(l) => (SaveFor(db, l.sender, SentCopy(l)), LookUp(l))
    case SaveFederated(l) => (SaveFor(db, l.sender, SentCopy(l)), Push(l))
    case LookUp(l) =>
      (db, match UserByPubkey(db.users, l.recipientAddr) case None => Push(l) case Some(u) => SaveInbox(l, u.id))
    case SaveInbox(l, to) => (SaveFor(db, to, InboxCopy(l)), Confirm(l, to))
    case Confirm(l, to) => (SetStatus(db, Key(l.sender, l.msgId), "delivered"), Delivered(l, to))
    case Push(l) =>
      (match outcome
       case ByFederation => SetStatus(db, Key(l.sender, l.msgId), "delivered")
       case ByDht => SetStatus(db, Key(l.sender, l.msgId), "sent")
       case Lost => db,
       Pushed(l))
  }

  function StepProcess(env: Env, db: Db, t: Task): (Db, Task)
    requires t.Process? && t.at < |t.packets|
  {
    var p := t.packets[t.at];
    match env.open(t.user, p.rawData)
    case None => (MarkProcessed(db, p.id), t.(at := t.at + 1, saved := false))
    case Some(m) =>
      if t.saved then (MarkProcessed(db, p.id), t.(at := t.at + 1, saved := false))
      else (SaveFor(db, t.user, PacketCopy(db, t.user, p, m)), t.(saved := true))
  }

  function StepRead(db: Db, t: Task): (Db, Task)
    requires t.SetReadFlag? || t.GetRead? || t.FindSender? || t.Receipt? || t.SetTrash?
  {
    match t
    case SetReadFlag(user, id) => (SetRead(db, Key(user, id)), GetRead(user, id))
    case GetRead(user, id) =>
      (db, if Key(user, id) in db.messages then FindSender(user, db.messages[Key(user, id)].msg.sender, id) else Done(user))
    case FindSender(user, addr, id) =>
      (db, match UserByPubkey(db.users, addr) case None => Done(user) case Some(s) => Receipt(user, s.id, id))
    case Receipt(user, sender, id) => (SetStatus(db, Key(sender, id), "read"), Done(user))
    case SetTrash(user, id) => (Trash(db, Key(user, id)), Done(user))
  }

  predicate Finished(t: Task) {
    t.Delivered? || t.Pushed? || t.Done? || (t.Process? && t.at >= |t.packets|)
  }

  function StepTask(env: Env, db: Db, t: Task, outcome: Outcome, snapshot: seq<Pending>): (Db, Task)
    requires !Finished(t)
  {
    match t
    case Fetch(user) => (db, Process(user, snapshot, 0, false))
    case Process(_, _, _, _) => StepProcess(env, db, t)
    case SetReadFlag(_, _) => StepRead(db, t)
    case GetRead(_, _) => StepRead(db, t)
    case FindSender(_, _, _) => StepRead(db, t)
    case Receipt(_, _, _) => StepRead(db, t)
    case SetTrash(_, _) => StepRead(db, t)
    case SaveSent(_) => StepLetter(db, t, outcome)
    case LookUp(_) => StepLetter(db, t, outcome)
    case SaveInbox(_, _) => StepLetter(db, t, outcome)
    case Confirm(_, _) => StepLetter(db, t, outcome)
    case Push(_) => StepLetter(db, t, outcome)
    case SaveFederated(_) => StepLetter(db, t, outcome)
  }

  // ---------- events ----------

  ghost predicate IsUser(db: Db, user: string) {
    exists u :: u in db.users && u.id == user
  }

  function LetterOf(t: Task): Option<Letter> {
    match t
    case SaveSent(l) => Some(l)
    case LookUp(l) => Some(l)
    case SaveInbox(l, _) => Some(l)
    case Confirm(l, _) => Some(l)
    case Delivered(l, _) => Some(l)
    case Push(l) => Some(l)
    case Pushed(l) => Some(l)
    case SaveFederated(l) => Some(l)
    case _ => None
  }

  predicate Carries(t: Task, id: string) {
    LetterOf(t).Some? && LetterOf(t).value.msgId == id
  }

  /** The id generated for a new letter is in no row and no task. */
  ghost predicate FreshId(s: State, id: string) {
    && IsLetterId(id)
    && (forall w :: IsTenantId(w) ==> Key(w, id) !in s.db.messages)
    && forall t :: t in s.tasks ==> !Carries(t, id)
  }

  /** A request may begin: the sender is a user writing under a fresh id, the reader is a user. */
  ghost predicate MayStart(s: State, t: Task) {
    match t
    case SaveSent(l) => IsUser(s.db, l.sender) && l.senderAddr == AddressOf(s.db, l.sender) && FreshId(s, l.msgId)
    case SaveFederated(l) => IsUser(s.db, l.sender) && l.senderAddr == AddressOf(s.db, l.sender) && FreshId(s, l.msgId)
    case Fetch(user) => IsUser(s.db, user)
    case SetReadFlag(user, _) => IsUser(s.db, user)
    case SetTrash(user, _) => IsUser(s.db, user)
    case _ => false
  }

  ghost predicate Allowed(s: State, ev: Event) {
    match ev
    case Start(t) => MayStart(s, t)
    case Arrive(user, _, _, _) => IsUser(s.db, user)
    case Signup(u) => IsTenantId(u.id) && forall v :: v in s.db.users ==> v.id != u.id && v.pubkey != u.pubkey
    case Advance(i, _, snapshot) =>
      && i < |s.tasks| && !Finished(s.tasks[i])
      && (s.tasks[i].Fetch? ==> S.IsBacklog(s.db, s.tasks[i].user, snapshot))
    case DeliverAtOnce(i) => i < |s.tasks| && s.tasks[i].SaveInbox?
  }

  function Delivery(db: Db, l: Letter, to: string): Db {
    SetStatus(SaveFor(db, to, InboxCopy(l)), Key(l.sender, l.msgId), "delivered")
  }

  ghost function After(env: Env, s: State, ev: Event): State
    requires Allowed(s, ev)
  {
    match ev
    case Start(t) => s.(tasks := s.tasks + [t])
    case Arrive(user, data, sender, now) => s.(db := AddPending(s.db, user, data, sender, now))
    case Signup(u) => s.(db := s.db.(users := s.db.users + [u]))
    case Advance(i, outcome, snapshot) =>
      var (db, t) := StepTask(env, s.db, s.tasks[i], outcome, snapshot);
      State(db, s.tasks[i := t])
    case DeliverAtOnce(i) =>
      State(Delivery(s.db, s.tasks[i].l, s.tasks[i].to), s.tasks[i := Delivered(s.tasks[i].l, s.tasks[i].to)])
  }

  ghost predicate IsRun(env: Env, s: State, evs: seq<Event>)
    decreases |evs|
  {
    evs == [] || (Allowed(s, evs[0]) && IsRun(env, After(env, s, evs[0]), evs[1..]))
  }

  ghost function End(env: Env, s: State, evs: seq<Event>): State
    requires IsRun(env, s, evs)
    decreases |evs|
  {
    if evs == [] then s else End(env, After(env, s, evs[0]), evs[1..])
  }

  const INITIAL := State(EMPTY, [])

  // ---------- the invariant every run keeps ----------

  /** User ids carry no wildcard, colon or capital; ids and addresses are not shared. */
  ghost predicate UsersOk(users: seq<User>) {
    && (forall u :: u in users ==> IsTenantId(u.id))
    && (forall u, v :: u in users && v in users && (u.id == v.id || u.pubkey == v.pubkey) ==> u == v)
  }

  /** Every user a task writes for. */
  function UsersOf(t: Task): set<string> {
    match t
    case SaveInbox(l, to) => {l.sender, to}
    case Confirm(l, to) => {l.sender, to}
    case Delivered(l, to) => {l.sender, to}
    case SaveSent(l) => {l.sender}
    case SaveFederated(l) => {l.sender}
    case LookUp(l) => {l.sender}
    case Push(l) => {l.sender}
    case Pushed(l) => {l.sender}
    case Receipt(user, sender, _) => {user, sender}
    case _ => {t.user}
  }

  ghost predicate TasksOk(db: Db, tasks: seq<Task>) {
    forall i :: 0 <= i < |tasks| ==> forall u :: u in UsersOf(tasks[i]) ==> IsUser(db, u)
  }

  ghost predicate Inv(s: State) {
    Valid(s.db) && UsersOk(s.db.users) && Scoped(s.db) && TasksOk(s.db, s.tasks)
  }

  lemma UserIsTenant(db: Db, user: string)
    requires UsersOk(db.users) && IsUser(db, user)
    ensures IsTenantId(user)
  {
  }

  lemma SaveForKeepsInv(db: Db, user: string, m: Message)
    requires Valid(db) && Scoped(db) && IsTenantId(user)
    ensures Valid(SaveFor(db, user, m)) && Scoped(SaveFor(db, user, m))
  {
    hide Valid, IsTenantId;
    var row := Filled(m).(id := Key(user, m.id));
    UpsertIsValid(db, row);
    assert IsScopedKey(row.id);
  }

  lemma FlagsKeepScoped(db: Db, id: string, status: string)
    requires Valid(db) && Scoped(db)
    ensures Valid(SetRead(db, id)) && Scoped(SetRead(db, id))
    ensures Valid(Trash(db, id)) && Scoped(Trash(db, id))
    ensures Valid(SetStatus(db, id, status)) && Scoped(SetStatus(db, id, status))
  {
    hide Valid, IsScopedKey;
    SetReadIsValid(db, id);
    TrashIsValid(db, id);
    SetStatusIsValid(db, id, status);
  }

  lemma MarkKeepsInv(db: Db, id: nat)
    requires Valid(db) && Scoped(db)
    ensures Valid(MarkProcessed(db, id)) && Scoped(MarkProcessed(db, id))
  {
    hide IsScopedKey;
  }

  /** A task's store call keeps the tables well-formed and writes for users only. */
  ghost predicate GoodStep(db: Db, db': Db, t': Task) {
    Valid(db') && Scoped(db') && db'.users == db.users && forall u :: u in UsersOf(t') ==> IsUser(db, u)
  }

  lemma SaveIsGood(db: Db, user: string, m: Message, t': Task)
    requires Valid(db) && UsersOk(db.users) && Scoped(db) && IsUser(db, user)
    requires forall u :: u in UsersOf(t') ==> IsUser(db, u)
    ensures GoodStep(db, SaveFor(db, user, m), t')
  {
    hide Valid, IsTenantId, IsScopedKey, UsersOf;
    UserIsTenant(db, user);
    SaveForKeepsInv(db, user, m);
  }

  lemma {:induction false} FlagIsGood(db: Db, id: string, status: string, t': Task)
    requires Valid(db) && Scoped(db)
    requires forall u :: u in UsersOf(t') ==> IsUser(db, u)
    ensures GoodStep(db, SetRead(db, id), t') && GoodStep(db, Trash(db, id), t')
    ensures GoodStep(db, SetStatus(db, id, status), t') && GoodStep(db, db, t')
  {
    hide Valid, IsTenantId, IsScopedKey, UsersOf;
    FlagsKeepScoped(db, id, status);
  }

  lemma LetterStepIsGood(db: Db, t: Task, outcome: Outcome)
    requires t.SaveSent? || t.LookUp? || t.SaveInbox? || t.Confirm? || t.Push? || t.SaveFederated?
    requires Valid(db) && UsersOk(db.users) && Scoped(db)
    requires forall u :: u in UsersOf(t) ==> IsUser(db, u)
    ensures GoodStep(db, StepLetter(db, t, outcome).0, StepLetter(db, t, outcome).1)
  {
    hide Valid, UsersOk, Scoped, GoodStep, SaveFor, SetStatus, IsUser;
    var t' := StepLetter(db, t, outcome).1;
    match t {
      case SaveSent(l) => SaveIsGood(db, l.sender, SentCopy(l), t');
      case SaveFederated(l) => SaveIsGood(db, l.sender, SentCopy(l), t');
      case LookUp(l) =>
        LookUpFindsUsers(db, l.recipientAddr);
        FlagIsGood(db, "", "", t');
      case SaveInbox(l, to) => SaveIsGood(db, to, InboxCopy(l), t');
      case Confirm(l, to) => FlagIsGood(db, Key(l.sender, l.msgId), "delivered", t');
      case Push(l) =>
        FlagIsGood(db, Key(l.sender, l.msgId), "delivered", t');
        FlagIsGood(db, Key(l.sender, l.msgId), "sent", t');
    }
  }

  lemma ReadStepIsGood(db: Db, t: Task)
    requires t.SetReadFlag? || t.GetRead? || t.FindSender? || t.Receipt? || t.SetTrash?
    requires Valid(db) && UsersOk(db.users) && Scoped(db)
    requires forall u :: u in UsersOf(t) ==> IsUser(db, u)
    ensures GoodStep(db, StepRead(db, t).0, StepRead(db, t).1)
  {
    hide Valid, UsersOk, Scoped, GoodStep, SetRead, Trash, SetStatus, IsUser;
    var t' := StepRead(db, t).1;
    match t {
      case SetReadFlag(user, id) => FlagIsGood(db, Key(user, id), "", t');
      case GetRead(user, id) => FlagIsGood(db, "", "", t');
      case FindSender(user, addr, id) =>
        LookUpFindsUsers(db, addr);
        FlagIsGood(db, "", "", t');
      case Receipt(user, sender, id) => FlagIsGood(db, Key(sender, id), "read", t');
      case SetTrash(user, id) => FlagIsGood(db, Key(user, id), "", t');
    }
  }

  lemma ProcessStepIsGood(env: Env, db: Db, t: Task)
    requires t.Process? && t.at < |t.packets|
    requires Valid(db) && UsersOk(db.users) && Scoped(db)
    requires forall u :: u in UsersOf(t) ==> IsUser(db, u)
    ensures GoodStep(db, StepProcess(env, db, t).0, StepProcess(env, db, t).1)
  {
    var p, t' := t.packets[t.at], StepProcess(env, db, t).1;
    assert UsersOf(t') == {t.user} == UsersOf(t);
    hide Valid, UsersOk, Scoped, SaveFor, IsUser;
    MarkKeepsInv(db, p.id);
    match env.open(t.user, p.rawData) {
      case None =>
      case Some(m) =>
        if !t.saved {
          SaveIsGood(db, t.user, PacketCopy(db, t.user, p, m), t');
        }
    }
  }

  lemma {:induction false} StepTaskKeepsInv(env: Env, db: Db, t: Task, outcome: Outcome, snapshot: seq<Pending>)
    requires Valid(db) && UsersOk(db.users) && Scoped(db) && !Finished(t)
    requires forall u :: u in UsersOf(t) ==> IsUser(db, u)
    ensures GoodStep(db, StepTask(env, db, t, outcome, snapshot).0, StepTask(env, db, t, outcome, snapshot).1)
  {
    hide Valid, UsersOk, Scoped, GoodStep, StepLetter, StepRead, StepProcess, IsUser;
    if t.Fetch? {
      FlagIsGood(db, "", "", Process(t.user, snapshot, 0, false));
    } else if t.Process? {
      ProcessStepIsGood(env, db, t);
    } else if t.SetReadFlag? || t.GetRead? || t.FindSender? || t.Receipt? || t.SetTrash? {
      ReadStepIsGood(db, t);
    } else {
      LetterStepIsGood(db, t, outcome);
    }
  }

  lemma LookUpFindsUsers(db: Db, addr: string)
    ensures match UserByPubkey(db.users, addr) case None => true case Some(u) => IsUser(db, u.id)
  {
  }

  lemma DeliveryKeepsInv(db: Db, l: Letter, to: string)
    requires Valid(db) && Scoped(db) && IsTenantId(to)
    ensures Valid(Delivery(db, l, to)) && Scoped(Delivery(db, l, to)) && Delivery(db, l, to).users == db.users
  {
    hide Valid, Scoped, IsTenantId;
    SaveForKeepsInv(db, to, InboxCopy(l));
    FlagsKeepScoped(SaveFor(db, to, InboxCopy(l)), Key(l.sender, l.msgId), "delivered");
  }

  /** Keys stay scoped to users, whatever step is taken. */
  lemma StepKeepsInv(env: Env, s: State, ev: Event)
    requires Inv(s) && Allowed(s, ev)
    ensures Inv(After(env, s, ev))
  {
    hide Valid, Scoped, IsTenantId, StepTask, Delivery, FreshId, S.IsBacklog;
    match ev {
      case Start(t) =>
      case Arrive(user, data, sender, now) => ArriveIsValid(s.db, user, data, sender, now);
      case Signup(u) => SignupKeepsInv(s, u);
      case Advance(i, outcome, snapshot) => StepTaskKeepsInv(env, s.db, s.tasks[i], outcome, snapshot);
      case DeliverAtOnce(i) =>
        assert s.tasks[i].to in UsersOf(s.tasks[i]);
        UserIsTenant(s.db, s.tasks[i].to);
        DeliveryKeepsInv(s.db, s.tasks[i].l, s.tasks[i].to);
    }
  }

  lemma ArriveIsValid(db: Db, user: string, data: bytes, sender: string, now: int)
    requires Valid(db) && Scoped(db)
    ensures Valid(AddPending(db, user, data, sender, now)) && Scoped(AddPending(db, user, data, sender, now))
  {
    hide IsScopedKey;
  }

  lemma SignupKeepsInv(s: State, u: User)
    requires Inv(s) && Allowed(s, Signup(u))
    ensures Inv(s.(db := s.db.(users := s.db.users + [u])))
  {
    hide IsTenantId, IsScopedKey, UsersOf;
    var db' := s.db.(users := s.db.users + [u]);
    assert forall v :: v in db'.users <==> v in s.db.users || v == u;
    assert forall w :: IsUser(s.db, w) ==> IsUser(db', w);
  }

  lemma {:induction false} RunKeepsInv(env: Env, s: State, evs: seq<Event>)
    requires Inv(s) && IsRun(env, s, evs)
    ensures Inv(End(env, s, evs))
    decreases |evs|
  {
    hide Inv, Allowed, After;
    if evs != [] {
      StepKeepsInv(env, s, evs[0]);
      RunKeepsInv(env, After(env, s, evs[0]), evs[1..]);
    }
  }
}
