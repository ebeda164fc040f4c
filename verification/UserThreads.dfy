/**
 * One user's threads in the running daemon (pkg/store/store_multi.go, SaveMessageForUser and
 * GetThreadForUser): threads are kept under unscoped ids, and a user is shown the messages of his
 * that have the same parent-or-self.
 */
module UserThreads {
  import opened Bytes
  import opened Like
  import opened Tables
  import opened Views
  import opened Mailbox
  import opened Letters
  import S = Store

  /** The id a user's message replies to, or else its own id. */
  function ParentOrSelf(db: Db, user: string, id: string): string
    requires Key(user, id) in db.messages
  {
    var reply := db.messages[Key(user, id)].msg.replyToId;
    if reply != "" then reply else id
  }

  /** Every user's row is filed under its parent-or-self, without the user's prefix. */
  ghost predicate Filed(db: Db) {
    forall w, id :: IsTenantId(w) && Key(w, id) in db.messages ==>
      db.messages[Key(w, id)].msg.threadId == ParentOrSelf(db, w, id)
  }

  // ---------- every run keeps rows filed ----------

  lemma SaveKeepsFiled(db: Db, user: string, m: Message)
    requires Filed(db) && IsTenantId(user) && m.threadId == ""
    ensures Filed(SaveFor(db, user, m))
  {
    hide IsTenantId, Key, SaveFor;
    var db' := SaveFor(db, user, m);
    SaveForTouches(db, user, m);
    forall w, id | IsTenantId(w) && Key(w, id) in db'.messages
      ensures db'.messages[Key(w, id)].msg.threadId == ParentOrSelf(db', w, id)
    {
      KeyIsInjective(w, id, user, m.id);
    }
  }

  /** The same rows, with the columns threads depend on. */
  ghost predicate SameFiling(db: Db, db': Db) {
    && db'.messages.Keys == db.messages.Keys
    && forall k :: k in db.messages ==>
         && db'.messages[k].msg.threadId == db.messages[k].msg.threadId
         && db'.messages[k].msg.replyToId == db.messages[k].msg.replyToId
  }

  lemma SameFilingKeepsFiled(db: Db, db': Db)
    requires Filed(db) && SameFiling(db, db')
    ensures Filed(db')
  {
    hide IsTenantId, Key;
  }

  lemma UpdatesKeepFiled(db: Db, k: string, status: string)
    requires Valid(db) && Filed(db)
    ensures Filed(SetRead(db, k)) && Filed(Trash(db, k)) && Filed(SetStatus(db, k, status))
  {
    hide Filed, SetRead, Trash, SetStatus, Valid;
    UpdatesKeepFiling(db, k, status);
    SameFilingKeepsFiled(db, SetRead(db, k));
    SameFilingKeepsFiled(db, Trash(db, k));
    SameFilingKeepsFiled(db, SetStatus(db, k, status));
  }

  lemma UpdatesKeepFiling(db: Db, k: string, status: string)
    requires Valid(db)
    ensures SameFiling(db, SetRead(db, k)) && SameFiling(db, Trash(db, k)) && SameFiling(db, SetStatus(db, k, status))
  {
    hide SameFiling, SetRead, Trash, SetStatus;
    if k in db.messages { OneColumnFiling(db, k, status); } else { NothingToUpdate(db, k, status); }
  }

  lemma OneColumnFiling(db: Db, k: string, status: string)
    requires k in db.messages && db.messages[k].msg.id == k
    ensures SameFiling(db, SetRead(db, k)) && SameFiling(db, Trash(db, k)) && SameFiling(db, SetStatus(db, k, status))
  {
    UpdatesChangeOneColumn(db, k, status);
    hide SetRead, Trash, SetStatus, Update, Valid;
  }

  lemma NothingToUpdate(db: Db, k: string, status: string)
    requires k !in db.messages
    ensures SameFiling(db, SetRead(db, k)) && SameFiling(db, Trash(db, k)) && SameFiling(db, SetStatus(db, k, status))
  {
    hide Update;
  }

  lemma LetterKeepsFiled(db: Db, t: Task, outcome: Outcome)
    requires Sends(t) && Valid(db) && Filed(db) && forall v :: v in UsersOf(t) ==> IsTenantId(v)
    ensures Filed(StepLetter(db, t, outcome).0)
  {
    hide Filed, IsTenantId, SaveFor, SetStatus, Valid, Key;
    var user := if t.SaveInbox? then t.to else t.l.sender;
    assert user in UsersOf(t);
    if t.SaveInbox? { SaveKeepsFiled(db, user, InboxCopy(t.l)); } else { SaveKeepsFiled(db, user, SentCopy(t.l)); }
    UpdatesKeepFiled(db, Key(t.l.sender, t.l.msgId), "delivered");
    UpdatesKeepFiled(db, Key(t.l.sender, t.l.msgId), "sent");
  }

  lemma ReadKeepsFiled(db: Db, t: Task)
    requires Reads(t) && Valid(db) && Filed(db)
    ensures Filed(StepRead(db, t).0)
  {
    hide Filed, SetRead, Trash, SetStatus, Valid, Key;
    match t {
      case SetReadFlag(user, x) => UpdatesKeepFiled(db, Key(user, x), "");
      case Receipt(_, sender, x) => UpdatesKeepFiled(db, Key(sender, x), "read");
      case SetTrash(user, x) => UpdatesKeepFiled(db, Key(user, x), "");
      case _ =>
    }
  }

  lemma ProcessKeepsFiled(env: Env, db: Db, t: Task)
    requires t.Process? && t.at < |t.packets| && Filed(db) && IsTenantId(t.user)
    ensures Filed(StepProcess(env, db, t).0)
  {
    hide Filed, IsTenantId, SaveFor, MarkProcessed, AddressOf;
    var p := t.packets[t.at];
    MarkTouches(db, p.id);
    SameFilingKeepsFiled(db, MarkProcessed(db, p.id));
    if env.open(t.user, p.rawData).Some? && !t.saved {
      SaveKeepsFiled(db, t.user, PacketCopy(db, t.user, p, env.open(t.user, p.rawData).value));
    }
  }

  lemma AdvanceKeepsFiled(env: Env, s: State, i: nat, outcome: Outcome, snapshot: seq<Pending>)
    requires Inv(s) && Filed(s.db) && i < |s.tasks| && !Finished(s.tasks[i])
    ensures Filed(StepTask(env, s.db, s.tasks[i], outcome, snapshot).0)
  {
    hide StepLetter, StepRead, StepProcess, Inv, Valid, UsersOk, IsTenantId, Filed;
    var t := s.tasks[i];
    TaskUsersAreTenants(s, i);
    if t.Process? {
      assert t.user in UsersOf(t);
      ProcessKeepsFiled(env, s.db, t);
    } else if Reads(t) {
      ReadKeepsFiled(s.db, t);
    } else if !t.Fetch? {
      LetterKeepsFiled(s.db, t, outcome);
    }
  }

  lemma StepKeepsFiled(env: Env, s: State, ev: Event)
    requires Inv(s) && Filed(s.db) && Allowed(s, ev)
    ensures Filed(After(env, s, ev).db)
  {
    hide StepTask, Inv, Mailbox.Delivery, MayStart, S.IsBacklog, Filed;
    match ev {
      case Start(_) =>
      case Arrive(_, _, _, _) => SameFilingKeepsFiled(s.db, After(env, s, ev).db);
      case Signup(_) => SameFilingKeepsFiled(s.db, After(env, s, ev).db);
      case Advance(i, outcome, snapshot) => AdvanceKeepsFiled(env, s, i, outcome, snapshot);
      case DeliverAtOnce(i) =>
        var one := Advance(i, Lost, []);
        AdvanceKeepsFiled(env, s, i, Lost, []);
        StepKeepsInv(env, s, one);
        AtOnceIsTwoSteps(env, s, i, Lost);
        AdvanceKeepsFiled(env, After(env, s, one), i, Lost, []);
    }
  }

  lemma {:induction false} RunKeepsFiled(env: Env, s: State, evs: seq<Event>)
    requires Inv(s) && Filed(s.db) && IsRun(env, s, evs)
    ensures Inv(End(env, s, evs)) && Filed(End(env, s, evs).db)
    decreases |evs|
  {
    hide Inv, Filed, Allowed, After;
    if evs != [] {
      StepKeepsInv(env, s, evs[0]);
      StepKeepsFiled(env, s, evs[0]);
      RunKeepsFiled(env, After(env, s, evs[0]), evs[1..]);
    }
  }

  // ---------- what a user is shown ----------

  /**
   * A user's thread of a message exists when he has the message, and holds, of his messages, exactly
   * those with the same parent-or-self, and nothing of anybody else's.
   */
  lemma ThreadIsSameParent(db: Db, user: string, id: string, other: string)
    requires IsTenantId(user) && Scoped(db) && Filed(db)
    ensures ThreadKeysFor(db, user, id).Some? <==> Key(user, id) in db.messages
    ensures Key(user, id) in db.messages ==>
              (Key(user, other) in ThreadKeysFor(db, user, id).value <==>
               Key(user, other) in db.messages && ParentOrSelf(db, user, other) == ParentOrSelf(db, user, id))
    ensures Key(user, id) in db.messages ==>
              forall k :: k in ThreadKeysFor(db, user, id).value ==> exists m :: k == Key(user, m)
  {
    LikeFindsOwnRows(db, user);
    if Key(user, id) in db.messages {
      OwnedKeys(user);
      hide IsTenantId, LikeKeys, Key;
      forall k | k in ThreadKeysFor(db, user, id).value
        ensures exists m :: k == Key(user, m)
      {
        assert Owned(user, k);
      }
    }
  }

  lemma OwnedKeys(user: string)
    ensures forall k :: Owned(user, k) ==> exists m :: k == Key(user, m)
  {
    forall k | Owned(user, k)
      ensures exists m :: k == Key(user, m)
    {
      var m := k[|user| + 1..];
      assert k == user + ":" + m;
      assert k == Key(user, m);
    }
  }

  /** In every reachable state of the daemon. */
  lemma ThreadsInEveryState(env: Env, evs: seq<Event>, user: string, id: string, other: string)
    requires IsRun(env, INITIAL, evs) && IsTenantId(user)
    ensures var db := End(env, INITIAL, evs).db;
      && (ThreadKeysFor(db, user, id).Some? <==> Key(user, id) in db.messages)
      && (Key(user, id) in db.messages ==>
            (Key(user, other) in ThreadKeysFor(db, user, id).value <==>
             Key(user, other) in db.messages && ParentOrSelf(db, user, other) == ParentOrSelf(db, user, id)))
      && (Key(user, id) in db.messages ==>
            forall k :: k in ThreadKeysFor(db, user, id).value ==> exists m :: k == Key(user, m))
  {
    assert Inv(INITIAL) && Filed(INITIAL.db);
    hide IsRun, End, IsTenantId, Filed, ThreadKeysFor, Key;
    RunKeepsFiled(env, INITIAL, evs);
    ThreadIsSameParent(End(env, INITIAL, evs).db, user, id, other);
  }
}
