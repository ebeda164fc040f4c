/**
 * Local mail is mirrored (pkg/daemon/multi_tenant.go, SendMessageForUser; pkg/store/store_multi.go,
 * GetThreadForUser): sender and recipient hold the same message under the same id and thread.
 */
module Mirror {
  import opened Bytes
  import opened Like
  import opened Tables
  import opened Views
  import opened Mailbox
  import opened Letters
  import opened UserThreads

  /** The two rows say the same; only key, folder, read flag and status are each user's own. */
  ghost predicate SameMail(m: Message, n: Message) {
    n == m.(id := n.id, folder := n.folder, isRead := n.isRead, status := n.status)
  }

  /** The letter's inbox copy has been saved. */
  ghost predicate IsExchanged(t: Task, l: Letter, to: string) {
    t == Confirm(l, to) || t == Delivered(l, to)
  }

  /** Two users and a message that went from one of them to the other. */
  ghost predicate Between(s: State, a: string, b: string, id: string) {
    exists j, l, to :: 0 <= j < |s.tasks| && IsExchanged(s.tasks[j], l, to) && l.msgId == id && {l.sender, to} == {a, b}
  }

  /** One row for the sender, one for the recipient - the same for a message to oneself - and none for anybody else. */
  lemma LocalMailIsMirrored(s: State, j: nat, l: Letter, to: string)
    requires LetterInv(s, l.msgId) && j < |s.tasks| && IsExchanged(s.tasks[j], l, to)
    ensures IsTenantId(to) && IsTenantId(l.sender)
    ensures forall w :: IsTenantId(w) ==> (Key(w, l.msgId) in s.db.messages <==> w == l.sender || w == to)
    ensures Key(l.sender, l.msgId) in s.db.messages && Key(to, l.msgId) in s.db.messages
    ensures HoldsLetter(s.db.messages[Key(l.sender, l.msgId)].msg, l) && HoldsLetter(s.db.messages[Key(to, l.msgId)].msg, l)
    ensures SameMail(s.db.messages[Key(l.sender, l.msgId)].msg, s.db.messages[Key(to, l.msgId)].msg)
  {
    hide IsTenantId, Key;
    assert Carries(s.tasks[j], l.msgId) && LetterOk(s.db, s.tasks[j]);
    var g := StageOf(s.tasks[j]);
    assert HasRow(g, l, l.sender) && HasRow(g, l, to);
  }

  /** All the rows under a message id, whoever's they are. */
  ghost function RowsUnder(db: Db, id: string): set<string> {
    set k | k in db.messages && IsKeyOf(k, id)
  }

  ghost predicate IsKeyOf(k: string, id: string) {
    exists w :: IsTenantId(w) && k == Key(w, id)
  }

  lemma ExactlyTheseRows(s: State, j: nat, l: Letter, to: string)
    requires LetterInv(s, l.msgId) && j < |s.tasks| && IsExchanged(s.tasks[j], l, to)
    ensures RowsUnder(s.db, l.msgId) == {Key(l.sender, l.msgId), Key(to, l.msgId)}
    ensures |RowsUnder(s.db, l.msgId)| == if to == l.sender then 1 else 2
  {
    hide IsTenantId, Key, LetterInv, IsExchanged, HoldsLetter, SameMail;
    LocalMailIsMirrored(s, j, l, to);
    KeyIsInjective(l.sender, l.msgId, to, l.msgId);
  }

  lemma BetweenShareThread(s: State, a: string, b: string, id: string)
    requires LetterInv(s, id) && Between(s, a, b, id)
    ensures IsTenantId(a) && IsTenantId(b) && Key(a, id) in s.db.messages && Key(b, id) in s.db.messages
    ensures ParentOrSelf(s.db, a, id) == ParentOrSelf(s.db, b, id)
  {
    hide IsTenantId, Key, LetterInv;
    var j, l, to :| 0 <= j < |s.tasks| && IsExchanged(s.tasks[j], l, to) && l.msgId == id && {l.sender, to} == {a, b};
    LocalMailIsMirrored(s, j, l, to);
    assert a in {l.sender, to} && b in {l.sender, to};
  }

  /**
   * Asked for the thread of a message they exchanged, both users are shown, of their exchanged
   * messages, exactly those with the same parent-or-self.
   */
  lemma ThreadsAreMirrored(s: State, a: string, b: string, id: string, other: string)
    requires Inv(s) && Filed(s.db) && LetterInv(s, id) && LetterInv(s, other) && Between(s, a, b, id) && Between(s, a, b, other)
    ensures Key(a, id) in s.db.messages && Key(a, other) in s.db.messages
    ensures ThreadKeysFor(s.db, a, id).Some? && ThreadKeysFor(s.db, b, id).Some?
    ensures var together := ParentOrSelf(s.db, a, other) == ParentOrSelf(s.db, a, id);
      && (Key(a, other) in ThreadKeysFor(s.db, a, id).value <==> together)
      && (Key(b, other) in ThreadKeysFor(s.db, b, id).value <==> together)
  {
    hide IsTenantId, Key, LetterInv, Between, Valid, Scoped, UsersOk, TasksOk, ThreadKeysFor, Filed, ParentOrSelf;
    BetweenShareThread(s, a, b, id);
    BetweenShareThread(s, a, b, other);
    ThreadIsSameParent(s.db, a, id, other);
    ThreadIsSameParent(s.db, b, id, other);
  }

  /**
   * In every reachable state a delivered message has one row on either side, and the rows say the
   * same; a message to oneself has one row in all.
   */
  lemma MailIsMirroredOverRuns(env: Env, evs: seq<Event>, j: nat, l: Letter, to: string)
    requires NoPacketCarries(env, l.msgId) && IsRun(env, INITIAL, evs)
    requires j < |End(env, INITIAL, evs).tasks| && IsExchanged(End(env, INITIAL, evs).tasks[j], l, to)
    ensures var db := End(env, INITIAL, evs).db;
      && RowsUnder(db, l.msgId) == {Key(l.sender, l.msgId), Key(to, l.msgId)}
      && |RowsUnder(db, l.msgId)| == (if to == l.sender then 1 else 2)
      && Key(l.sender, l.msgId) in db.messages && Key(to, l.msgId) in db.messages
      && SameMail(db.messages[Key(l.sender, l.msgId)].msg, db.messages[Key(to, l.msgId)].msg)
      && HoldsLetter(db.messages[Key(to, l.msgId)].msg, l)
  {
    hide NoPacketCarries, Inv, LetterInv, IsRun, End, IsTenantId, Key, RowsUnder, IsExchanged;
    ReachableLetter(env, evs, l.msgId);
    LocalMailIsMirrored(End(env, INITIAL, evs), j, l, to);
    ExactlyTheseRows(End(env, INITIAL, evs), j, l, to);
  }

  /** In every reachable state two users are shown the same of the messages they exchanged. */
  lemma MirroredFromTheStart(env: Env, evs: seq<Event>, a: string, b: string, id: string, other: string)
    requires NoPacketCarries(env, id) && NoPacketCarries(env, other) && IsRun(env, INITIAL, evs)
    requires Between(End(env, INITIAL, evs), a, b, id) && Between(End(env, INITIAL, evs), a, b, other)
    ensures var s := End(env, INITIAL, evs);
      && Key(a, id) in s.db.messages && Key(a, other) in s.db.messages
      && ThreadKeysFor(s.db, a, id).Some? && ThreadKeysFor(s.db, b, id).Some?
      && var together := ParentOrSelf(s.db, a, other) == ParentOrSelf(s.db, a, id);
         && (Key(a, other) in ThreadKeysFor(s.db, a, id).value <==> together)
         && (Key(b, other) in ThreadKeysFor(s.db, b, id).value <==> together)
  {
    assert Inv(INITIAL) && Filed(INITIAL.db);
    hide NoPacketCarries, Inv, LetterInv, IsRun, End, Between, Key, ThreadKeysFor, Filed, ParentOrSelf;
    ReachableLetter(env, evs, id);
    ReachableLetter(env, evs, other);
    RunKeepsFiled(env, INITIAL, evs);
    ThreadsAreMirrored(End(env, INITIAL, evs), a, b, id, other);
  }
}
