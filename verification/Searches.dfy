/**
 * The full-text index and searches in the running daemons (pkg/store/store.go, migrate and
 * SearchMessages; pkg/store/store_multi.go, SearchMessagesForUser). Every run of the mailbox machine
 * and of the single-user daemon is a run of index operations; and a user's search is isolated from
 * other users' steps except in one way, which is proved exactly.
 */
module Searches {
  import opened Bytes
  import opened Like
  import opened Tables
  import opened Query
  import opened Views
  import opened SearchIndex
  import opened Mailbox
  import opened Letters
  import Isolation
  import Processing
  import Single = SingleUser
  import Store

  // ---------- the machine's steps as index operations ----------

  /** The tables without packets and users, which no search looks at. */
  function MessagesOf(db: Db): Db {
    db.(pending := [], users := [])
  }

  function InsertFor(user: string, m: Message): Op {
    Insert(Filled(m).(id := Key(user, m.id)))
  }

  /** The statements on messages that one store call of a task makes. */
  function TaskOps(env: Env, db: Db, t: Task, outcome: Outcome): seq<Op> {
    match t
    case SaveSent(l) => [InsertFor(l.sender, SentCopy(l))]
    case SaveFederated(l) => [InsertFor(l.sender, SentCopy(l))]
    case SaveInbox(l, to) => [InsertFor(to, InboxCopy(l))]
    case Confirm(l, _) => [Status(Key(l.sender, l.msgId), "delivered")]
    case Push(l) =>
      (match outcome
       case ByFederation => [Status(Key(l.sender, l.msgId), "delivered")]
       case ByDht => [Status(Key(l.sender, l.msgId), "sent")]
       case Lost => [])
    case SetReadFlag(user, id) => [Read(Key(user, id))]
    case Receipt(_, sender, id) => [Status(Key(sender, id), "read")]
    case SetTrash(user, id) => [Delete(Key(user, id))]
    case Process(user, packets, at, saved) =>
      if at >= |packets| || saved then []
      else (match env.open(user, packets[at].rawData)
            case None => []
            case Some(m) => [InsertFor(user, PacketCopy(db, user, packets[at], m))])
    case _ => []
  }

  ghost function StepOps(env: Env, s: State, ev: Event): seq<Op>
    requires Allowed(s, ev)
  {
    match ev
    case Advance(i, outcome, _) => TaskOps(env, s.db, s.tasks[i], outcome)
    case DeliverAtOnce(i) =>
      var l := s.tasks[i].l;
      [InsertFor(s.tasks[i].to, InboxCopy(l)), Status(Key(l.sender, l.msgId), "delivered")]
    case _ => []
  }

  ghost function RunOps(env: Env, s: State, evs: seq<Event>): seq<Op>
    requires IsRun(env, s, evs)
    decreases |evs|
  {
    if evs == [] then [] else StepOps(env, s, evs[0]) + RunOps(env, After(env, s, evs[0]), evs[1..])
  }

  lemma MessagesAreValid(db: Db)
    requires Valid(db)
    ensures Valid(MessagesOf(db))
  {
  }

  lemma NoOps(db: Db)
    requires Valid(db)
    ensures SearchIndex.Run(db, []) == db
  {
  }

  lemma OneOp(db: Db, op: Op)
    requires Valid(db)
    ensures SearchIndex.Run(db, [op]) == Apply(db, op)
  {
    hide Apply;
    NoOps(db);
    assert [op][..0] == [];
  }

  lemma ApplyOnMessages(db: Db, op: Op)
    requires Valid(db) && Valid(MessagesOf(db))
    ensures MessagesOf(Apply(db, op)) == Apply(MessagesOf(db), op)
  {
  }

  lemma SaveIsInsert(db: Db, user: string, m: Message)
    requires Valid(db)
    ensures SaveFor(db, user, m) == Apply(db, InsertFor(user, m))
  {
  }

  lemma TaskIsOps(env: Env, db: Db, t: Task, outcome: Outcome, snapshot: seq<Pending>)
    requires Valid(db) && !Finished(t)
    ensures MessagesOf(StepTask(env, db, t, outcome, snapshot).0) == SearchIndex.Run(MessagesOf(db), TaskOps(env, db, t, outcome))
    ensures |TaskOps(env, db, t, outcome)| <= 1
  {
    hide Valid, SearchIndex.Run, SaveFor, SetRead, Trash, SetStatus, Key, PacketCopy, InsertFor, SentCopy, InboxCopy;
    var ops := TaskOps(env, db, t, outcome);
    MessagesAreValid(db);
    NoOps(MessagesOf(db));
    if ops == [] {
      QuietOnMessages(env, db, t, outcome, snapshot);
    } else {
      OneOp(MessagesOf(db), ops[0]);
      ApplyOnMessages(db, ops[0]);
      match t {
        case SaveSent(l) => SaveIsInsert(db, l.sender, SentCopy(l));
        case SaveFederated(l) => SaveIsInsert(db, l.sender, SentCopy(l));
        case SaveInbox(l, to) => SaveIsInsert(db, to, InboxCopy(l));
        case Process(user, packets, at, _) =>
          SaveIsInsert(db, user, PacketCopy(db, user, packets[at], env.open(user, packets[at].rawData).value));
        case _ =>
      }
    }
  }

  lemma QuietOnMessages(env: Env, db: Db, t: Task, outcome: Outcome, snapshot: seq<Pending>)
    requires !Finished(t) && TaskOps(env, db, t, outcome) == []
    ensures MessagesOf(StepTask(env, db, t, outcome, snapshot).0) == MessagesOf(db)
  {
    hide Key, PacketCopy, InsertFor;
  }

  lemma DeliveryIsOps(db: Db, l: Letter, to: string)
    requires Valid(db)
    ensures MessagesOf(Mailbox.Delivery(db, l, to)) ==
            SearchIndex.Run(MessagesOf(db), [InsertFor(to, InboxCopy(l)), Status(Key(l.sender, l.msgId), "delivered")])
  {
    hide Valid, Apply, SaveFor, SetStatus, Key, InsertFor, InboxCopy;
    var a, b := InsertFor(to, InboxCopy(l)), Status(Key(l.sender, l.msgId), "delivered");
    MessagesAreValid(db);
    ApplyIsValid(db, a);
    SaveIsInsert(db, to, InboxCopy(l));
    ApplyOnMessages(db, a);
    MessagesAreValid(Apply(db, a));
    ApplyOnMessages(Apply(db, a), b);
    StatusIsOp(Apply(db, a), b);
    RunConcat(MessagesOf(db), [a], [b]);
    OneOp(MessagesOf(db), a);
    OneOp(Apply(MessagesOf(db), a), b);
    assert [a] + [b] == [a, b];
  }

  lemma StatusIsOp(db: Db, op: Op)
    requires Valid(db) && op.Status?
    ensures Apply(db, op) == SetStatus(db, op.id, op.status)
  {
  }

  lemma StepIsOps(env: Env, s: State, ev: Event)
    requires Inv(s) && Allowed(s, ev)
    ensures Valid(MessagesOf(s.db))
    ensures MessagesOf(After(env, s, ev).db) == SearchIndex.Run(MessagesOf(s.db), StepOps(env, s, ev))
  {
    hide Valid, SearchIndex.Run, StepTask, TaskOps, Mailbox.Delivery, MayStart, Store.IsBacklog;
    MessagesAreValid(s.db);
    NoOps(MessagesOf(s.db));
    match ev {
      case Advance(i, outcome, snapshot) => TaskIsOps(env, s.db, s.tasks[i], outcome, snapshot);
      case DeliverAtOnce(i) => DeliveryIsOps(s.db, s.tasks[i].l, s.tasks[i].to);
      case _ =>
    }
  }

  lemma {:induction false} RunIsOps(env: Env, s: State, evs: seq<Event>)
    requires Inv(s) && IsRun(env, s, evs)
    ensures Valid(MessagesOf(s.db))
    ensures MessagesOf(End(env, s, evs).db) == SearchIndex.Run(MessagesOf(s.db), RunOps(env, s, evs))
    decreases |evs|
  {
    MessagesAreValid(s.db);
    if evs == [] {
      NoOps(MessagesOf(s.db));
    } else {
      hide Inv, Allowed, After, StepOps, SearchIndex.Run, MessagesOf;
      StepIsOps(env, s, evs[0]);
      StepKeepsInv(env, s, evs[0]);
      RunIsOps(env, After(env, s, evs[0]), evs[1..]);
      RunConcat(MessagesOf(s.db), StepOps(env, s, evs[0]), RunOps(env, After(env, s, evs[0]), evs[1..]));
    }
  }

  /**
   * In every reachable state of the multi-tenant daemon the index is the re-indexed table plus the
   * entries left behind by the rows its run replaced, under rowids no longer in use.
   */
  lemma MailboxIndexAgrees(env: Env, evs: seq<Event>)
    requires IsRun(env, INITIAL, evs)
    ensures var db, left := End(env, INITIAL, evs).db, Leftovers(EMPTY, RunOps(env, INITIAL, evs));
      && Valid(db) && IndexIs(db, left)
      && db.index == Reindexed(db) + left && Reindexed(db).Keys !! left.Keys
      && (db.index == Reindexed(db) <==> left == map[])
  {
    hide IsRun, End, RunOps, IndexIs, SearchIndex.Run, Leftovers;
    EmptyIndex();
    EmptyMachine();
    RunIsOps(env, INITIAL, evs);
    RunKeepsInv(env, INITIAL, evs);
    IndexOverARun(EMPTY, RunOps(env, INITIAL, evs));
    SameIndex(End(env, INITIAL, evs).db, Leftovers(EMPTY, RunOps(env, INITIAL, evs)));
    IndexIsReindexedPlus(End(env, INITIAL, evs).db, Leftovers(EMPTY, RunOps(env, INITIAL, evs)));
  }

  lemma EmptyMachine()
    ensures Inv(INITIAL) && MessagesOf(INITIAL.db) == EMPTY
  {
  }

  lemma SameIndex(db: Db, extra: map<nat, Doc>)
    ensures IndexIs(MessagesOf(db), extra) <==> IndexIs(db, extra)
  {
    assert forall r :: IsLive(MessagesOf(db), r) <==> IsLive(db, r);
  }

  // ---------- the single-user daemon ----------

  function SingleOp(o: Single.Owner, db: Db, op: Single.Op): seq<Op> {
    match op
    case Poll(pkt) =>
      (match Single.Packet.Open(o.suite, pkt, o.keys.seed)
       case Err(_) => []
       case Ok(payload) =>
         if Text(payload.messageId) in db.messages then [] else [Insert(Filled(Single.Received(o, pkt, payload)))])
    case Read(id) => [SearchIndex.Read(id)]
    case Delete(id) => [SearchIndex.Delete(id)]
    case Send(out) =>
      (match Single.SentCopy(o, out)
       case None => []
       case Some(m) => [Insert(Filled(m))])
  }

  function SingleOps(o: Single.Owner, db: Db, ops: seq<Single.Op>): seq<Op> {
    if ops == [] then []
    else SingleOps(o, db, ops[..|ops| - 1]) + SingleOp(o, Single.Run(o, db, ops[..|ops| - 1]), ops[|ops| - 1])
  }

  lemma SingleStepIsOps(o: Single.Owner, db: Db, op: Single.Op)
    requires Valid(db)
    ensures Single.Apply(o, db, op) == SearchIndex.Run(db, SingleOp(o, db, op))
  {
    hide Valid, SearchIndex.Run, Single.SentCopy, Single.Packet.Open, Upsert, SetRead, Trash, Single.Received;
    NoOps(db);
    var ops := SingleOp(o, db, op);
    if ops != [] { OneOp(db, ops[0]); }
  }

  lemma {:induction false} SingleRunIsOps(o: Single.Owner, db: Db, ops: seq<Single.Op>)
    requires Valid(db)
    ensures Valid(Single.Run(o, db, ops)) && Single.Run(o, db, ops) == SearchIndex.Run(db, SingleOps(o, db, ops))
  {
    if ops == [] {
      NoOps(db);
    } else {
      hide Valid, SearchIndex.Run, SingleOp, Single.Apply;
      var init, op := ops[..|ops| - 1], ops[|ops| - 1];
      SingleRunIsOps(o, db, init);
      SingleStepIsOps(o, Single.Run(o, db, init), op);
      RunConcat(db, SingleOps(o, db, init), SingleOp(o, Single.Run(o, db, init), op));
    }
  }

  /** The same of every run of the single-user daemon on an empty store. */
  lemma SingleUserIndexAgrees(o: Single.Owner, ops: seq<Single.Op>)
    ensures var db, left := Single.Run(o, EMPTY, ops), Leftovers(EMPTY, SingleOps(o, EMPTY, ops));
      && Valid(db) && IndexIs(db, left)
      && db.index == Reindexed(db) + left && Reindexed(db).Keys !! left.Keys
      && (db.index == Reindexed(db) <==> left == map[])
  {
    hide IndexIs, SearchIndex.Run, Single.Run, Leftovers, SingleOps;
    EmptyIndex();
    SingleRunIsOps(o, EMPTY, ops);
    IndexOverARun(EMPTY, SingleOps(o, EMPTY, ops));
    IndexIsReindexedPlus(Single.Run(o, EMPTY, ops), Leftovers(EMPTY, SingleOps(o, EMPTY, ops)));
  }

  // ---------- what a statement does to searches ----------

  /** The statement puts a row in the place of one whose text matches. */
  predicate Replaces(db: Db, op: Op, match': Matcher, query: string) {
    op.Insert? && op.m.id in db.messages && Hits(match', query, DocOf(db.messages[op.m.id].msg))
  }

  /** A statement brings a stale hit exactly by replacing a row that matches, and takes none away. */
  lemma StaleAfterOp(db: Db, extra: map<nat, Doc>, op: Op, match': Matcher, query: string)
    requires Valid(db) && IndexIs(db, extra) && !op.Reopen?
    ensures StaleHit(Apply(db, op), match', query) <==> StaleHit(db, match', query) || Replaces(db, op, match', query)
  {
    hide Valid, Hits, StaleHit, Apply;
    var left := LeftBehind(db, op);
    StepKeepsIndex(db, op, extra);
    ApplyIsValid(db, op);
    IndexedSearchIsAScan(db, extra, match', query);
    IndexedSearchIsAScan(Apply(db, op), extra + left, match', query);
    LeftIsApart(db, extra, op);
    hide IndexIs;
    if Replaces(db, op, match', query) {
      var r := db.messages[op.m.id].rowid;
      assert r in extra + left && Hits(match', query, (extra + left)[r]);
    }
    if r :| r in extra && Hits(match', query, extra[r]) {
      assert r in extra + left && (extra + left)[r] == extra[r];
    }
    if r :| r in extra + left && Hits(match', query, (extra + left)[r]) {
      assert r in extra || r in left;
    }
  }

  lemma LeftIsApart(db: Db, extra: map<nat, Doc>, op: Op)
    requires IndexIs(db, extra)
    ensures extra.Keys !! LeftBehind(db, op).Keys
  {
    if op.Insert? && op.m.id in db.messages { LiveRow(db, op.m.id); }
  }

  /** The step's first statement replaces a row whose text matches. */
  ghost predicate StepReplaces(env: Env, s: State, ev: Event, match': Matcher, query: string)
    requires Allowed(s, ev)
  {
    StepOps(env, s, ev) != [] && Replaces(s.db, StepOps(env, s, ev)[0], match', query)
  }

  lemma SameMessagesSameHits(db: Db, match': Matcher, query: string)
    ensures StaleHit(MessagesOf(db), match', query) <==> StaleHit(db, match', query)
  {
  }

  lemma StepShape(env: Env, s: State, ev: Event)
    requires Allowed(s, ev)
    ensures |StepOps(env, s, ev)| <= 2 && (|StepOps(env, s, ev)| == 2 ==> StepOps(env, s, ev)[1].Status?)
    ensures forall i :: 0 <= i < |StepOps(env, s, ev)| ==> !StepOps(env, s, ev)[i].Reopen?
  {
    hide Key, PacketCopy, InboxCopy, SentCopy, Filled, FreshId, IsUser, AddressOf, Store.IsBacklog;
  }

  lemma StaleAfterOps(db: Db, extra: map<nat, Doc>, ops: seq<Op>, match': Matcher, query: string)
    requires Valid(db) && IndexIs(db, extra)
    requires |ops| <= 2 && (|ops| == 2 ==> ops[1].Status?) && forall i :: 0 <= i < |ops| ==> !ops[i].Reopen?
    ensures StaleHit(SearchIndex.Run(db, ops), match', query) <==>
            StaleHit(db, match', query) || (ops != [] && Replaces(db, ops[0], match', query))
    ensures exists more: map<nat, Doc> :: IndexIs(SearchIndex.Run(db, ops), more)
  {
    hide Valid, Hits, StaleHit, Apply, SearchIndex.Run, IndexIs, Replaces, LeftBehind;
    NoOps(db);
    if ops != [] {
      var mid := Apply(db, ops[0]);
      ApplyIsValid(db, ops[0]);
      StaleAfterOp(db, extra, ops[0], match', query);
      StepKeepsIndex(db, ops[0], extra);
      OneOp(db, ops[0]);
      var left := extra + LeftBehind(db, ops[0]);
      assert IndexIs(mid, left);
      if |ops| == 2 {
        StaleAfterOp(mid, left, ops[1], match', query);
        StatusReplacesNothing(mid, ops[1], match', query);
        StepKeepsIndex(mid, ops[1], left);
        RunConcat(db, [ops[0]], [ops[1]]);
        OneOp(mid, ops[1]);
        assert ops == [ops[0]] + [ops[1]];
      } else {
        assert ops == [ops[0]];
      }
    }
  }

  lemma StatusReplacesNothing(db: Db, op: Op, match': Matcher, query: string)
    requires op.Status?
    ensures !Replaces(db, op, match', query)
  {
  }

  /** A step of the machine brings a stale hit exactly by replacing a row that matches. */
  lemma StaleAfterStep(env: Env, s: State, ev: Event, extra: map<nat, Doc>, match': Matcher, query: string)
    requires Inv(s) && Allowed(s, ev) && IndexIs(s.db, extra)
    ensures StaleHit(After(env, s, ev).db, match', query) <==>
            StaleHit(s.db, match', query) || StepReplaces(env, s, ev, match', query)
    ensures exists more: map<nat, Doc> :: IndexIs(After(env, s, ev).db, more)
  {
    hide Inv, Valid, Allowed, After, StepOps, StaleHit, IndexIs, SearchIndex.Run;
    var db := MessagesOf(s.db);
    StepIsOps(env, s, ev);
    StepShape(env, s, ev);
    SameIndex(s.db, extra);
    StaleAfterOps(db, extra, StepOps(env, s, ev), match', query);
    SameMessagesSameHits(s.db, match', query);
    SameMessagesSameHits(After(env, s, ev).db, match', query);
    var more: map<nat, Doc> :| IndexIs(MessagesOf(After(env, s, ev).db), more);
    SameIndex(After(env, s, ev).db, more);
  }

  // ---------- one user's searches and the others' steps ----------

  ghost predicate SameAnswers(db: Db, db': Db, match': Matcher, u: string, query: string) {
    forall limit, r :: Store.MayAnswer(db', match', u, query, limit, r) <==> Store.MayAnswer(db, match', u, query, limit, r)
  }

  lemma NewestOfSame(t: Table, t': Table, keys: set<string>, n: nat, rows: seq<Message>)
    requires forall k :: k in keys ==> k in t && k in t' && t'[k] == t[k]
    ensures Newest(t', keys, n, rows) <==> Newest(t, keys, n, rows)
  {
    hide Sorted, Distinct, Ids;
  }

  /** With the same share and no stale hit on either side the answers are the same; a new stale hit changes them all. */
  lemma AnswersFollowStaleHits(db: Db, db': Db, extra: map<nat, Doc>, more: map<nat, Doc>, match': Matcher, u: string, query: string)
    requires Valid(db) && Valid(db') && Scoped(db) && Scoped(db') && IsTenantId(u) && Isolation.SameShare(db, db', u)
    requires IndexIs(db, extra) && IndexIs(db', more)
    ensures SameAnswers(db, db', match', u, query) <==> (StaleHit(db', match', query) <==> StaleHit(db, match', query))
  {
    hide Valid, Scoped, IsTenantId, Isolation.SameShare, IndexIs, StaleHit, LikeKeys, Newest, StripAll;
    IndexedSearchIsAScan(db, extra, match', query);
    IndexedSearchIsAScan(db', more, match', query);
    Isolation.SameShareSameViews(db, db', u, "", "", match', query, []);
    var keys := LikeKeys(db, u) * IndexHits(db, match', query);
    assert LikeKeys(db', u) * IndexHits(db', match', query) == keys;
    hide IndexHits, ScanHits;
    SearchedRowsStay(db, db', u, keys);
    forall n: nat, rows
      ensures Newest(db'.messages, keys, n, rows) <==> Newest(db.messages, keys, n, rows)
    {
      NewestOfSame(db.messages, db'.messages, keys, n, rows);
    }
    if SameAnswers(db, db', match', u, query) {
      var failed := Err(Store.MissingContentRow);
      assert Store.MayAnswer(db', match', u, query, 0, failed) <==> Store.MayAnswer(db, match', u, query, 0, failed);
    }
  }

  lemma SearchedRowsStay(db: Db, db': Db, u: string, keys: set<string>)
    requires IsTenantId(u) && Scoped(db) && Scoped(db') && Isolation.SameShare(db, db', u) && keys <= LikeKeys(db, u)
    ensures forall k :: k in keys ==> k in db.messages && k in db'.messages && db'.messages[k] == db.messages[k]
  {
    hide IsTenantId, Scoped;
    Isolation.LikeKeysStay(db, db', u);
  }

  /**
   * A step that is not the user's own and does not reach him changes the answers to his search
   * exactly when it replaces a row whose text matches and nothing stale matched before: then his
   * search fails from now on.
   */
  lemma ForeignStepsAndSearches(env: Env, s: State, ev: Event, extra: map<nat, Doc>, u: string, match': Matcher, query: string)
    requires Inv(s) && Processing.ProcessInv(env, s) && IndexIs(s.db, extra) && Allowed(s, ev) && IsTenantId(u)
    requires !Isolation.ActsFor(s, ev, u) && !Isolation.Reaches(s, ev, u)
    ensures SameAnswers(s.db, After(env, s, ev).db, match', u, query) <==>
            StaleHit(s.db, match', query) || !StepReplaces(env, s, ev, match', query)
  {
    Isolation.StepIsolates(env, s, ev, u);
    StepKeepsInv(env, s, ev);
    hide Allowed, After, StepReplaces, IndexIs, Isolation.SameShare, StaleHit, SameAnswers, Processing.ProcessInv;
    StaleAfterStep(env, s, ev, extra, match', query);
    var more: map<nat, Doc> :| IndexIs(After(env, s, ev).db, more);
    AnswersFollowStaleHits(s.db, After(env, s, ev).db, extra, more, match', u, query);
  }

  /** The guard of the steps that replace a matching row: a packet of a message id already there, and mail to oneself. */
  ghost predicate Rewrites(env: Env, s: State, ev: Event, match': Matcher, query: string)
    requires Allowed(s, ev)
  {
    match ev
    case Advance(i, _, _) =>
      var t := s.tasks[i];
      || (t.SaveInbox? && t.to == t.l.sender && match'(query, t.l.subject, t.l.body))
      || (t.Process? && RewritesRow(env, s.db, t, match', query))
    case DeliverAtOnce(i) =>
      var t := s.tasks[i];
      t.to == t.l.sender && match'(query, t.l.subject, t.l.body)
    case _ => false
  }

  predicate RewritesRow(env: Env, db: Db, t: Task, match': Matcher, query: string)
    requires t.Process?
  {
    t.at < |t.packets| && !t.saved &&
    match env.open(t.user, t.packets[t.at].rawData)
    case None => false
    case Some(m) => Key(t.user, m.id) in db.messages && Hits(match', query, DocOf(db.messages[Key(t.user, m.id)].msg))
  }

  /** The step is one of this letter. */
  ghost predicate StepsLetter(s: State, ev: Event, id: string)
    requires Allowed(s, ev)
  {
    (ev.Advance? || ev.DeliverAtOnce?) && Carries(s.tasks[ev.i], id)
  }

  lemma StepReplacesExactly(env: Env, s: State, ev: Event, match': Matcher, query: string)
    requires Inv(s) && Allowed(s, ev)
    requires forall id :: StepsLetter(s, ev, id) ==> LetterInv(s, id)
    ensures StepReplaces(env, s, ev, match', query) <==> Rewrites(env, s, ev, match', query)
  {
    hide Inv, Key, IsTenantId, RowsAre, MayStart, Store.IsBacklog, LetterInv;
    if ev.Advance? || ev.DeliverAtOnce? {
      var t := s.tasks[ev.i];
      if LetterOf(t).Some? {
        var l := LetterOf(t).value;
        assert StepsLetter(s, ev, l.msgId);
        LetterRows(s, ev.i, l);
      }
    }
  }

  /** Which of a letter's saves finds a row under its key. */
  lemma LetterRows(s: State, i: nat, l: Letter)
    requires i < |s.tasks| && LetterOf(s.tasks[i]) == Some(l) && LetterInv(s, l.msgId)
    ensures var t, db := s.tasks[i], s.db;
      && (t.SaveSent? || t.SaveFederated? ==> Key(l.sender, l.msgId) !in db.messages)
      && (t.SaveInbox? ==>
            && (Key(t.to, l.msgId) in db.messages <==> t.to == l.sender)
            && (t.to == l.sender ==> var m := db.messages[Key(t.to, l.msgId)].msg; m.subject == l.subject && m.body == l.body))
  {
    hide IsTenantId, Key;
    var t := s.tasks[i];
    assert Carries(t, l.msgId) && LetterOk(s.db, t);
    assert t.SaveInbox? ==> (HasRow(StageOf(t), l, t.to) <==> t.to == l.sender);
    assert t.SaveSent? || t.SaveFederated? ==> !HasRow(StageOf(t), l, l.sender);
  }

  /**
   * In every reachable state: another user's step changes a user's search exactly when it processes
   * a packet of a message id already stored, or delivers mail to oneself, the row's text matches,
   * and nothing stale matched before.
   */
  lemma SearchIsolationOverRuns(env: Env, evs: seq<Event>, ev: Event, u: string, match': Matcher, query: string)
    requires IsRun(env, INITIAL, evs) && IsTenantId(u)
    requires var s := End(env, INITIAL, evs);
      && Allowed(s, ev) && !Isolation.ActsFor(s, ev, u) && !Isolation.Reaches(s, ev, u)
      && forall id :: StepsLetter(s, ev, id) ==> NoPacketCarries(env, id)
    ensures var s := End(env, INITIAL, evs);
      SameAnswers(s.db, After(env, s, ev).db, match', u, query) <==>
      StaleHit(s.db, match', query) || !Rewrites(env, s, ev, match', query)
  {
    hide *;
    var s := End(env, INITIAL, evs);
    forall id | StepsLetter(s, ev, id)
      ensures LetterInv(s, id)
    {
      ReachableLetter(env, evs, id);
    }
    var extra := ReachableIndex(env, evs);
    ForeignStepsAndSearches(env, s, ev, extra, u, match', query);
    StepReplacesExactly(env, s, ev, match', query);
  }

  lemma ReachableIndex(env: Env, evs: seq<Event>) returns (extra: map<nat, Doc>)
    requires IsRun(env, INITIAL, evs)
    ensures var s := End(env, INITIAL, evs); Inv(s) && Processing.ProcessInv(env, s) && IndexIs(s.db, extra)
  {
    EmptyIndex();
    hide Inv, Processing.ProcessInv, IsRun, End, IndexIs, Valid;
    Processing.InitialIsOk(env);
    Processing.RunKeepsProcessInv(env, INITIAL, evs);
    MailboxIndexAgrees(env, evs);
    extra := Leftovers(EMPTY, RunOps(env, INITIAL, evs));
  }
}
