/** The full-text index that triggers keep beside the message table (pkg/store/store.go, migrate and SearchMessages). */
module SearchIndex {
  import opened Bytes
  import opened Tables

  /** What can happen to the message table, and reopening the store, which rebuilds the index. */
  datatype Op = Insert(m: Message) | Read(id: string) | Delete(id: string) | Status(id: string, status: string) | Reopen

  /** 'rebuild': index every row of the table from scratch. */
  function Reindexed(db: Db): map<nat, Doc>
    requires Valid(db)
  {
    map k | k in db.messages :: db.messages[k].rowid := DocOf(db.messages[k].msg)
  }

  function Apply(db: Db, op: Op): Db
    requires Valid(db)
  {
    match op
    case Insert(m) => Upsert(db, m)
    case Read(id) => SetRead(db, id)
    case Delete(id) => Trash(db, id)
    case Status(id, status) => SetStatus(db, id, status)
    case Reopen => db.(index := Reindexed(db))
  }

  lemma ApplyIsValid(db: Db, op: Op)
    requires Valid(db)
    ensures Valid(Apply(db, op))
  {
    hide Valid, Upsert, SetRead, Trash, SetStatus;
    match op {
      case Insert(m) => UpsertIsValid(db, m);
      case Read(id) => SetReadIsValid(db, id);
      case Delete(id) => TrashIsValid(db, id);
      case Status(id, status) => SetStatusIsValid(db, id, status);
      case Reopen => ReopenIsValid(db);
    }
  }

  lemma ReopenIsValid(db: Db)
    requires Valid(db)
    ensures Valid(db.(index := Reindexed(db)))
  {
    hide Reindexed;
  }

  function Run(db: Db, ops: seq<Op>): (db': Db)
    requires Valid(db)
    ensures Valid(db')
  {
    if ops == [] then db
    else
      var mid := Run(db, ops[..|ops| - 1]);
      ApplyIsValid(mid, ops[|ops| - 1]);
      Apply(mid, ops[|ops| - 1])
  }

  /** The index entry that an insert leaves behind when it replaces a row. */
  function LeftBehind(db: Db, op: Op): map<nat, Doc> {
    if op.Insert? && op.m.id in db.messages
    then map[db.messages[op.m.id].rowid := DocOf(db.messages[op.m.id].msg)]
    else map[]
  }

  /** Everything left behind since the store was last opened. */
  function Leftovers(db: Db, ops: seq<Op>): map<nat, Doc>
    requires Valid(db)
  {
    if ops == [] then map[]
    else
      var init, last := ops[..|ops| - 1], ops[|ops| - 1];
      if last.Reopen? then map[] else Leftovers(db, init) + LeftBehind(Run(db, init), last)
  }

  ghost predicate IsLive(db: Db, rowid: nat) {
    exists k :: k in db.messages && db.messages[k].rowid == rowid
  }

  /** Index entries: those of the live rows, and `extra` for rowids that are no longer live. */
  ghost predicate IndexIs(db: Db, extra: map<nat, Doc>) {
    && (forall k :: k in db.messages ==>
          db.messages[k].rowid in db.index && db.index[db.messages[k].rowid] == DocOf(db.messages[k].msg))
    && (forall r :: r in db.index && !IsLive(db, r) ==> r in extra && extra[r] == db.index[r])
    && (forall r :: r in extra ==> r in db.index && !IsLive(db, r) && extra[r] == db.index[r] && r < db.nextRowid)
  }

  lemma ReindexedHoldsLiveRows(db: Db)
    requires Valid(db)
    ensures forall r :: r in Reindexed(db) <==> IsLive(db, r)
    ensures forall k :: k in db.messages ==>
              db.messages[k].rowid in Reindexed(db) && Reindexed(db)[db.messages[k].rowid] == DocOf(db.messages[k].msg)
  {
    var scratch := Reindexed(db);
    forall k | k in db.messages
      ensures db.messages[k].rowid in scratch && scratch[db.messages[k].rowid] == DocOf(db.messages[k].msg)
    {
    }
  }

  lemma IndexIsReindexedPlus(db: Db, extra: map<nat, Doc>)
    requires Valid(db) && IndexIs(db, extra)
    ensures db.index == Reindexed(db) + extra
    ensures Reindexed(db).Keys !! extra.Keys
    ensures db.index == Reindexed(db) <==> extra == map[]
  {
    hide Reindexed, Valid;
    ReindexedHoldsLiveRows(db);
    var scratch := Reindexed(db);
    forall r | r in db.index
      ensures if r in scratch then db.index[r] == scratch[r] && r !in extra else r in extra && db.index[r] == extra[r]
    {
      if IsLive(db, r) {
        var k :| k in db.messages && db.messages[k].rowid == r;
      }
    }
    forall r | r in scratch
      ensures r in db.index && r !in extra
    {
      var k :| k in db.messages && db.messages[k].rowid == r;
    }
    assert db.index.Keys == scratch.Keys + extra.Keys;
    if extra != map[] {
      var r :| r in extra;
      assert r in db.index && r !in scratch;
    }
  }

  lemma LiveAfterInsert(db: Db, m: Message, r: nat)
    requires Valid(db)
    ensures IsLive(Upsert(db, m), r) <==>
            r == db.nextRowid || (IsLive(db, r) && !(m.id in db.messages && db.messages[m.id].rowid == r))
    ensures IsLive(db, r) ==> r < db.nextRowid
  {
    var db' := Upsert(db, m);
    if r == db.nextRowid {
      assert m.id in db'.messages && db'.messages[m.id].rowid == r;
    }
    if IsLive(db, r) {
      var k :| k in db.messages && db.messages[k].rowid == r;
      if k != m.id {
        assert k in db'.messages && db'.messages[k].rowid == r;
      }
    }
    if IsLive(db', r) && r != db.nextRowid {
      var k :| k in db'.messages && db'.messages[k].rowid == r;
      assert k in db.messages && db.messages[k].rowid == r;
    }
  }

  lemma {:induction false} InsertKeepsIndex(db: Db, m: Message, extra: map<nat, Doc>)
    requires Valid(db) && IndexIs(db, extra)
    ensures IndexIs(Upsert(db, m), extra + LeftBehind(db, Insert(m)))
  {
    hide IsLive;
    var db' := Upsert(db, m);
    var extra' := extra + LeftBehind(db, Insert(m));
    forall r | r in db'.index && !IsLive(db', r)
      ensures r in extra' && extra'[r] == db'.index[r]
    {
      LiveAfterInsert(db, m, r);
    }
    if m.id in db.messages {
      LiveRow(db, m.id);
    }
    forall r | r in extra'
      ensures r in db'.index && !IsLive(db', r) && extra'[r] == db'.index[r] && r < db'.nextRowid
    {
      LiveAfterInsert(db, m, r);
    }
  }

  lemma LiveRow(db: Db, k: string)
    requires k in db.messages
    ensures IsLive(db, db.messages[k].rowid)
  {
  }

  lemma UpdateKeepsIndex(db: Db, m: Message, extra: map<nat, Doc>)
    requires Valid(db) && IndexIs(db, extra)
    ensures IndexIs(Update(db, m), extra)
  {
    if m.id in db.messages {
      var db' := Update(db, m);
      forall k | k in db'.messages
        ensures db'.messages[k].rowid in db'.index && db'.index[db'.messages[k].rowid] == DocOf(db'.messages[k].msg)
      {
      }
      SameLiveRows(db, m);
    }
  }

  lemma SameLiveRows(db: Db, m: Message)
    requires m.id in db.messages
    ensures forall r :: IsLive(Update(db, m), r) <==> IsLive(db, r)
  {
    var db' := Update(db, m);
    forall r
      ensures IsLive(db', r) <==> IsLive(db, r)
    {
      if IsLive(db, r) {
        var k :| k in db.messages && db.messages[k].rowid == r;
        assert k in db'.messages && db'.messages[k].rowid == r;
      }
      if IsLive(db', r) {
        var k :| k in db'.messages && db'.messages[k].rowid == r;
        assert k in db.messages && db.messages[k].rowid == r;
      }
    }
  }

  lemma {:induction false} ReopenKeepsIndex(db: Db)
    requires Valid(db)
    ensures IndexIs(db.(index := Reindexed(db)), map[])
  {
    var db' := db.(index := Reindexed(db));
    forall r | r in db'.index
      ensures IsLive(db', r)
    {
      var k :| k in db.messages && db.messages[k].rowid == r;
      assert k in db'.messages;
    }
  }

  lemma {:induction false} IndexOverARun(db: Db, ops: seq<Op>)
    requires Valid(db) && IndexIs(db, map[])
    ensures IndexIs(Run(db, ops), Leftovers(db, ops))
  {
    if ops != [] {
      var init, op := ops[..|ops| - 1], ops[|ops| - 1];
      var mid := Run(db, init);
      IndexOverARun(db, init);
      StepKeepsIndex(mid, op, Leftovers(db, init));
    }
  }

  lemma StepKeepsIndex(db: Db, op: Op, extra: map<nat, Doc>)
    requires Valid(db) && IndexIs(db, extra)
    ensures IndexIs(Apply(db, op), if op.Reopen? then map[] else extra + LeftBehind(db, op))
  {
    hide IndexIs, Valid;
    assert !op.Insert? ==> extra + LeftBehind(db, op) == extra;
    match op {
      case Insert(m) => InsertKeepsIndex(db, m, extra);
      case Read(id) => if id in db.messages { UpdateKeepsIndex(db, db.messages[id].msg.(id := id, isRead := true), extra); }
      case Delete(id) => if id in db.messages { UpdateKeepsIndex(db, db.messages[id].msg.(id := id, folder := "trash"), extra); }
      case Status(id, status) => if id in db.messages { UpdateKeepsIndex(db, db.messages[id].msg.(id := id, status := status), extra); }
      case Reopen => ReopenKeepsIndex(db);
    }
  }

  /**
   * Over any run of inserts, updates and reopenings the index is that of the table indexed from
   * scratch plus one entry, for a rowid no longer in use, per replacement since the last opening;
   * so it agrees with the table exactly when nothing was replaced since.
   */
  lemma {:induction false} IndexAgreement(ops: seq<Op>)
    ensures var db := Run(EMPTY, ops);
            && db.index == Reindexed(db) + Leftovers(EMPTY, ops)
            && Reindexed(db).Keys !! Leftovers(EMPTY, ops).Keys
            && (db.index == Reindexed(db) <==> Leftovers(EMPTY, ops) == map[])
  {
    hide IndexIs;
    assert IndexIs(EMPTY, map[]) by {
      EmptyIndex();
    }
    IndexOverARun(EMPTY, ops);
    IndexIsReindexedPlus(Run(EMPTY, ops), Leftovers(EMPTY, ops));
  }

  lemma EmptyIndex()
    ensures Valid(EMPTY) && IndexIs(EMPTY, map[])
  {
  }

  lemma {:induction false} RunConcat(db: Db, a: seq<Op>, b: seq<Op>)
    requires Valid(db)
    ensures Run(db, a + b) == Run(Run(db, a), b)
  {
    hide Apply, Valid;
    if b == [] {
      assert a + b == a;
    } else {
      var init := b[..|b| - 1];
      RunConcat(db, a, init);
      assert (a + b)[..|a + b| - 1] == a + init;
    }
  }
}
