/** The SQLite tables behind pkg/store as values, and what each SQL statement does to them. */
module Tables {
  import opened Bytes
  import opened Like

  datatype Message = Message(
    id: string, folder: string, sender: string, recipient: string, subject: string, body: string,
    timestamp: int, isRead: bool, replyToId: string, threadId: string, status: string)

  /** A row of `messages`; the primary key is the message id, the rowid is hidden. */
  datatype Row = Row(rowid: nat, msg: Message)

  /** What the full-text index stores of a row. */
  datatype Doc = Doc(id: string, subject: string, body: string)

  datatype Pending = Pending(id: nat, userId: string, rawData: bytes, sender: string, receivedAt: int, processed: bool)

  datatype User = User(id: string, username: string, pubkey: string)

  /** `nextRowid` is one more than the greatest rowid in use, which is what SQLite hands out next. */
  datatype Db = Db(messages: map<string, Row>, index: map<nat, Doc>, nextRowid: nat, pending: seq<Pending>, users: seq<User>)

  const EMPTY := Db(map[], map[], 1, [], [])

  function DocOf(m: Message): Doc {
    Doc(m.id, m.subject, m.body)
  }

  // ---------- messages ----------

  /** SaveMessage fills in the thread: the message replied to, else the message itself. */
  function Filled(m: Message): Message {
    if m.threadId != "" then m
    else m.(threadId := if m.replyToId != "" then m.replyToId else m.id)
  }

  /**
   * INSERT OR REPLACE. The insert trigger indexes the new row; the row it replaces is deleted
   * without the delete trigger, which fires only under recursive triggers.
   */
  function Upsert(db: Db, m: Message): Db {
    db.(messages := db.messages[m.id := Row(db.nextRowid, m)],
        index := db.index[db.nextRowid := DocOf(m)],
        nextRowid := db.nextRowid + 1)
  }

  /** The 'delete' command of the index: removes the document if it is stored as given. */
  function Unindex(index: map<nat, Doc>, rowid: nat, doc: Doc): map<nat, Doc> {
    if rowid in index && index[rowid] == doc then index - {rowid} else index
  }

  /** UPDATE of one row by primary key, with the update trigger. */
  function Update(db: Db, m: Message): Db {
    if m.id !in db.messages then db
    else
      var row := db.messages[m.id];
      db.(messages := db.messages[m.id := Row(row.rowid, m)],
          index := Unindex(db.index, row.rowid, DocOf(row.msg))[row.rowid := DocOf(m)])
  }

  function SetRead(db: Db, id: string): Db {
    if id in db.messages then Update(db, db.messages[id].msg.(id := id, isRead := true)) else db
  }

  function Trash(db: Db, id: string): Db {
    if id in db.messages then Update(db, db.messages[id].msg.(id := id, folder := "trash")) else db
  }

  function SetStatus(db: Db, id: string, status: string): Db {
    if id in db.messages then Update(db, db.messages[id].msg.(id := id, status := status)) else db
  }

  /** SaveMessageForUser: the row's key is scoped, the thread is not. */
  function SaveFor(db: Db, user: string, m: Message): Db {
    Upsert(db, Filled(m).(id := Key(user, m.id)))
  }

  /** Each of the three updates changes one column of one row and nothing else the users see. */
  lemma UpdatesChangeOneColumn(db: Db, id: string, status: string)
    requires id in db.messages && db.messages[id].msg.id == id
    ensures var row := db.messages[id];
      && SetRead(db, id).messages == db.messages[id := row.(msg := row.msg.(isRead := true))]
      && Trash(db, id).messages == db.messages[id := row.(msg := row.msg.(folder := "trash"))]
      && SetStatus(db, id, status).messages == db.messages[id := row.(msg := row.msg.(status := status))]
    ensures forall db' :: db' in {SetRead(db, id), Trash(db, id), SetStatus(db, id, status)} ==>
      db'.pending == db.pending && db'.users == db.users && db'.nextRowid == db.nextRowid
  {
  }

  // ---------- pending packets ----------

  function AddPending(db: Db, user: string, data: bytes, sender: string, now: int): Db {
    db.(pending := db.pending + [Pending(|db.pending| + 1, user, data, sender, now, false)])
  }

  function MarkProcessed(db: Db, id: nat): Db {
    if 1 <= id <= |db.pending| then db.(pending := db.pending[id - 1 := db.pending[id - 1].(processed := true)]) else db
  }

  /** An arrival adds one packet at the end, unprocessed, with what was handed over; nothing else changes. */
  lemma AddPendingAddsOne(db: Db, user: string, data: bytes, sender: string, now: int)
    ensures AddPending(db, user, data, sender, now) ==
            Db(db.messages, db.index, db.nextRowid, db.pending + [Pending(|db.pending| + 1, user, data, sender, now, false)], db.users)
  {
  }

  /** Marking sets the flag of the packet with that id and leaves everything else as it is. */
  lemma MarkProcessedMarksOne(db: Db, id: nat)
    requires Valid(db)
    ensures var db' := MarkProcessed(db, id);
      && |db'.pending| == |db.pending|
      && (forall i :: 0 <= i < |db.pending| ==>
            db'.pending[i] == if db.pending[i].id == id then db.pending[i].(processed := true) else db.pending[i])
      && db'.messages == db.messages && db'.index == db.index && db'.nextRowid == db.nextRowid && db'.users == db.users
  {
  }

  // ---------- users ----------

  /** GetUserByPubkey: the first user with that address. */
  function UserByPubkey(users: seq<User>, pubkey: string): (r: Option<User>)
    ensures r.Some? ==> r.value in users && r.value.pubkey == pubkey
    ensures r.None? ==> forall u :: u in users ==> u.pubkey != pubkey
  {
    if users == [] then None
    else if users[0].pubkey == pubkey then Some(users[0])
    else UserByPubkey(users[1..], pubkey)
  }

  // ---------- well-formed tables ----------

  /** Keys are the stored ids, rowids are distinct and below the next one, packets are numbered from 1. */
  ghost predicate Valid(db: Db) {
    && (forall k :: k in db.messages ==> db.messages[k].msg.id == k && db.messages[k].rowid < db.nextRowid)
    && (forall k, l :: k in db.messages && l in db.messages && db.messages[k].rowid == db.messages[l].rowid ==> k == l)
    && (db.messages != map[] ==> exists k :: k in db.messages && db.messages[k].rowid == db.nextRowid - 1)
    && (forall i :: 0 <= i < |db.pending| ==> db.pending[i].id == i + 1)
  }

  lemma UpsertIsValid(db: Db, m: Message)
    requires Valid(db)
    ensures Valid(Upsert(db, m))
  {
    assert m.id in Upsert(db, m).messages;
  }

  lemma UpdateIsValid(db: Db, m: Message)
    requires Valid(db)
    ensures Valid(Update(db, m))
  {
    if m.id in db.messages {
      var db' := Update(db, m);
      var k :| k in db.messages && db.messages[k].rowid == db.nextRowid - 1;
      assert k in db'.messages && db'.messages[k].rowid == db.nextRowid - 1;
    }
  }

  lemma SetReadIsValid(db: Db, id: string)
    requires Valid(db)
    ensures Valid(SetRead(db, id))
  {
    hide Valid, Update;
    if id in db.messages {
      UpdateIsValid(db, db.messages[id].msg.(id := id, isRead := true));
    }
  }

  lemma TrashIsValid(db: Db, id: string)
    requires Valid(db)
    ensures Valid(Trash(db, id))
  {
    hide Valid, Update;
    if id in db.messages {
      UpdateIsValid(db, db.messages[id].msg.(id := id, folder := "trash"));
    }
  }

  lemma SetStatusIsValid(db: Db, id: string, status: string)
    requires Valid(db)
    ensures Valid(SetStatus(db, id, status))
  {
    hide Valid, Update;
    if id in db.messages {
      UpdateIsValid(db, db.messages[id].msg.(id := id, status := status));
    }
  }
}
