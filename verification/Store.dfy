/** pkg/store: the store object. Each method is one or two SQL statements on the tables. */
module Store {
  import opened Bytes
  import opened Like
  import opened Tables
  import opened Query
  import opened Views
  import SearchIndex

  datatype SearchError = MissingContentRow

  /** A limit that is not positive means 50. */
  function Limit(limit: int): nat {
    if limit <= 0 then 50 else limit
  }

  /**
   * What a user's search may answer: an error when an index entry matches whose row is gone,
   * whoever's it was, and otherwise the newest of the user's matching rows with the prefix removed.
   */
  ghost predicate MayAnswer(db: Db, match': Matcher, user: string, query: string, limit: int,
                            r: Result<seq<Message>, SearchError>)
  {
    if StaleHit(db, match', query) then r == Err(MissingContentRow)
    else
      && r.Ok?
      && exists rows :: && Newest(db.messages, LikeKeys(db, user) * IndexHits(db, match', query), Limit(limit), rows)
                        && r.value == StripAll(user, rows)
  }

  class Store {
    var db: Db

    /** Open on a new file. */
    constructor ()
      ensures db == EMPTY && Valid(db)
    {
      db := EMPTY;
    }

    /** Open on an existing file rebuilds the index and touches nothing else. */
    method Reopen()
      requires Valid(db)
      modifies this
      ensures db == old(db).(index := SearchIndex.Reindexed(old(db))) && Valid(db)
    {
      db := db.(index := SearchIndex.Reindexed(db));
    }

    /** The caller's message has its thread filled in; the stored row is that message. */
    method SaveMessage(m: Message) returns (saved: Message)
      requires Valid(db)
      modifies this
      ensures saved == Filled(m)
      ensures saved.threadId == if m.threadId != "" then m.threadId else if m.replyToId != "" then m.replyToId else m.id
      ensures db == Upsert(old(db), saved) && Valid(db)
    {
      saved := m;
      if saved.threadId == "" && saved.replyToId != "" {
        saved := saved.(threadId := saved.replyToId);
      }
      if saved.threadId == "" {
        saved := saved.(threadId := saved.id);
      }
      UpsertIsValid(db, saved);
      db := Upsert(db, saved);
    }

    method SaveMessageForUser(user: string, m: Message) returns (saved: Message)
      requires Valid(db)
      modifies this
      ensures saved == Filled(m)
      ensures db == SaveFor(old(db), user, m) && Valid(db)
    {
      saved := m;
      if saved.threadId == "" && saved.replyToId != "" {
        saved := saved.(threadId := saved.replyToId);
      }
      if saved.threadId == "" {
        saved := saved.(threadId := saved.id);
      }
      UpsertIsValid(db, saved.(id := Key(user, saved.id)));
      db := Upsert(db, saved.(id := Key(user, saved.id)));
    }

    /** The row as stored: for a user-scoped key the id keeps its prefix. */
    method GetMessage(id: string) returns (r: Option<Message>)
      requires Valid(db)
      ensures r.Some? <==> id in db.messages
      ensures r.Some? ==> r.value == db.messages[id].msg && r.value.id == id
    {
      r := if id in db.messages then Some(db.messages[id].msg) else None;
    }

    method HasMessage(id: string) returns (has: bool)
      ensures has <==> id in db.messages
    {
      var count := |set k | k in db.messages && k == id|;
      has := count > 0;
      if id in db.messages {
        assert (set k | k in db.messages && k == id) == {id};
      } else {
        assert (set k | k in db.messages && k == id) == {};
      }
    }

    method MarkRead(id: string)
      requires Valid(db)
      modifies this
      ensures db == SetRead(old(db), id) && Valid(db)
      ensures if id in old(db).messages
        then db.messages == old(db).messages[id := old(db).messages[id].(msg := old(db).messages[id].msg.(isRead := true))]
        else db == old(db)
    {
      hide Update, Valid;
      if id in db.messages {
        ValidKey(db, id);
        UpdatesChangeOneColumn(db, id, "");
      }
      SetReadIsValid(db, id);
      db := SetRead(db, id);
    }

    method DeleteMessage(id: string)
      requires Valid(db)
      modifies this
      ensures db == Trash(old(db), id) && Valid(db)
      ensures if id in old(db).messages
        then db.messages == old(db).messages[id := old(db).messages[id].(msg := old(db).messages[id].msg.(folder := "trash"))]
        else db == old(db)
    {
      hide Update, Valid;
      if id in db.messages {
        ValidKey(db, id);
        UpdatesChangeOneColumn(db, id, "");
      }
      TrashIsValid(db, id);
      db := Trash(db, id);
    }

    method UpdateMessageStatus(id: string, status: string)
      requires Valid(db)
      modifies this
      ensures db == SetStatus(old(db), id, status) && Valid(db)
      ensures if id in old(db).messages
        then db.messages == old(db).messages[id := old(db).messages[id].(msg := old(db).messages[id].msg.(status := status))]
        else db == old(db)
    {
      hide Update, Valid;
      if id in db.messages {
        ValidKey(db, id);
        UpdatesChangeOneColumn(db, id, status);
      }
      SetStatusIsValid(db, id, status);
      db := SetStatus(db, id, status);
    }

    method UpdateMessageStatusForUser(user: string, id: string, status: string)
      requires Valid(db)
      modifies this
      ensures db == SetStatus(old(db), Key(user, id), status) && Valid(db)
    {
      UpdateMessageStatus(user + ":" + id, status);
    }

    method SavePendingPacket(user: string, data: bytes, sender: string, now: int)
      requires Valid(db)
      modifies this
      ensures db == AddPending(old(db), user, data, sender, now) && Valid(db)
      ensures db.pending == old(db.pending) + [Pending(|old(db.pending)| + 1, user, data, sender, now, false)]
      ensures db.messages == old(db.messages) && db.index == old(db.index) && db.users == old(db.users)
    {
      AddPendingAddsOne(db, user, data, sender, now);
      db := AddPending(db, user, data, sender, now);
    }

    /** The user's unprocessed packets, oldest first. */
    method GetPendingPackets(user: string) returns (packets: seq<Pending>)
      requires Valid(db)
      ensures IsBacklog(db, user, packets)
      ensures forall p :: p in packets <==> p in db.pending && p.userId == user && !p.processed
      ensures forall i, j :: 0 <= i < j < |packets| ==> packets[i].receivedAt <= packets[j].receivedAt && packets[i] != packets[j]
    {
      packets := [];
      for i := 0 to |db.pending|
        invariant IsBacklog(db.(pending := db.pending[..i]), user, packets)
      {
        hide IsBacklog, Inserted, Valid;
        var p := db.pending[i];
        NextPacket(db, i);
        BacklogGrows(db, db.pending[..i], user, packets, p);
        if p.userId == user && !p.processed {
          packets := Inserted(packets, p);
        }
      }
      assert db.pending[..|db.pending|] == db.pending;
    }

    method MarkPacketProcessed(id: nat)
      requires Valid(db)
      modifies this
      ensures db == MarkProcessed(old(db), id) && Valid(db)
      ensures |db.pending| == |old(db.pending)|
      ensures forall i :: 0 <= i < |db.pending| ==>
        db.pending[i] == (if old(db.pending)[i].id == id then old(db.pending)[i].(processed := true) else old(db.pending)[i])
      ensures db.messages == old(db.messages) && db.index == old(db.index) && db.users == old(db.users)
    {
      MarkProcessedMarksOne(db, id);
      db := MarkProcessed(db, id);
    }

    method GetUserByPubkey(pubkey: string) returns (r: Option<User>)
      ensures r == UserByPubkey(db.users, pubkey)
    {
      var i := 0;
      while i < |db.users|
        invariant 0 <= i <= |db.users|
        invariant UserByPubkey(db.users, pubkey) == UserByPubkey(db.users[i..], pubkey)
      {
        if db.users[i].pubkey == pubkey {
          return Some(db.users[i]);
        }
        i := i + 1;
      }
      return None;
    }

    method ListMessages(folder: string) returns (msgs: seq<Message>)
      requires Valid(db)
      ensures Lists(db.messages, InFolder(db, folder), true, msgs)
      ensures forall m :: m in msgs <==> m.id in db.messages && db.messages[m.id].msg == m && m.folder == folder
      ensures OnceByTime(msgs, true)
    {
      msgs := SelectOrdered(db.messages, InFolder(db, folder), true);
      ListingIsTheFolder(db, folder, msgs);
    }

    method CountUnread(folder: string) returns (n: nat)
      ensures n == |UnreadIn(db, folder)|
    {
      n := |UnreadIn(db, folder)|;
    }

    method SearchMessages(match': Matcher, query: string, limit: int) returns (r: Result<seq<Message>, SearchError>)
      requires Valid(db)
      ensures r.Err? <==> StaleHit(db, match', query)
      ensures r.Ok? ==> Newest(db.messages, IndexHits(db, match', query), if limit <= 0 then 50 else limit, r.value)
    {
      if StaleHit(db, match', query) {
        return Err(MissingContentRow);
      }
      var msgs := SelectNewest(db.messages, IndexHits(db, match', query), Limit(limit));
      return Ok(msgs);
    }

    method GetThread(id: string) returns (r: Option<seq<Message>>)
      requires Valid(db)
      ensures r.Some? <==> id in db.messages
      ensures r.Some? ==> Lists(db.messages, ThreadKeys(db, id).value, false, r.value)
      ensures r.Some? ==>
        var thread := if db.messages[id].msg.threadId == "" then id else db.messages[id].msg.threadId;
        forall m :: m in r.value <==> m.id in db.messages && db.messages[m.id].msg == m && m.threadId == thread
      ensures r.Some? ==> OnceByTime(r.value, false)
    {
      var keys := ThreadKeys(db, id);
      if keys.None? {
        return None;
      }
      var msgs := SelectOrdered(db.messages, keys.value, false);
      ListingIsTheThread(db, id, msgs);
      return Some(msgs);
    }

    /** The scan loop shared by the per-user queries: each row's id loses its prefix. */
    method StripRows(user: string, rows: seq<Message>) returns (msgs: seq<Message>)
      ensures msgs == StripAll(user, rows)
    {
      msgs := [];
      for i := 0 to |rows|
        invariant msgs == StripAll(user, rows)[..i]
      {
        var m := rows[i];
        if user + ":" <= m.id {
          m := m.(id := m.id[|user| + 1..]);
        }
        assert m == StripAll(user, rows)[i];
        msgs := msgs + [m];
      }
    }

    method ListMessagesForUser(user: string, folder: string) returns (msgs: seq<Message>, ghost rows: seq<Message>)
      requires Valid(db)
      ensures Lists(db.messages, FolderFor(db, user, folder), true, rows) && msgs == StripAll(user, rows)
      ensures IsTenantId(user) && Scoped(db) ==> RescopeAll(user, msgs) == rows
      ensures IsTenantId(user) && Scoped(db) ==>
        forall m :: m in RescopeAll(user, msgs) <==>
          m.id in db.messages && db.messages[m.id].msg == m && m.folder == folder && user + ":" <= m.id
      ensures IsTenantId(user) && Scoped(db) ==> OnceByTime(RescopeAll(user, msgs), true)
    {
      var found := SelectOrdered(db.messages, FolderFor(db, user, folder), true);
      msgs := StripRows(user, found);
      rows := found;
      if IsTenantId(user) && Scoped(db) {
        ListingIsTheUsersFolder(db, user, folder, rows);
        StrippedRowsAreTheUsers(db, user, FolderFor(db, user, folder), found);
      }
    }

    method CountUnreadForUser(user: string, folder: string) returns (n: nat)
      requires Valid(db)
      ensures n == |UnreadFor(db, user, folder)|
      ensures forall rows :: Lists(db.messages, FolderFor(db, user, folder), true, rows) ==> n == |UnreadIndices(rows)|
    {
      n := |UnreadFor(db, user, folder)|;
      forall rows | Lists(db.messages, FolderFor(db, user, folder), true, rows)
        ensures n == |UnreadIndices(rows)|
      {
        UnreadCountIsOfTheList(db, user, folder, rows);
      }
    }

    method SearchMessagesForUser(match': Matcher, user: string, query: string, limit: int)
      returns (r: Result<seq<Message>, SearchError>, ghost rows: seq<Message>)
      requires Valid(db)
      ensures MayAnswer(db, match', user, query, limit, r)
      ensures r.Ok? ==> && Newest(db.messages, LikeKeys(db, user) * IndexHits(db, match', query), if limit <= 0 then 50 else limit, rows)
                        && r.value == StripAll(user, rows)
      ensures r.Ok? && IsTenantId(user) && Scoped(db) ==> RescopeAll(user, r.value) == rows
    {
      rows := [];
      if StaleHit(db, match', query) {
        return Err(MissingContentRow), rows;
      }
      var keys := LikeKeys(db, user) * IndexHits(db, match', query);
      var found := SelectNewest(db.messages, keys, Limit(limit));
      var msgs := StripRows(user, found);
      if IsTenantId(user) && Scoped(db) {
        StrippedRowsAreTheUsers(db, user, keys, found);
      }
      return Ok(msgs), found;
    }

    method GetThreadForUser(user: string, id: string) returns (r: Option<seq<Message>>, ghost rows: seq<Message>)
      requires Valid(db)
      ensures r.Some? <==> user + ":" + id in db.messages
      ensures r.Some? ==> && Lists(db.messages, ThreadKeysFor(db, user, id).value, false, rows)
                          && r.value == StripAll(user, rows)
      ensures r.Some? && IsTenantId(user) && Scoped(db) ==>
        && RescopeAll(user, r.value) == rows && OnceByTime(RescopeAll(user, r.value), false)
        && var stored := db.messages[user + ":" + id].msg.threadId;
           forall m :: m in RescopeAll(user, r.value) <==>
             && m.id in db.messages && db.messages[m.id].msg == m && user + ":" <= m.id
             && m.threadId == (if stored == "" then id else stored)
    {
      rows := [];
      var keys := ThreadKeysFor(db, user, id);
      if keys.None? {
        return None, rows;
      }
      var found := SelectOrdered(db.messages, keys.value, false);
      var msgs := StripRows(user, found);
      if IsTenantId(user) && Scoped(db) {
        StrippedRowsAreTheUsers(db, user, keys.value, found);
        ListingIsTheUsersThread(db, user, id, found);
      }
      return Some(msgs), found;
    }
  }

  lemma ValidKey(db: Db, id: string)
    requires Valid(db) && id in db.messages
    ensures db.messages[id].msg.id == id
  {
  }

  // ---------- the backlog query ----------

  /** The user's unprocessed packets, each once, by age; equal ages in some order. */
  ghost predicate IsBacklog(db: Db, user: string, packets: seq<Pending>) {
    && (forall i :: 0 <= i < |packets| ==> packets[i] in db.pending && packets[i].userId == user && !packets[i].processed)
    && (forall p :: p in db.pending && p.userId == user && !p.processed ==> p in packets)
    && ByAge(packets)
  }

  function Inserted(packets: seq<Pending>, p: Pending): (r: seq<Pending>)
    ensures forall q :: q in r <==> q in packets || q == p
  {
    if packets == [] then [p]
    else if packets[|packets| - 1].receivedAt <= p.receivedAt then packets + [p]
    else Inserted(packets[..|packets| - 1], p) + [packets[|packets| - 1]]
  }

  /** Oldest first and without repetition. */
  ghost predicate ByAge(packets: seq<Pending>) {
    forall i, j :: 0 <= i < j < |packets| ==> packets[i].receivedAt <= packets[j].receivedAt && packets[i] != packets[j]
  }

  lemma {:induction false} InsertedByAge(packets: seq<Pending>, p: Pending)
    requires ByAge(packets) && p !in packets
    ensures ByAge(Inserted(packets, p))
  {
    if packets != [] && packets[|packets| - 1].receivedAt > p.receivedAt {
      var init, last := packets[..|packets| - 1], packets[|packets| - 1];
      InsertedByAge(init, p);
      assert packets == init + [last];
      forall q | q in Inserted(init, p)
        ensures q.receivedAt <= last.receivedAt && q != last
      {
        if q in init {
          var j :| 0 <= j < |init| && init[j] == q;
          assert packets[j] == q;
        }
      }
      YoungestLast(Inserted(init, p), last);
    }
  }

  lemma YoungestLast(packets: seq<Pending>, last: Pending)
    requires ByAge(packets)
    requires forall q :: q in packets ==> q.receivedAt <= last.receivedAt && q != last
    ensures ByAge(packets + [last])
  {
    forall i | 0 <= i < |packets|
      ensures packets[i].receivedAt <= last.receivedAt && packets[i] != last
    {
      assert packets[i] in packets;
    }
  }

  lemma InsertByAge(before: seq<Pending>, user: string, packets: seq<Pending>, p: Pending)
    requires p.userId == user && !p.processed
    requires ByAge(packets) && p !in before
    requires forall i :: 0 <= i < |packets| ==> packets[i] in before && packets[i].userId == user && !packets[i].processed
    ensures ByAge(Inserted(packets, p))
    ensures forall i :: 0 <= i < |Inserted(packets, p)| ==>
              var q := Inserted(packets, p)[i]; q in before + [p] && q.userId == user && !q.processed
  {
    InsertedByAge(packets, p);
    forall i | 0 <= i < |Inserted(packets, p)|
      ensures var q := Inserted(packets, p)[i]; q in before + [p] && q.userId == user && !q.processed
    {
      var q := Inserted(packets, p)[i];
      assert q in Inserted(packets, p);
    }
  }

  lemma NextPacket(db: Db, i: nat)
    requires Valid(db) && i < |db.pending|
    ensures db.pending[i] !in db.pending[..i] && db.pending[..i + 1] == db.pending[..i] + [db.pending[i]]
  {
    assert forall j :: 0 <= j < i ==> db.pending[..i][j].id == j + 1;
  }

  lemma BacklogGrows(db: Db, before: seq<Pending>, user: string, packets: seq<Pending>, p: Pending)
    requires IsBacklog(db.(pending := before), user, packets) && p !in before
    ensures IsBacklog(db.(pending := before + [p]), user, if p.userId == user && !p.processed then Inserted(packets, p) else packets)
  {
    hide ByAge, Inserted;
    if p.userId == user && !p.processed {
      InsertByAge(before, user, packets, p);
    }
  }
}
