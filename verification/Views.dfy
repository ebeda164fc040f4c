/** Which rows a query of pkg/store finds: folders, searches, threads, and one user's share of the table. */
module Views {
  import opened Bytes
  import opened Like
  import opened Tables
  import opened Query
  import opened SearchIndex

  // ---------- whole-table views ----------

  function InFolder(db: Db, folder: string): set<string> {
    set k | k in db.messages && db.messages[k].msg.folder == folder
  }

  function UnreadIn(db: Db, folder: string): set<string> {
    set k | k in db.messages && db.messages[k].msg.folder == folder && !db.messages[k].msg.isRead
  }

  /** A query's tokens against the subject and body of an indexed document. */
  type Matcher = (string, string, string) -> bool

  function Hits(match': Matcher, query: string, d: Doc): bool {
    match'(query, d.subject, d.body)
  }

  /** Rows joined with a matching entry of the index. */
  function IndexHits(db: Db, match': Matcher, query: string): set<string> {
    set k | k in db.messages && db.messages[k].rowid in db.index && Hits(match', query, db.index[db.messages[k].rowid])
  }

  /** Rows that match when the table itself is scanned. */
  function ScanHits(db: Db, match': Matcher, query: string): set<string> {
    set k | k in db.messages && Hits(match', query, DocOf(db.messages[k].msg))
  }

  /** An entry that matches although its row is gone; the index cannot read its id any more. */
  predicate StaleHit(db: Db, match': Matcher, query: string) {
    exists r :: r in db.index && Hits(match', query, db.index[r]) && r !in (set k | k in db.messages :: db.messages[k].rowid)
  }

  /** Whatever was left behind, the join finds the rows that a scan finds; it trips over a leftover exactly when one matches. */
  lemma IndexedSearchIsAScan(db: Db, extra: map<nat, Doc>, match': Matcher, query: string)
    requires Valid(db) && IndexIs(db, extra)
    ensures IndexHits(db, match', query) == ScanHits(db, match', query)
    ensures forall k :: k in IndexHits(db, match', query) <==>
              k in db.messages && match'(query, db.messages[k].msg.subject, db.messages[k].msg.body)
    ensures StaleHit(db, match', query) <==> exists r :: r in extra && Hits(match', query, extra[r])
    ensures StaleHit(db, match', query) <==> exists r :: r in extra && match'(query, extra[r].subject, extra[r].body)
  {
    JoinIsAScan(db, extra, match', query);
  }

  lemma JoinIsAScan(db: Db, extra: map<nat, Doc>, match': Matcher, query: string)
    requires Valid(db) && IndexIs(db, extra)
    ensures IndexHits(db, match', query) == ScanHits(db, match', query)
    ensures StaleHit(db, match', query) <==> exists r :: r in extra && Hits(match', query, extra[r])
  {
    hide Hits, Valid;
    var rowids := set k | k in db.messages :: db.messages[k].rowid;
    forall r
      ensures r in rowids <==> IsLive(db, r)
    {
    }
    if StaleHit(db, match', query) {
      var r :| r in db.index && Hits(match', query, db.index[r]) && r !in rowids;
      assert r in extra && Hits(match', query, extra[r]);
    }
    if r :| r in extra && Hits(match', query, extra[r]) {
      assert r in db.index && r !in rowids;
    }
  }

  // ---------- threads ----------

  /** GetThread: the thread of the message with this id; None when there is none. */
  function ThreadKeys(db: Db, id: string): Option<set<string>> {
    if id !in db.messages then None
    else
      var stored := db.messages[id].msg.threadId;
      var thread := if stored == "" then id else stored;
      Some(set k | k in db.messages && db.messages[k].msg.threadId == thread)
  }

  // ---------- one user's rows ----------

  /** Every key is some tenant's. */
  ghost predicate Scoped(db: Db) {
    forall k :: k in db.messages ==> IsScopedKey(k)
  }

  ghost predicate IsScopedKey(k: string) {
    exists v, m :: IsTenantId(v) && k == Key(v, m)
  }

  /** The rows found by id LIKE 'user:%'. */
  function LikeKeys(db: Db, user: string): set<string> {
    set k | k in db.messages && Matches(Pattern(user), k)
  }

  function Owned(user: string, k: string): bool {
    user + ":" <= k
  }

  lemma ScopedKeyOwner(u: string, k: string)
    requires IsTenantId(u) && IsScopedKey(k)
    ensures Matches(Pattern(u), k) <==> Owned(u, k)
    ensures Owned(u, k) <==> k == Key(u, Strip(u, k))
  {
    var v, m :| IsTenantId(v) && k == Key(v, m);
    PatternIsolatesTenants(u, v, m);
    if Owned(u, k) {
      assert k == u + ":" + k[|u| + 1..];
      KeyIsInjective(u, k[|u| + 1..], v, m);
    }
    if u == v {
      assert k[..|u| + 1] == u + ":";
    }
  }

  /** In a table of tenants' keys the LIKE pattern finds exactly the user's own rows. */
  lemma LikeFindsOwnRows(db: Db, u: string)
    requires IsTenantId(u) && Scoped(db)
    ensures forall k :: k in LikeKeys(db, u) <==> k in db.messages && Owned(u, k)
    ensures forall m :: Key(u, m) in LikeKeys(db, u) <==> Key(u, m) in db.messages
  {
    hide Matches, IsScopedKey, IsTenantId;
    forall k | k in db.messages
      ensures Matches(Pattern(u), k) <==> Owned(u, k)
    {
      ScopedKeyOwner(u, k);
    }
    forall m
      ensures Owned(u, Key(u, m))
    {
      assert Key(u, m)[..|u| + 1] == u + ":";
    }
  }

  function FolderFor(db: Db, user: string, folder: string): set<string> {
    LikeKeys(db, user) * InFolder(db, folder)
  }

  function UnreadFor(db: Db, user: string, folder: string): set<string> {
    LikeKeys(db, user) * UnreadIn(db, folder)
  }

  function ThreadKeysFor(db: Db, user: string, id: string): Option<set<string>> {
    var scoped := Key(user, id);
    if scoped !in db.messages then None
    else
      var stored := db.messages[scoped].msg.threadId;
      var thread := if stored == "" then id else stored;
      Some(set k | k in LikeKeys(db, user) && db.messages[k].msg.threadId == thread)
  }

  /** The rows as they are returned, with the user prefix removed from the id. */
  function StripAll(user: string, rows: seq<Message>): (r: seq<Message>)
    ensures |r| == |rows|
  {
    seq(|rows|, i requires 0 <= i < |rows| => rows[i].(id := Strip(user, rows[i].id)))
  }

  function RescopeAll(user: string, rows: seq<Message>): (r: seq<Message>)
    ensures |r| == |rows|
  {
    seq(|rows|, i requires 0 <= i < |rows| => rows[i].(id := Key(user, rows[i].id)))
  }

  /** Stripping loses nothing: putting the prefix back gives the stored rows. */
  lemma StrippedRowsAreTheUsers(db: Db, u: string, keys: set<string>, rows: seq<Message>)
    requires IsTenantId(u) && Scoped(db) && keys <= LikeKeys(db, u) && AreRows(db.messages, keys, rows)
    ensures RescopeAll(u, StripAll(u, rows)) == rows
  {
    hide Matches, IsScopedKey, IsTenantId;
    forall i | 0 <= i < |rows|
      ensures rows[i].id == Key(u, Strip(u, rows[i].id))
    {
      assert rows[i].id in LikeKeys(db, u);
      ScopedKeyOwner(u, rows[i].id);
    }
  }

  // ---------- lists, counts and searches agree ----------

  function UnreadIndices(rows: seq<Message>): set<nat> {
    set i: nat | i < |rows| && !rows[i].isRead
  }

  /** No id twice, and newest or oldest first. */
  ghost predicate OnceByTime(rows: seq<Message>, newestFirst: bool) {
    forall i, j :: 0 <= i < j < |rows| ==>
      && rows[i].id != rows[j].id
      && if newestFirst then rows[i].timestamp >= rows[j].timestamp else rows[i].timestamp <= rows[j].timestamp
  }

  /** A listing holds a message exactly when it is one of the chosen rows, each once and in order. */
  lemma ListingIsTheRows(t: Table, keys: set<string>, descending: bool, rows: seq<Message>)
    requires Lists(t, keys, descending, rows)
    ensures forall m :: m in rows <==> m.id in keys && m.id in t && t[m.id].msg == m
    ensures OnceByTime(rows, descending)
  {
    forall m
      ensures m in rows <==> m.id in keys && m.id in t && t[m.id].msg == m
    {
      if m.id in keys && m.id in t && t[m.id].msg == m {
        ListsHolds(t, keys, descending, rows, m.id);
        var i :| 0 <= i < |rows| && rows[i].id == m.id;
        assert rows[i] == m;
      }
    }
  }

  /** A folder's listing holds a row exactly when it is stored in that folder, read or not. */
  lemma ListingIsTheFolder(db: Db, folder: string, rows: seq<Message>)
    requires Lists(db.messages, InFolder(db, folder), true, rows)
    ensures forall m :: m in rows <==> m.id in db.messages && db.messages[m.id].msg == m && m.folder == folder
    ensures OnceByTime(rows, true)
  {
    hide Lists;
    ListingIsTheRows(db.messages, InFolder(db, folder), true, rows);
  }

  /** A user's, when it is his besides: no row of another folder and no row of another user. */
  lemma ListingIsTheUsersFolder(db: Db, user: string, folder: string, rows: seq<Message>)
    requires IsTenantId(user) && Scoped(db) && Lists(db.messages, FolderFor(db, user, folder), true, rows)
    ensures forall m :: m in rows <==>
              m.id in db.messages && db.messages[m.id].msg == m && m.folder == folder && user + ":" <= m.id
    ensures OnceByTime(rows, true)
  {
    hide Lists, LikeKeys, Scoped, IsTenantId;
    LikeFindsOwnRows(db, user);
    ListingIsTheRows(db.messages, FolderFor(db, user, folder), true, rows);
  }

  /** A thread holds a message exactly when it is stored under the same thread. */
  lemma ListingIsTheThread(db: Db, id: string, rows: seq<Message>)
    requires id in db.messages && Lists(db.messages, ThreadKeys(db, id).value, false, rows)
    ensures forall m :: m in rows <==>
              && m.id in db.messages && db.messages[m.id].msg == m
              && m.threadId == (if db.messages[id].msg.threadId == "" then id else db.messages[id].msg.threadId)
    ensures OnceByTime(rows, false)
  {
    hide Lists;
    ListingIsTheRows(db.messages, ThreadKeys(db, id).value, false, rows);
  }

  lemma ListingIsTheUsersThread(db: Db, user: string, id: string, rows: seq<Message>)
    requires IsTenantId(user) && Scoped(db) && Key(user, id) in db.messages
    requires Lists(db.messages, ThreadKeysFor(db, user, id).value, false, rows)
    ensures forall m :: m in rows <==>
              && m.id in db.messages && db.messages[m.id].msg == m && user + ":" <= m.id
              && m.threadId == (if db.messages[Key(user, id)].msg.threadId == "" then id else db.messages[Key(user, id)].msg.threadId)
    ensures OnceByTime(rows, false)
  {
    hide Lists, LikeKeys, Scoped, IsTenantId, Key;
    LikeFindsOwnRows(db, user);
    ListingIsTheRows(db.messages, ThreadKeysFor(db, user, id).value, false, rows);
  }

  /**
   * What a user's search answers: only rows of his whose text matches, newest first, at most n; and
   * a matching row of his is left out only when n rows, none older, are there.
   */
  lemma SearchAnswersExactly(db: Db, extra: map<nat, Doc>, match': Matcher, user: string, query: string, n: nat, rows: seq<Message>)
    requires Valid(db) && IndexIs(db, extra) && IsTenantId(user) && Scoped(db)
    requires Newest(db.messages, LikeKeys(db, user) * IndexHits(db, match', query), n, rows)
    ensures forall m :: m in rows ==>
              m.id in db.messages && db.messages[m.id].msg == m && user + ":" <= m.id && match'(query, m.subject, m.body)
    ensures OnceByTime(rows, true) && |rows| <= n
    ensures forall k :: k in db.messages && user + ":" <= k ==>
              var m := db.messages[k].msg;
              match'(query, m.subject, m.body) && m !in rows ==>
                |rows| == n && forall i :: 0 <= i < |rows| ==> rows[i].timestamp >= m.timestamp
  {
    LikeFindsOwnRows(db, user);
    IndexedSearchIsAScan(db, extra, match', query);
    hide IndexIs, Valid, LikeKeys, IndexHits, Scoped, IsTenantId, StaleHit, ScanHits;
    var keys := LikeKeys(db, user) * IndexHits(db, match', query);
    forall m: Message | m.id in keys && m.id in db.messages && db.messages[m.id].msg == m && m !in rows
      ensures |rows| == n && forall i :: 0 <= i < |rows| ==> rows[i].timestamp >= m.timestamp
    {
      NotListed(db.messages, keys, rows, m);
      FewerThanKeys(db.messages, keys, rows, m.id);
    }
  }

  lemma NotListed(t: Table, keys: set<string>, rows: seq<Message>, m: Message)
    requires AreRows(t, keys, rows) && m.id in t && t[m.id].msg == m && m !in rows
    ensures m.id !in Ids(rows)
  {
    forall x | x in rows
      ensures x.id != m.id
    {
      var i :| 0 <= i < |rows| && rows[i] == x;
    }
  }

  /** Distinct rows that miss one of the keys are fewer than the keys. */
  lemma FewerThanKeys(t: Table, keys: set<string>, rows: seq<Message>, k: string)
    requires AreRows(t, keys, rows) && Distinct(rows) && k in keys && k !in Ids(rows)
    ensures |rows| < |keys|
  {
    IdsOfDistinct(rows);
    forall x | x in Ids(rows)
      ensures x in keys - {k}
    {
      var m :| m in rows && m.id == x;
      var i :| 0 <= i < |rows| && rows[i] == m;
    }
    SubsetIsSmaller(Ids(rows), keys - {k});
  }

  lemma SubsetIsSmaller(a: set<string>, b: set<string>)
    requires a <= b
    ensures |a| <= |b|
  {
    assert b == a + (b - a);
  }

  lemma {:induction false} IdsOfDistinct(rows: seq<Message>)
    requires Distinct(rows)
    ensures |Ids(rows)| == |rows|
  {
    if rows == [] {
      assert Ids(rows) == {};
    } else {
      var init, last := rows[..|rows| - 1], rows[|rows| - 1];
      assert rows == init + [last];
      IdsOfDistinct(init);
      IdsSnoc(init, last);
      AddOne(Ids(init), last.id);
    }
  }

  function UnreadIds(rows: seq<Message>): set<string> {
    set m | m in rows && !m.isRead :: m.id
  }

  lemma {:induction false} UnreadIndicesAndIds(rows: seq<Message>)
    requires Distinct(rows)
    ensures |UnreadIndices(rows)| == |UnreadIds(rows)|
  {
    if rows == [] {
      assert UnreadIndices(rows) == {} && UnreadIds(rows) == {};
    } else {
      hide UnreadIndices, UnreadIds;
      var init, last := rows[..|rows| - 1], rows[|rows| - 1];
      assert rows == init + [last];
      UnreadIndicesAndIds(init);
      UnreadSnoc(init, last);
      AddOne(UnreadIndices(init), |init|);
      AddOne(UnreadIds(init), last.id);
      assert UnreadIndices(init) + {} == UnreadIndices(init) && UnreadIds(init) + {} == UnreadIds(init);
    }
  }

  lemma AddOne<T>(s: set<T>, x: T)
    requires x !in s
    ensures |s + {x}| == |s| + 1
  {
  }

  lemma UnreadSnoc(init: seq<Message>, last: Message)
    requires Distinct(init + [last])
    ensures UnreadIndices(init + [last]) == UnreadIndices(init) + (if last.isRead then {} else {|init|})
    ensures UnreadIds(init + [last]) == UnreadIds(init) + (if last.isRead then {} else {last.id})
    ensures |init| !in UnreadIndices(init) && last.id !in UnreadIds(init)
  {
    var rows := init + [last];
    assert rows[|init|] == last && forall i :: 0 <= i < |init| ==> rows[i] == init[i];
    assert forall m :: m in rows <==> m in init || m == last;
    forall id
      ensures id in UnreadIds(rows) <==> id in UnreadIds(init) + (if last.isRead then {} else {last.id})
    {
      if id in UnreadIds(init) {
        var m :| m in init && !m.isRead && m.id == id;
        assert m in rows;
      }
      if !last.isRead && id == last.id { assert last in rows; }
    }
  }

  /** What is counted as unread is the unread part of what is listed, for one user and for the whole table. */
  lemma CountIsOfTheList(db: Db, keys: set<string>, rows: seq<Message>)
    requires Valid(db) && Lists(db.messages, keys, true, rows)
    ensures |set k | k in keys && k in db.messages && !db.messages[k].msg.isRead| == |UnreadIndices(rows)|
  {
    UnreadIndicesAndIds(rows);
    var unread := set k | k in keys && k in db.messages && !db.messages[k].msg.isRead;
    forall k
      ensures k in unread <==> k in UnreadIds(rows)
    {
      if k in unread {
        ListsHolds(db.messages, keys, true, rows, k);
        var i :| 0 <= i < |rows| && rows[i].id == k;
        assert rows[i] in rows;
      }
      if k in UnreadIds(rows) {
        var m :| m in rows && !m.isRead && m.id == k;
        var i :| 0 <= i < |rows| && rows[i] == m;
      }
    }
    assert unread == UnreadIds(rows);
  }

  /** The unread count of a user's folder is the number of unread rows in any listing of it. */
  lemma UnreadCountIsOfTheList(db: Db, user: string, folder: string, rows: seq<Message>)
    requires Valid(db) && Lists(db.messages, FolderFor(db, user, folder), true, rows)
    ensures |UnreadFor(db, user, folder)| == |UnreadIndices(rows)|
  {
    hide LikeKeys, Lists, Valid;
    var keys := FolderFor(db, user, folder);
    CountIsOfTheList(db, keys, rows);
    assert UnreadFor(db, user, folder) == set k | k in keys && k in db.messages && !db.messages[k].msg.isRead;
  }

  /** Every row a user's search finds is in the listing of its folder. */
  lemma SearchedRowsAreListed(db: Db, match': Matcher, user: string, query: string, n: nat, found: seq<Message>, i: nat,
                              rows: seq<Message>)
    requires Newest(db.messages, LikeKeys(db, user) * IndexHits(db, match', query), n, found) && i < |found|
    requires Lists(db.messages, FolderFor(db, user, found[i].folder), true, rows)
    ensures found[i] in rows
  {
    hide LikeKeys, IndexHits;
    var k := found[i].id;
    assert k in FolderFor(db, user, found[i].folder);
    ListsHolds(db.messages, FolderFor(db, user, found[i].folder), true, rows, k);
    var j :| 0 <= j < |rows| && rows[j].id == k;
    assert rows[j] == found[i];
  }
}
