/** Threads against the reply graph (pkg/store/store.go, SaveMessage and GetThread). */
module Threads {
  import opened Bytes
  import opened Tables
  import opened Views

  /** The message replied to, or the message itself. */
  function ParentOrSelf(m: Message): string {
    if m.replyToId != "" then m.replyToId else m.id
  }

  /** The same for an id; an id without a message stands for itself. */
  function RootOf(db: Db, id: string): string {
    if id in db.messages then ParentOrSelf(db.messages[id].msg) else id
  }

  /** Threads as SaveMessage fills them in; no caller sets one itself. */
  ghost predicate Threaded(db: Db) {
    forall k :: k in db.messages ==> db.messages[k].msg.threadId == ParentOrSelf(db.messages[k].msg)
  }

  /** Every way a message table comes about keeps its threads filled in. */
  lemma StoreKeepsThreads(db: Db, m: Message, id: string, status: string)
    requires Valid(db) && Threaded(db) && m.threadId == ""
    ensures Threaded(Upsert(db, Filled(m)))
    ensures Threaded(SetRead(db, id)) && Threaded(Trash(db, id)) && Threaded(SetStatus(db, id, status))
  {
  }

  /** An edge of the reply graph, between a stored message and the id it replies to, seen from either end. */
  ghost predicate Linked(db: Db, a: string, b: string) {
    || (a in db.messages && db.messages[a].msg.replyToId == b && b != "")
    || (b in db.messages && db.messages[b].msg.replyToId == a && a != "")
  }

  ghost predicate IsPath(db: Db, path: seq<string>) {
    path != [] && forall i :: 0 <= i < |path| - 1 ==> Linked(db, path[i], path[i + 1])
  }

  ghost predicate Connected(db: Db, a: string, b: string) {
    exists path: seq<string> :: IsPath(db, path) && path[0] == a && path[|path| - 1] == b
  }

  ghost predicate InThread(db: Db, a: string, b: string) {
    ThreadKeys(db, a).Some? && b in ThreadKeys(db, a).value
  }

  /** GetThread collects exactly the messages with the same parent-or-self. */
  lemma ThreadIsSameRoot(db: Db, a: string, b: string)
    requires Valid(db) && Threaded(db) && a in db.messages && b in db.messages
    ensures InThread(db, a, b) <==> RootOf(db, a) == RootOf(db, b)
  {
  }

  /** No reply to a reply: what a stored message replies to is not stored, is no reply, or replies to itself. */
  ghost predicate RepliesTargetRoots(db: Db) {
    forall k :: k in db.messages ==> RootOf(db, RootOf(db, k)) == RootOf(db, k)
  }

  lemma LinkedShareRoot(db: Db, a: string, b: string)
    requires Valid(db) && RepliesTargetRoots(db) && Linked(db, a, b)
    ensures RootOf(db, a) == RootOf(db, b)
  {
  }

  lemma {:induction false} PathSharesRoot(db: Db, path: seq<string>)
    requires Valid(db) && RepliesTargetRoots(db) && IsPath(db, path)
    ensures RootOf(db, path[0]) == RootOf(db, path[|path| - 1])
    decreases |path|
  {
    if |path| > 1 {
      LinkedShareRoot(db, path[0], path[1]);
      var rest := path[1..];
      assert forall i {:trigger rest[i]} :: 0 <= i < |rest| ==> rest[i] == path[i + 1];
      assert IsPath(db, rest);
      PathSharesRoot(db, rest);
    }
  }

  /** A stored message is its own root or linked to it. */
  lemma RootIsNear(db: Db, a: string)
    requires Valid(db) && a in db.messages
    ensures RootOf(db, a) == a || Linked(db, a, RootOf(db, a))
  {
  }

  lemma LinkedSymmetric(db: Db, a: string, b: string)
    ensures Linked(db, a, b) <==> Linked(db, b, a)
  {
  }

  lemma SameRootConnects(db: Db, a: string, b: string)
    requires Valid(db) && a in db.messages && b in db.messages && RootOf(db, a) == RootOf(db, b)
    ensures Connected(db, a, b)
  {
    hide Linked, RootOf;
    var r := RootOf(db, a);
    RootIsNear(db, a);
    RootIsNear(db, b);
    LinkedSymmetric(db, b, r);
    var left := if r == a then [a] else [a, r];
    var path := if r == b then left else left + [b];
    assert IsPath(db, path);
  }

  /**
   * GetThread returns the whole connected component of the reply graph, for every message,
   * exactly when every reply targets a root.
   */
  lemma ThreadsAreComponents(db: Db)
    requires Valid(db) && Threaded(db)
    ensures RepliesTargetRoots(db) <==>
            forall a, b :: a in db.messages && b in db.messages ==>
              (InThread(db, a, b) <==> Connected(db, a, b))
  {
    hide Linked, InThread;
    if RepliesTargetRoots(db) {
      forall a, b | a in db.messages && b in db.messages
        ensures InThread(db, a, b) <==> Connected(db, a, b)
      {
        ThreadIsSameRoot(db, a, b);
        if RootOf(db, a) == RootOf(db, b) {
          SameRootConnects(db, a, b);
        }
        if Connected(db, a, b) {
          var path: seq<string> :| IsPath(db, path) && path[0] == a && path[|path| - 1] == b;
          PathSharesRoot(db, path);
        }
      }
    }
    if forall a, b :: a in db.messages && b in db.messages ==> (InThread(db, a, b) <==> Connected(db, a, b)) {
      forall k | k in db.messages
        ensures RootOf(db, RootOf(db, k)) == RootOf(db, k)
      {
        ComponentsForceRoots(db, k);
      }
    }
  }

  lemma ComponentsForceRoots(db: Db, k: string)
    requires Valid(db) && Threaded(db) && k in db.messages
    requires forall a, b :: a in db.messages && b in db.messages ==> (InThread(db, a, b) <==> Connected(db, a, b))
    ensures RootOf(db, RootOf(db, k)) == RootOf(db, k)
  {
    hide Linked, InThread;
    var r := RootOf(db, k);
    RootIsNear(db, k);
    if r in db.messages && r != k {
      assert IsPath(db, [k, r]);
      assert Connected(db, k, r) by {
        assert [k, r][0] == k && [k, r][1] == r;
      }
      ThreadIsSameRoot(db, k, r);
    }
  }

  /** A reply to a reply leaves the thread of the first message, although the two are connected. */
  lemma ReplyToReplySplitsTheThread(first: Message, second: Message, third: Message)
    requires first.id == "a" && first.replyToId == ""
    requires second.id == "b" && second.replyToId == "a"
    requires third.id == "c" && third.replyToId == "b"
    requires first.threadId == second.threadId == third.threadId == ""
    ensures var db := Upsert(Upsert(Upsert(EMPTY, Filled(first)), Filled(second)), Filled(third));
            && Connected(db, "a", "c")
            && "a" in db.messages && "c" in db.messages && !InThread(db, "a", "c")
  {
    var db := Upsert(Upsert(Upsert(EMPTY, Filled(first)), Filled(second)), Filled(third));
    var path := ["a", "b", "c"];
    assert Linked(db, "a", "b") && Linked(db, "b", "c");
    assert IsPath(db, path) && path[0] == "a" && path[|path| - 1] == "c";
  }
}
