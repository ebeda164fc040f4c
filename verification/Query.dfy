/** SELECT ... ORDER BY timestamp over chosen rows, with the order of equal timestamps left open. */
module Query {
  import opened Tables

  type Table = map<string, Row>

  ghost predicate Before(a: Message, b: Message, descending: bool) {
    if descending then a.timestamp >= b.timestamp else a.timestamp <= b.timestamp
  }

  ghost predicate Sorted(rows: seq<Message>, descending: bool) {
    forall i, j :: 0 <= i < j < |rows| ==> Before(rows[i], rows[j], descending)
  }

  ghost predicate Distinct(rows: seq<Message>) {
    forall i, j :: 0 <= i < j < |rows| ==> rows[i].id != rows[j].id
  }

  ghost predicate AreRows(t: Table, keys: set<string>, rows: seq<Message>) {
    forall i :: 0 <= i < |rows| ==> rows[i].id in keys && rows[i].id in t && rows[i] == t[rows[i].id].msg
  }

  function Ids(rows: seq<Message>): set<string> {
    set m | m in rows :: m.id
  }

  /** Each chosen row once, in timestamp order. */
  ghost predicate Lists(t: Table, keys: set<string>, descending: bool, rows: seq<Message>) {
    AreRows(t, keys, rows) && Ids(rows) == keys && Distinct(rows) && Sorted(rows, descending)
  }

  /** The newest n of the chosen rows: none left out is newer than one returned. */
  ghost predicate Newest(t: Table, keys: set<string>, n: nat, rows: seq<Message>) {
    && AreRows(t, keys, rows) && Distinct(rows) && Sorted(rows, true)
    && |rows| == (if |keys| <= n then |keys| else n)
    && forall k, i :: k in keys && k in t && k !in Ids(rows) && 0 <= i < |rows| ==> rows[i].timestamp >= t[k].msg.timestamp
  }

  ghost predicate KeysMatch(t: Table, keys: set<string>) {
    forall k :: k in keys ==> k in t && t[k].msg.id == k
  }

  method PickFirst(t: Table, keys: set<string>, descending: bool) returns (k: string)
    requires keys != {} && KeysMatch(t, keys)
    ensures k in keys
    ensures forall l :: l in keys ==> Before(t[k].msg, t[l].msg, descending)
  {
    k :| k in keys;
    var rest := keys - {k};
    while rest != {}
      invariant k in keys && rest <= keys
      invariant forall l :: l in keys && l !in rest ==> Before(t[k].msg, t[l].msg, descending)
      decreases |rest|
    {
      var l :| l in rest;
      rest := rest - {l};
      var better := if descending then t[l].msg.timestamp > t[k].msg.timestamp else t[l].msg.timestamp < t[k].msg.timestamp;
      if better {
        k := l;
      }
    }
  }

  /** The rows picked so far: those of keys - rest, none out of order with a row still to come. */
  ghost predicate Picked(t: Table, keys: set<string>, rest: set<string>, descending: bool, rows: seq<Message>) {
    && rest <= keys && AreRows(t, keys, rows) && Distinct(rows) && Sorted(rows, descending)
    && Ids(rows) == keys - rest
    && forall i, l :: 0 <= i < |rows| && l in rest && l in t ==> Before(rows[i], t[l].msg, descending)
  }

  lemma PickNext(t: Table, keys: set<string>, rest: set<string>, descending: bool, rows: seq<Message>, k: string)
    requires KeysMatch(t, keys) && Picked(t, keys, rest, descending, rows) && k in rest
    requires forall l :: l in rest && l in t ==> Before(t[k].msg, t[l].msg, descending)
    ensures Picked(t, keys, rest - {k}, descending, rows + [t[k].msg])
  {
    hide Before;
    var m := t[k].msg;
    IdsSnoc(rows, m);
    forall i | 0 <= i < |rows|
      ensures rows[i].id != m.id
    {
      assert rows[i] in rows;
      assert rows[i].id in Ids(rows);
    }
  }

  method SelectOrdered(t: Table, keys: set<string>, descending: bool) returns (rows: seq<Message>)
    requires KeysMatch(t, keys)
    ensures Lists(t, keys, descending, rows) && |rows| == |keys|
  {
    rows := [];
    var rest := keys;
    while rest != {}
      invariant |rows| + |rest| == |keys|
      invariant Picked(t, keys, rest, descending, rows)
      decreases |rest|
    {
      var k := PickFirst(t, rest, descending);
      PickNext(t, keys, rest, descending, rows, k);
      rows := rows + [t[k].msg];
      rest := rest - {k};
    }
  }

  lemma IdsSnoc(rows: seq<Message>, m: Message)
    ensures Ids(rows + [m]) == Ids(rows) + {m.id}
  {
    assert forall x :: x in rows + [m] <==> x in rows || x == m;
    assert m in rows + [m];
    forall k | k in Ids(rows)
      ensures k in Ids(rows + [m])
    {
      var x :| x in rows && x.id == k;
      assert x in rows + [m];
    }
  }

  /** LIMIT n after ORDER BY timestamp DESC. */
  method SelectNewest(t: Table, keys: set<string>, n: nat) returns (rows: seq<Message>)
    requires KeysMatch(t, keys)
    ensures Newest(t, keys, n, rows)
  {
    var all := SelectOrdered(t, keys, true);
    rows := if |all| <= n then all else all[..n];
    forall k, i | k in keys && k !in Ids(rows) && 0 <= i < |rows|
      ensures rows[i].timestamp >= t[k].msg.timestamp
    {
      assert k in Ids(all);
      var m :| m in all && m.id == k;
      var j :| 0 <= j < |all| && all[j] == m;
      assert forall l :: 0 <= l < |rows| ==> rows[l] in rows && rows[l].id in Ids(rows);
      assert Before(all[i], all[j], true);
    }
  }

  /** A listing holds a row exactly when its key was chosen. */
  lemma ListsHolds(t: Table, keys: set<string>, descending: bool, rows: seq<Message>, k: string)
    requires Lists(t, keys, descending, rows) && k in keys
    ensures exists i :: 0 <= i < |rows| && rows[i].id == k
  {
    assert k in Ids(rows);
    var m :| m in rows && m.id == k;
  }
}
