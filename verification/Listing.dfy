/** The session list: persisted rows overlaid with live state, sorted by the formatted creation time. */
module Listing {
  import opened MetaStore
  import opened Sorting

  datatype SessionInfo = SessionInfo(id: Id, name: string, createdAt: string, status: Status,
                                     lastActivity: int, lastDisconnect: int, cols: int, rows: int)

  /** What a live session contributes; `created` is in unix seconds. */
  datatype LiveInfo = LiveInfo(name: string, created: int, activity: int)

  /** The entry the list promises for an id, given the time format. */
  function Entry(t: Table, live: map<Id, LiveInfo>, fmt: int -> string, id: Id): SessionInfo
    requires id in t || id in live
  {
    if id in t then
      var r := t[id];
      if id in live
      then SessionInfo(id, live[id].name, fmt(r.createdAt), Running, live[id].activity, r.disconnect, r.cols, r.rows)
      else SessionInfo(id, r.name, fmt(r.createdAt), r.status, r.activity, r.disconnect, r.cols, r.rows)
    else
      SessionInfo(id, live[id].name, fmt(live[id].created), Running, live[id].activity, 0, 0, 0)
  }

  /** The list has the promised entry of each of the ids exactly once, and nothing else. */
  ghost predicate ListsEntries(t: Table, live: map<Id, LiveInfo>, fmt: int -> string, ids: set<Id>,
                               list: seq<SessionInfo>)
    requires ids <= t.Keys + live.Keys
  {
    forall e :: multiset(list)[e] == if e.id in ids && e == Entry(t, live, fmt, e.id) then 1 else 0
  }

  /** Go's `<=` on strings. */
  predicate StringLe(a: string, b: string) {
    a == [] || (b != [] && (a[0] < b[0] || (a[0] == b[0] && StringLe(a[1..], b[1..]))))
  }

  /** What that is: one is a prefix of the other, or they part at some place. */
  lemma {:induction false} StringLeIsLexicographic(a: string, b: string)
    ensures StringLe(a, b) <==> a <= b || exists k :: PartsAt(a, b, k)
    decreases |a|
  {
    if a != [] && b != [] {
      assert a == [a[0]] + a[1..] && b == [b[0]] + b[1..];
      StringLeIsLexicographic(a[1..], b[1..]);
      if a[0] < b[0] {
        assert PartsAt(a, b, 0);
      } else if a[0] == b[0] {
        PartsLater(a, b);
      }
    }
  }

  /** Up to k they are the same, and at k the first is below. */
  predicate PartsAt(a: string, b: string, k: int) {
    0 <= k < |a| && k < |b| && a[..k] == b[..k] && a[k] < b[k]
  }

  lemma PartsLater(a: string, b: string)
    requires a != [] && b != [] && a[0] == b[0]
    ensures (exists k :: PartsAt(a, b, k)) <==> exists k :: PartsAt(a[1..], b[1..], k)
    ensures a <= b <==> a[1..] <= b[1..]
  {
    forall k | PartsAt(a, b, k) ensures PartsAt(a[1..], b[1..], k - 1) {
      assert k > 0 && a[1..][..k - 1] == a[..k][1..] && b[1..][..k - 1] == b[..k][1..];
    }
    forall k | PartsAt(a[1..], b[1..], k) ensures PartsAt(a, b, k + 1) {
      assert a[..k + 1] == [a[0]] + a[1..][..k] && b[..k + 1] == [b[0]] + b[1..][..k];
    }
    if a <= b {
      assert a[1..] == b[1..|a|];
    }
    if a[1..] <= b[1..] {
      assert a == [a[0]] + a[1..] && b[..|a|] == [b[0]] + b[1..][..|a| - 1];
    }
  }

  predicate CreatedBefore(x: SessionInfo, y: SessionInfo) { StringLe(x.createdAt, y.createdAt) }

  lemma {:induction false} StringLeTotal(a: string, b: string)
    ensures StringLe(a, b) || StringLe(b, a)
    decreases |a|
  {
    if a != [] && b != [] && a[0] == b[0] {
      StringLeTotal(a[1..], b[1..]);
    }
  }

  lemma {:induction false} StringLeTransitive(a: string, b: string, c: string)
    requires StringLe(a, b) && StringLe(b, c)
    ensures StringLe(a, c)
    decreases |a|
  {
    if a != [] && a[0] == b[0] && b[0] == c[0] {
      StringLeTransitive(a[1..], b[1..], c[1..]);
    }
  }

  lemma CreatedBeforeIsTotalOrder()
    ensures TotalOrder(CreatedBefore)
  {
    forall x: SessionInfo, y: SessionInfo ensures CreatedBefore(x, y) || CreatedBefore(y, x) {
      StringLeTotal(x.createdAt, y.createdAt);
    }
    forall x: SessionInfo, y: SessionInfo, z: SessionInfo | CreatedBefore(x, y) && CreatedBefore(y, z)
      ensures CreatedBefore(x, z)
    {
      StringLeTransitive(x.createdAt, y.createdAt, z.createdAt);
    }
  }

  /** Rows from the store come from the table, cover it and have distinct ids. */
  lemma RowsOfTable(t: Table, rows: seq<Meta>)
    requires ListsRows(t, t.Keys, rows)
    ensures forall i :: 0 <= i < |rows| ==> rows[i].id in t && rows[i].row == t[rows[i].id]
    ensures forall i, j :: 0 <= i < j < |rows| ==> rows[i].id != rows[j].id
    ensures forall id :: id in t ==> Meta(id, t[id]) in rows
  {
    forall i | 0 <= i < |rows| ensures rows[i].id in t && rows[i].row == t[rows[i].id] {
      assert multiset(rows)[rows[i]] > 0;
    }
    forall i, j | 0 <= i < j < |rows| ensures rows[i].id != rows[j].id {
      assert multiset(rows)[rows[i]] <= 1;
      OnceMeansDistinct(rows, i, j);
    }
    forall id | id in t ensures Meta(id, t[id]) in rows {
      assert multiset(rows)[Meta(id, t[id])] == 1;
    }
  }

  /** What a list of entries is: one entry for each id, with the live name, activity and status where the
      session is live and the row's columns elsewhere. */
  lemma WhatIsListed(t: Table, live: map<Id, LiveInfo>, fmt: int -> string, ids: set<Id>, list: seq<SessionInfo>)
    requires ids <= t.Keys + live.Keys && ListsEntries(t, live, fmt, ids, list)
    ensures forall i, j :: 0 <= i < j < |list| ==> list[i].id != list[j].id
    ensures forall id :: id in ids <==> exists e :: e in list && e.id == id
    ensures forall e :: e in list && e.id in t ==>
              && e.createdAt == fmt(t[e.id].createdAt) && e.lastDisconnect == t[e.id].disconnect
              && e.cols == t[e.id].cols && e.rows == t[e.id].rows
    ensures forall e :: e in list && e.id !in t ==>
              && e.id in live && e.createdAt == fmt(live[e.id].created)
              && e.lastDisconnect == 0 && e.cols == 0 && e.rows == 0
    ensures forall e :: e in list && e.id in live ==>
              && e.name == live[e.id].name && e.status == Running && e.lastActivity == live[e.id].activity
    ensures forall e :: e in list && e.id !in live ==>
              && e.id in t && e.name == t[e.id].name
              && e.status == t[e.id].status && e.lastActivity == t[e.id].activity
  {
    forall e | e in list ensures e.id in ids && e == Entry(t, live, fmt, e.id) {
      assert multiset(list)[e] > 0;
    }
    forall i, j | 0 <= i < j < |list| ensures list[i].id != list[j].id {
      assert list[i] in list && list[j] in list && multiset(list)[list[i]] <= 1;
      OnceMeansDistinct(list, i, j);
    }
    forall id | id in ids ensures exists e :: e in list && e.id == id {
      assert multiset(list)[Entry(t, live, fmt, id)] == 1 && Entry(t, live, fmt, id) in list;
    }
  }

  lemma AddEntry(t: Table, live: map<Id, LiveInfo>, fmt: int -> string, ids: set<Id>, list: seq<SessionInfo>, id: Id)
    requires ids <= t.Keys + live.Keys && id in t.Keys + live.Keys && id !in ids
    requires ListsEntries(t, live, fmt, ids, list)
    ensures ListsEntries(t, live, fmt, ids + {id}, list + [Entry(t, live, fmt, id)])
  {
  }

  method RowEntry(ghost t: Table, m: Meta, live: map<Id, LiveInfo>, fmt: int -> string) returns (info: SessionInfo)
    requires m.id in t && m.row == t[m.id]
    ensures info == Entry(t, live, fmt, m.id)
  {
    info := SessionInfo(m.id, m.row.name, fmt(m.row.createdAt), m.row.status, m.row.activity,
                        m.row.disconnect, m.row.cols, m.row.rows);
    if m.id in live {
      info := info.(name := live[m.id].name, status := Running, lastActivity := live[m.id].activity);
    }
  }

  /** The persisted rows, overlaid with live state. */
  method RowEntries(ghost t: Table, rows: seq<Meta>, live: map<Id, LiveInfo>, fmt: int -> string)
    returns (list: seq<SessionInfo>, seen: set<Id>)
    requires ListsRows(t, t.Keys, rows)
    ensures seen == t.Keys && ListsEntries(t, live, fmt, seen, list)
  {
    RowsOfTable(t, rows);
    list, seen := [], {};
    for i := 0 to |rows|
      invariant seen <= t.Keys
      invariant forall j :: 0 <= j < i ==> rows[j].id in seen
      invariant forall j :: i <= j < |rows| ==> rows[j].id !in seen
      invariant ListsEntries(t, live, fmt, seen, list)
    {
      var info := RowEntry(t, rows[i], live, fmt);
      AddEntry(t, live, fmt, seen, list, rows[i].id);
      list := list + [info];
      seen := seen + {rows[i].id};
    }
  }

  /** The list is the union of rows and live sessions, each id once, live state first, in creation order. */
  method Merge(ghost t: Table, rows: seq<Meta>, live: map<Id, LiveInfo>, fmt: int -> string)
    returns (list: seq<SessionInfo>)
    requires ListsRows(t, t.Keys, rows)
    ensures ListsEntries(t, live, fmt, t.Keys + live.Keys, list)
    ensures SortedBy(CreatedBefore, list)
    ensures forall i, j :: 0 <= i < j < |list| ==> StringLe(list[i].createdAt, list[j].createdAt)
  {
    var seen;
    list, seen := RowEntries(t, rows, live, fmt);
    var todo := live.Keys;
    while todo != {}
      invariant todo <= live.Keys
      invariant ListsEntries(t, live, fmt, t.Keys + (live.Keys - todo), list)
      decreases todo
    {
      var id :| id in todo;
      ghost var ids := t.Keys + (live.Keys - todo);
      todo := todo - {id};
      if id !in seen {
        AddEntry(t, live, fmt, ids, list, id);
        list := list + [SessionInfo(id, live[id].name, fmt(live[id].created), Running, live[id].activity, 0, 0, 0)];
      }
      assert t.Keys + (live.Keys - todo) == ids + {id};
    }
    assert live.Keys - todo == live.Keys;
    CreatedBeforeIsTotalOrder();
    list := Sort(list, CreatedBefore);
  }
}
