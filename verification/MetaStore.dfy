/** The persisted session table: a map from id to row, with the store's one-purpose writes. */
module MetaStore {
  import opened Sorting

  type Id = string

  datatype Status = Running | Detached | Dead

  datatype Row = Row(name: string, createdAt: int, activity: int, disconnect: int, cols: int, rows: int, status: Status)

  type Table = map<Id, Row>

  /** A session created without a name goes by its id. */
  function NameFor(id: Id, name: string): string { if name == "" then id else name }

  // ----- The statements -----

  function Upserted(t: Table, id: Id, row: Row): Table {
    t[id := if id in t then row.(createdAt := t[id].createdAt) else row]
  }

  /** `UPDATE ... WHERE id = ?`: a missing row stays missing. */
  function WithName(t: Table, id: Id, name: string): Table {
    if id in t then t[id := t[id].(name := name)] else t
  }

  function WithActivity(t: Table, id: Id, ts: int): Table {
    if id in t then t[id := t[id].(activity := ts)] else t
  }

  function WithDisconnect(t: Table, id: Id, ts: int): Table {
    if id in t then t[id := t[id].(disconnect := ts)] else t
  }

  function WithSize(t: Table, id: Id, cols: int, rows: int): Table {
    if id in t then t[id := t[id].(cols := cols, rows := rows)] else t
  }

  function WithStatus(t: Table, id: Id, status: Status): Table {
    if id in t then t[id := t[id].(status := status)] else t
  }

  /** Each one-purpose write owns its column: it changes that one in the row of the id, and nothing else. */
  lemma EachWritesItsColumn(t: Table, id: Id, name: string, ts: int, cols: int, rows: int, status: Status)
    ensures id !in t ==>
              && WithName(t, id, name) == WithActivity(t, id, ts) == t
              && WithDisconnect(t, id, ts) == WithSize(t, id, cols, rows) == WithStatus(t, id, status) == t
    ensures id in t ==>
              var Row(n, created, active, gone, w, h, s) := t[id];
              && WithName(t, id, name) == t[id := Row(name, created, active, gone, w, h, s)]
              && WithActivity(t, id, ts) == t[id := Row(n, created, ts, gone, w, h, s)]
              && WithDisconnect(t, id, ts) == t[id := Row(n, created, active, ts, w, h, s)]
              && WithSize(t, id, cols, rows) == t[id := Row(n, created, active, gone, cols, rows, s)]
              && WithStatus(t, id, status) == t[id := Row(n, created, active, gone, w, h, status)]
  {
  }

  function AllDetached(t: Table): (t': Table) {
    map id | id in t :: if t[id].status == Running then t[id].(status := Detached) else t[id]
  }

  /** A row together with its id, as `List` returns it. */
  datatype Meta = Meta(id: Id, row: Row)

  predicate Older(a: Meta, b: Meta) { a.row.createdAt <= b.row.createdAt }

  /** The list holds each row of the table with an id in ids exactly once, and nothing else. */
  ghost predicate ListsRows(t: Table, ids: set<Id>, list: seq<Meta>) {
    forall m :: multiset(list)[m] == if m.id in ids && m.id in t && m.row == t[m.id] then 1 else 0
  }

  class Store {
    var table: Table

    constructor (contents: Table)
      ensures table == contents
    {
      table := contents;
    }

    method Upsert(id: Id, row: Row)
      modifies this
      ensures table == Upserted(old(table), id, row)
      ensures id in old(table) ==> table == old(table)[id := row.(createdAt := old(table)[id].createdAt)]
      ensures id !in old(table) ==> table == old(table)[id := row]
    {
      if id in table {
        table := table[id := Row(row.name, table[id].createdAt, row.activity, row.disconnect, row.cols, row.rows,
                                 row.status)];
      } else {
        table := table[id := row];
      }
    }

    /** An UPDATE that matches no row is no error. */
    method SetName(id: Id, name: string) returns (ok: bool)
      modifies this
      ensures ok && table == WithName(old(table), id, name)
      ensures table.Keys == old(table).Keys
      ensures forall k :: k in table ==> table[k] == if k == id then old(table)[k].(name := name) else old(table)[k]
    {
      if id in table { table := table[id := table[id].(name := name)]; }
      return true;
    }

    method SetActivity(id: Id, ts: int)
      modifies this
      ensures table == WithActivity(old(table), id, ts)
      ensures table.Keys == old(table).Keys
      ensures forall k :: k in table ==> table[k] == if k == id then old(table)[k].(activity := ts) else old(table)[k]
    {
      if id in table { table := table[id := table[id].(activity := ts)]; }
    }

    method SetClientDisconnect(id: Id, ts: int)
      modifies this
      ensures table == WithDisconnect(old(table), id, ts)
      ensures table.Keys == old(table).Keys
      ensures forall k :: k in table ==> table[k] == if k == id then old(table)[k].(disconnect := ts) else old(table)[k]
    {
      if id in table { table := table[id := table[id].(disconnect := ts)]; }
    }

    method SetSize(id: Id, cols: int, rows: int)
      modifies this
      ensures table == WithSize(old(table), id, cols, rows)
      ensures table.Keys == old(table).Keys
      ensures forall k :: k in table ==>
                table[k] == if k == id then old(table)[k].(cols := cols, rows := rows) else old(table)[k]
    {
      if id in table { table := table[id := table[id].(cols := cols, rows := rows)]; }
    }

    method SetStatus(id: Id, status: Status)
      modifies this
      ensures table == WithStatus(old(table), id, status)
      ensures table.Keys == old(table).Keys
      ensures forall k :: k in table ==> table[k] == if k == id then old(table)[k].(status := status) else old(table)[k]
    {
      if id in table { table := table[id := table[id].(status := status)]; }
    }

    method MarkAllDetached()
      modifies this
      ensures table == AllDetached(old(table)) && table.Keys == old(table).Keys
      ensures forall k :: k in table ==>
                var row := old(table)[k]; table[k] == if row.status == Running then row.(status := Detached) else row
    {
      var todo := table.Keys;
      while todo != {}
        invariant todo <= table.Keys == old(table).Keys
        invariant forall id :: id in todo ==> table[id] == old(table)[id]
        invariant forall id :: id in table && id !in todo ==> table[id] == AllDetached(old(table))[id]
        decreases todo
      {
        var id :| id in todo;
        if table[id].status == Running {
          table := table[id := table[id].(status := Detached)];
        }
        todo := todo - {id};
      }
    }

    method Delete(id: Id)
      modifies this
      ensures table == old(table) - {id}
    {
      table := table - {id};
    }

    /** All rows ordered by creation time. */
    method List() returns (list: seq<Meta>)
      ensures ListsRows(table, table.Keys, list)
      ensures SortedBy(Older, list)
      ensures forall i, j :: 0 <= i < j < |list| ==> list[i].row.createdAt <= list[j].row.createdAt
    {
      list := [];
      var todo := table.Keys;
      while todo != {}
        invariant todo <= table.Keys
        invariant ListsRows(table, table.Keys - todo, list)
        decreases todo
      {
        var id :| id in todo;
        list := list + [Meta(id, table[id])];
        todo := todo - {id};
      }
      list := Sort(list, Older);
    }
  }
}
