/** The disconnect column of a session's row: what attaching, detaching and the Upsert leave in the table itself. */
module DisconnectColumn {
  import opened Wrappers
  import opened Int64
  import opened MetaStore
  import opened Idle

  /** The table after the callback of an attach or detach. */
  function Told(t: Table, id: Id, write: Option<int>): Table {
    if write.Some? then WithDisconnect(t, id, write.value) else t
  }

  /** The table after the events of one session, whose creation upserts `row`. */
  function Written<C(==)>(t: Table, id: Id, row: Row, birth: int, evs: seq<Event<C>>): Table
    decreases |evs|
  {
    if evs == [] then t
    else
      var front, ev := evs[..|evs| - 1], evs[|evs| - 1];
      var before := Written(t, id, row, birth, front);
      if ev.Upsert? then Upserted(before, id, row) else Told(before, id, Writes(After(birth, front), ev))
  }

  /** In every history the row, once upserted, is the upserted one with the tracked column as its disconnect
      time, and no other row changes. */
  lemma {:induction false} RowHoldsColumn<C>(t: Table, id: Id, row: Row, birth: int, evs: seq<Event<C>>)
    requires id !in t && row.disconnect == birth / 1_000_000_000
    ensures Written(t, id, row, birth, evs) ==
            match Column(birth, evs)
            case None => t
            case Some(column) =>
              t[id := Row(row.name, row.createdAt, row.activity, column, row.cols, row.rows, row.status)]
    decreases |evs|
  {
    if evs != [] {
      RowHoldsColumn(t, id, row, birth, evs[..|evs| - 1]);
    }
  }

  /** So the table itself tells whether a client is attached, exactly when none attached before the Upsert
      and stayed. */
  lemma RowTellsExactly<C>(t: Table, id: Id, row: Row, birth: int, evs: seq<Event<C>>)
    requires id !in t && row.disconnect == birth / 1_000_000_000
    requires History(birth, evs) && Column(birth, evs).Some?
    ensures id in Written(t, id, row, birth, evs)
    ensures (Written(t, id, row, birth, evs)[id].disconnect == 0 <==> After(birth, evs).clients != {})
       <==> !AttachedSinceUpsert(birth, evs)
  {
    RowHoldsColumn(t, id, row, birth, evs);
    ColumnExact(birth, evs);
  }

  /** Without a client the column is the second in which the last one left, or of the birth; only an Upsert that
      comes after a client has come and gone puts the birth back, until the next detach. */
  lemma ColumnShowsClock<C>(birth: int, evs: seq<Event<C>>)
    requires History(birth, evs) && Column(birth, evs).Some? && After(birth, evs).clients == {}
    ensures Column(birth, evs) ==
            Some((if evs[|evs| - 1].Upsert? then birth else After(birth, evs).goneAt) / 1_000_000_000)
  {
  }
}
