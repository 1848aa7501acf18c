/** What each call of the manager does to the live names and the table when it has the manager to itself,
    and why a series of such calls is one run of the step system. */
module ManagerCalls {
  import opened MetaStore
  import opened Protocol
  import opened Agreement
  import opened ManagerSafety
  import opened SoloRuns

  datatype Picture = Picture(names: map<Id, string>, table: Table, max: int)

  /** The reaper's call is given the ids it chose, a flush what the live sessions report. */
  datatype Call =
    | CallCreate(id: Id, name: string, created: int, activity: int)
    | CallDelete(id: Id)
    | CallExit(id: Id)
    | CallRename(id: Id, name: string)
    | CallFlush(infos: map<Id, FlushInfo>)
    | CallCloseAll(infos: map<Id, FlushInfo>)
    | CallReap(ids: set<Id>)
    | CallDisconnect(id: Id, ts: int)
    | CallRestart(max: int)

  predicate Possible(v: Picture, c: Call) {
    match c
    case CallCreate(id, _, _, _) => id !in v.names && id !in v.table
    case CallFlush(infos) => infos.Keys == v.names.Keys
    case CallCloseAll(infos) => infos.Keys == v.names.Keys
    case _ => true
  }

  function Full(v: Picture): bool { v.max > 0 && |v.names| >= v.max }

  function AfterCreate(v: Picture, id: Id, name: string, created: int, activity: int): Picture {
    var name' := NameFor(id, name);
    Picture(v.names[id := name'], Upserted(v.table, id, FreshRow(name', created, activity)), v.max)
  }

  function AfterDelete(v: Picture, id: Id): Picture { Picture(v.names - {id}, v.table - {id}, v.max) }

  function AfterExit(v: Picture, id: Id): Picture {
    Picture(v.names - {id}, if id in v.names then WithStatus(v.table, id, Dead) else v.table, v.max)
  }

  function AfterRename(v: Picture, id: Id, name: string): Picture {
    Picture(if id in v.names then v.names[id := name] else v.names, WithName(v.table, id, name), v.max)
  }

  function AfterFlush(v: Picture, infos: map<Id, FlushInfo>): Picture { v.(table := Flushed(v.table, infos)) }

  function AfterCloseAll(v: Picture, infos: map<Id, FlushInfo>): Picture {
    Picture(map[], SweptRows(Flushed(v.table, infos), v.names.Keys), v.max)
  }

  function AfterReap(v: Picture, ids: set<Id>): Picture { Picture(v.names - ids, v.table - ids, v.max) }

  function AfterDisconnect(v: Picture, id: Id, ts: int): Picture { v.(table := WithDisconnect(v.table, id, ts)) }

  function AfterRestart(v: Picture, max: int): Picture { Picture(map[], AllDetached(v.table), max) }

  function Effect(v: Picture, c: Call): Picture {
    match c
    case CallCreate(id, name, created, activity) => if Full(v) then v else AfterCreate(v, id, name, created, activity)
    case CallDelete(id) => AfterDelete(v, id)
    case CallExit(id) => AfterExit(v, id)
    case CallRename(id, name) => AfterRename(v, id, name)
    case CallFlush(infos) => AfterFlush(v, infos)
    case CallCloseAll(infos) => AfterCloseAll(v, infos)
    case CallReap(ids) => AfterReap(v, ids)
    case CallDisconnect(id, ts) => AfterDisconnect(v, id, ts)
    case CallRestart(max) => AfterRestart(v, max)
  }

  /** Call by call. */
  lemma EffectsAre(v: Picture, id: Id, name: string, ts: int, ids: set<Id>, max: int)
    ensures Effect(v, CallCreate(id, name, ts, ts)) ==
            if v.max > 0 && |v.names| >= v.max then v else AfterCreate(v, id, name, ts, ts)
    ensures Effect(v, CallDelete(id)) == v.(names := v.names - {id}, table := v.table - {id})
    ensures Effect(v, CallReap(ids)) == v.(names := v.names - ids, table := v.table - ids)
    ensures Effect(v, CallExit(id)).names == v.names - {id}
    ensures Effect(v, CallExit(id)).table ==
            if id in v.names && id in v.table then v.table[id := v.table[id].(status := Dead)] else v.table
    ensures Effect(v, CallRename(id, name)).names == if id in v.names then v.names[id := name] else v.names
    ensures Effect(v, CallRename(id, name)).table ==
            if id in v.table then v.table[id := v.table[id].(name := name)] else v.table
    ensures Effect(v, CallDisconnect(id, ts)).table ==
            if id in v.table then v.table[id := v.table[id].(disconnect := ts)] else v.table
    ensures Effect(v, CallRestart(max)).names == map[] && Effect(v, CallRestart(max)).max == max
  {
  }

  lemma LoopEffectsAre(v: Picture, infos: map<Id, FlushInfo>)
    ensures Effect(v, CallFlush(infos)).names == v.names && Effect(v, CallCloseAll(infos)).names == map[]
    ensures var t, u := Effect(v, CallFlush(infos)).table, Effect(v, CallCloseAll(infos)).table;
            && t.Keys == u.Keys == v.table.Keys
            && forall k :: k in t ==>
                 && t[k] == (if k in infos then FlushedRow(v.table[k], infos[k]) else v.table[k])
                 && u[k] == if k in v.names then t[k].(status := Detached) else t[k]
  {
  }

  /** The ids a call makes known. */
  function Uses(c: Call): set<Id> {
    match c
    case CallCreate(id, _, _, _) => {id}
    case CallDelete(id) => {id}
    case CallRename(id, _) => {id}
    case CallReap(ids) => ids
    case _ => {}
  }

  // ----- Calls one after the other keep map and table together -----

  /** The running rows are the live sessions, under the same names. */
  ghost predicate InStep(v: Picture) {
    && (forall id :: id in v.names <==> id in v.table && v.table[id].status == Running)
    && (forall id :: id in v.names ==> v.table[id].name == v.names[id])
  }

  lemma CallKeepsInStep(v: Picture, c: Call)
    requires InStep(v) && Possible(v, c)
    ensures InStep(Effect(v, c))
  {
  }

  // ----- Each call is a run -----

  ghost predicate IsFirst(first: State) {
    exists max, rows, seen :: first == NewManager(max, rows, seen)
  }

  /** The resting state m has these live sessions and this table. */
  ghost predicate Shows(m: State, v: Picture) {
    && Rests(m) && m.live == v.names.Keys && m.rows == v.table && m.max == v.max
    && forall id :: id in v.names ==> m.lives[id].name == v.names[id]
  }

  /** And it is reached from the start of the process. */
  ghost predicate Mirrors(first: State, m: State, v: Picture) {
    IsFirst(first) && Reachable(first, m) && Shows(m, v)
  }

  lemma ReachOn(first: State, s: State, t: State)
    requires Reachable(first, s) && Reachable(s, t)
    ensures Reachable(first, t)
  {
    var x :| ValidRun(first, x) && Run(first, x) == s;
    var y :| ValidRun(s, y) && Run(s, y) == t;
    RunAppend(first, x, y);
  }

  lemma MirrorInv(first: State, m: State, v: Picture)
    requires Mirrors(first, m, v)
    ensures Inv(m) && m.rows.Keys <= m.seen
  {
    var max0, rows0, seen0 :| first == NewManager(max0, rows0, seen0);
    NewManagerInv(max0, rows0, seen0);
    var acts :| ValidRun(first, acts) && Run(first, acts) == m;
    RunInv(first, acts);
    forall id | id in m.rows ensures id in m.seen {
      IdIsSeen(m, id);
    }
  }

  lemma CreateIsRun(first: State, m: State, v: Picture, id: Id, name: string, created: int, activity: int)
    returns (t: State)
    requires Mirrors(first, m, v) && !Full(v) && id !in m.seen && id !in v.table
    ensures Mirrors(first, t, AfterCreate(v, id, name, created, activity)) && t.seen <= m.seen + {id}
  {
    t := CreateShows(m, v, id, name, created, activity);
    ReachOn(first, m, t);
  }

  lemma CreateShows(m: State, v: Picture, id: Id, name: string, created: int, activity: int) returns (t: State)
    requires Shows(m, v) && !Full(v) && id !in m.seen && id !in v.table
    ensures Shows(t, AfterCreate(v, id, name, created, activity)) && Solo(m, t, {id})
  {
    RoomLeft(m, v);
    t := CreateSolo(m, id, name, created, activity);
    ShowsNew(m, v, t, id, t.lives[id], t.rows);
  }

  lemma RoomLeft(m: State, v: Picture)
    requires Shows(m, v) && !Full(v)
    ensures m.max > 0 ==> |m.live| < m.max
  {
    assert |m.live| == |v.names|;
  }

  lemma ShowsNew(m: State, v: Picture, t: State, id: Id, life: Life, table: Table)
    requires Shows(m, v) && Rests(t) && t.max == m.max && t.live == m.live + {id} && t.rows == table
    requires t.lives == m.lives[id := life]
    ensures Shows(t, Picture(v.names[id := life.name], table, v.max))
  {
  }

  lemma EndIsRun(first: State, m: State, v: Picture, c: Call) returns (t: State)
    requires Mirrors(first, m, v) && (c.CallDelete? || c.CallExit?)
    ensures Mirrors(first, t, Effect(v, c)) && t.seen <= m.seen + Uses(c)
  {
    if c.CallDelete? { t := DeleteSolo(m, c.id); } else { t := ExitSolo(m, c.id); }
    ReachOn(first, m, t);
  }

  lemma RenameIsRun(first: State, m: State, v: Picture, c: Call) returns (t: State)
    requires Mirrors(first, m, v) && (c.CallRename? || c.CallDisconnect?)
    ensures Mirrors(first, t, Effect(v, c)) && t.seen <= m.seen + Uses(c)
  {
    if c.CallRename? { t := RenameSolo(m, c.id, c.name); } else { t := DisconnectSolo(m, c.id, c.ts); }
    ReachOn(first, m, t);
  }

  lemma FlushIsRun(first: State, m: State, v: Picture, infos: map<Id, FlushInfo>) returns (t: State)
    requires Mirrors(first, m, v) && infos.Keys == v.names.Keys
    ensures Mirrors(first, t, Effect(v, CallFlush(infos))) && t.seen <= m.seen
  {
    t := FlushSolo(m, infos);
    ReachOn(first, m, t);
  }

  lemma CloseAllIsRun(first: State, m: State, v: Picture, infos: map<Id, FlushInfo>) returns (t: State)
    requires Mirrors(first, m, v) && infos.Keys == v.names.Keys
    ensures Mirrors(first, t, Effect(v, CallCloseAll(infos))) && t.seen <= m.seen
  {
    var f := FlushIsRun(first, m, v, infos);
    t := SweepSolo(f);
    ReachOn(first, f, t);
  }

  lemma {:induction false} ReapIsRun(first: State, m: State, v: Picture, ids: set<Id>) returns (t: State)
    requires Mirrors(first, m, v)
    ensures Mirrors(first, t, Effect(v, CallReap(ids))) && t.seen <= m.seen + ids
    decreases ids
  {
    if ids == {} {
      t := m;
      assert Effect(v, CallReap(ids)) == v;
    } else {
      var id :| id in ids;
      t := EndIsRun(first, m, v, CallDelete(id));
      var w := Effect(v, CallDelete(id));
      assert Effect(w, CallReap(ids - {id})) == Effect(v, CallReap(ids));
      t := ReapIsRun(first, t, w, ids - {id});
    }
  }

  lemma RestartIsRun(first: State, m: State, v: Picture, max: int) returns (t: State)
    requires Mirrors(first, m, v)
    ensures Mirrors(first, t, Effect(v, CallRestart(max))) && t.seen <= m.seen
  {
    MirrorInv(first, m, v);
    t := Go(first, m, Restart(max));
  }

  lemma CallIsRun(first: State, m: State, v: Picture, c: Call) returns (t: State)
    requires Mirrors(first, m, v) && Possible(v, c) && (c.CallCreate? ==> c.id !in m.seen)
    ensures Mirrors(first, t, Effect(v, c)) && t.seen <= m.seen + Uses(c)
  {
    match c
    case CallCreate(id, name, created, activity) =>
      if Full(v) { t := m; } else { t := CreateIsRun(first, m, v, id, name, created, activity); }
    case CallDelete(_) | CallExit(_) => t := EndIsRun(first, m, v, c);
    case CallRename(_, _) | CallDisconnect(_, _) => t := RenameIsRun(first, m, v, c);
    case CallFlush(infos) => t := FlushIsRun(first, m, v, infos);
    case CallCloseAll(infos) => t := CloseAllIsRun(first, m, v, infos);
    case CallReap(ids) => t := ReapIsRun(first, m, v, ids);
    case CallRestart(max) => t := RestartIsRun(first, m, v, max);
  }

  // ----- Any series of calls -----

  /** Every new session is given an id that nobody has mentioned before. */
  ghost predicate ValidSeries(v: Picture, used: set<Id>, calls: seq<Call>)
    decreases |calls|
  {
    calls == [] || (&& Possible(v, calls[0]) && (calls[0].CallCreate? ==> calls[0].id !in used)
                    && ValidSeries(Effect(v, calls[0]), used + Uses(calls[0]), calls[1..]))
  }

  function AfterSeries(v: Picture, calls: seq<Call>): Picture
    decreases |calls|
  {
    if calls == [] then v else AfterSeries(Effect(v, calls[0]), calls[1..])
  }

  /** A series of calls is one run of the step system, and leaves map and table in step. */
  lemma {:induction false} SeriesIsRun(first: State, m: State, v: Picture, used: set<Id>, calls: seq<Call>)
    returns (t: State)
    requires Mirrors(first, m, v) && m.seen <= used && ValidSeries(v, used, calls)
    ensures Mirrors(first, t, AfterSeries(v, calls))
    ensures InStep(v) ==> InStep(AfterSeries(v, calls))
    decreases |calls|
  {
    if calls == [] {
      t := m;
    } else {
      t := CallIsRun(first, m, v, calls[0]);
      if InStep(v) { CallKeepsInStep(v, calls[0]); }
      t := SeriesIsRun(first, t, Effect(v, calls[0]), used + Uses(calls[0]), calls[1..]);
    }
  }

  /** From the start of the server on any table. */
  lemma ServedSeries(rows: Table, max: int, calls: seq<Call>) returns (t: State)
    requires ValidSeries(Picture(map[], AllDetached(rows), max), rows.Keys, calls)
    ensures var v := AfterSeries(Picture(map[], AllDetached(rows), max), calls);
            InStep(v) && Mirrors(NewManager(max, rows, {}), t, v)
  {
    var first, v := NewManager(max, rows, {}), Picture(map[], AllDetached(rows), max);
    Begin(first);
    assert IsFirst(first) && Mirrors(first, first, v);
    t := SeriesIsRun(first, first, v, rows.Keys, calls);
  }
}
