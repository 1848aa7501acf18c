/** Each manager operation run from beginning to end with nothing else in flight: which state it leads to. */
module SoloRuns {
  import opened Wrappers
  import opened MetaStore
  import opened Protocol
  import opened ManagerSafety

  /** Nothing is in flight. */
  ghost predicate Rests(s: State) {
    s.ops == map[] && s.holder == None && s.live <= s.lives.Keys
  }

  /** t is reached from s by some run and rests again; the limit is as before, only these ids became known. */
  ghost predicate Solo(s: State, t: State, ids: set<Id>) {
    Reachable(s, t) && Rests(t) && t.max == s.max && t.seen <= s.seen + ids
  }

  predicate SameNames(s: State, t: State) {
    s.lives.Keys == t.lives.Keys && forall id :: id in s.lives ==> t.lives[id].name == s.lives[id].name
  }

  lemma Begin(s: State)
    ensures Reachable(s, s)
  {
    assert ValidRun(s, []) && Run(s, []) == s;
  }

  /** One more step of a run. */
  lemma Go(first: State, s: State, a: Action) returns (t: State)
    requires Reachable(first, s) && Enabled(s, a)
    ensures t == Step(s, a) && Reachable(first, t)
  {
    t := Step(s, a);
    Reach(first, s, a);
  }

  // ----- Single steps, and what they leave -----

  lemma Inserts(first: State, s: State, id: Id, name: string) returns (t: State)
    requires Reachable(first, s) && s.ops == map[0 := CreateChecked] && Free(s) && id !in s.seen
    ensures Reachable(first, t)
    ensures t == s.(ops := map[0 := CreateInserted(id)], live := s.live + {id}, seen := s.seen + {id}, lives := t.lives)
    ensures t.lives == s.lives[id := Life(0, NameFor(id, name), false, Nobody, false, false, false, [])]
  {
    t := Go(first, s, Create(0, Insert(id, name)));
  }

  lemma ReadsMeta(first: State, s: State, id: Id, created: int, activity: int) returns (t: State)
    requires Reachable(first, s) && s.ops == map[0 := CreateInserted(id)] && id in s.lives
    ensures Reachable(first, t)
    ensures t == s.(ops := map[0 := CreateRow(id, FreshRow(s.lives[id].name, created, activity))])
  {
    t := Go(first, s, Create(0, ReadMeta(created, activity)));
  }

  lemma UpsertsRow(first: State, s: State, id: Id, row: Row) returns (t: State)
    requires Reachable(first, s) && s.ops == map[0 := CreateRow(id, row)] && id in s.lives
    ensures Reachable(first, t) && t == s.(ops := map[], rows := Upserted(s.rows, id, row), lives := t.lives)
    ensures t.lives == s.lives[id := s.lives[id].(landed := true, late := s.lives[id].finished, erased := false)]
  {
    t := Go(first, s, Create(0, Upsert));
    assert t.ops == map[];
  }

  lemma Takes(first: State, s: State, id: Id) returns (t: State)
    requires Reachable(first, s) && Rests(s)
    ensures Reachable(first, t) && SameNames(s, t)
    ensures t == s.(ops := map[0 := DeleteTaken(id, id in s.live)], live := s.live - {id}, seen := s.seen + {id},
                    lives := t.lives)
  {
    t := Go(first, s, Delete(0, Take(id)));
  }

  lemma Looks(first: State, s: State, id: Id, wasLive: bool) returns (t: State)
    requires Reachable(first, s) && s.ops == map[0 := DeleteTaken(id, wasLive)]
    ensures Reachable(first, t)
    ensures t == s.(ops := if wasLive then map[0 := DeleteFound(id)]
                           else if id in s.rows then map[0 := DeleteReady(id, false)] else map[])
  {
    t := Go(first, s, Delete(0, Look));
    assert !wasLive && id !in s.rows ==> t.ops == map[];
  }

  lemma CloseLeaves(s: State, id: Id)
    requires s.ops == map[0 := DeleteFound(id)] && id in s.lives
    ensures var t := Step(s, Delete(0, DeleteStep.Close));
            SameNames(s, t) && t == s.(ops := map[0 := DeleteReady(id, true)], lives := t.lives)
  {
  }

  lemma ClosesIt(first: State, s: State, id: Id) returns (t: State)
    requires Reachable(first, s) && s.ops == map[0 := DeleteFound(id)] && id in s.lives
    ensures Reachable(first, t) && SameNames(s, t) && t == s.(ops := map[0 := DeleteReady(id, true)], lives := t.lives)
  {
    CloseLeaves(s, id);
    t := Go(first, s, Delete(0, DeleteStep.Close));
  }

  lemma EraseLeaves(s: State, id: Id, wasLive: bool)
    requires s.ops == map[0 := DeleteReady(id, wasLive)]
    ensures var t := Step(s, Delete(0, Erase));
            SameNames(s, t) && t == s.(ops := map[0 := DeleteErased(id)], rows := s.rows - {id}, lives := t.lives)
  {
  }

  lemma ErasesRow(first: State, s: State, id: Id, wasLive: bool) returns (t: State)
    requires Reachable(first, s) && s.ops == map[0 := DeleteReady(id, wasLive)]
    ensures Reachable(first, t) && SameNames(s, t)
    ensures t == s.(ops := map[0 := DeleteErased(id)], rows := s.rows - {id}, lives := t.lives)
  {
    EraseLeaves(s, id, wasLive);
    t := Go(first, s, Delete(0, Erase));
  }

  lemma RemovesHistory(first: State, s: State, id: Id) returns (t: State)
    requires Reachable(first, s) && s.ops == map[0 := DeleteErased(id)]
    ensures Reachable(first, t) && t == s.(ops := map[])
  {
    t := Go(first, s, Delete(0, RemoveHistory));
    assert t.ops == map[];
  }

  // ----- Whole operations -----

  lemma CreateSolo(s: State, id: Id, name: string, created: int, activity: int) returns (t: State)
    requires Rests(s) && id !in s.rows && (s.max > 0 ==> |s.live| < s.max) && id !in s.seen
    ensures Solo(s, t, {id})
    ensures t.live == s.live + {id} && t.rows == s.rows[id := FreshRow(NameFor(id, name), created, activity)]
    ensures t.lives == s.lives[id := Life(0, NameFor(id, name), true, Nobody, false, false, false, [])]
  {
    Begin(s);
    t := Go(s, s, Create(0, Check));
    t := Inserts(s, t, id, name);
    t := ReadsMeta(s, t, id, created, activity);
    t := UpsertsRow(s, t, id, FreshRow(NameFor(id, name), created, activity));
  }

  lemma DeleteSolo(s: State, id: Id) returns (t: State)
    requires Rests(s)
    ensures Solo(s, t, {id}) && SameNames(s, t)
    ensures t.live == s.live - {id} && t.rows == s.rows - {id}
  {
    Begin(s);
    t := Takes(s, s, id);
    t := Looks(s, t, id, id in s.live);
    if id in s.live {
      t := ClosesIt(s, t, id);
    }
    if id in s.live || id in s.rows {
      t := ErasesRow(s, t, id, id in s.live);
      t := RemovesHistory(s, t, id);
    }
  }

  lemma ExitSolo(s: State, id: Id) returns (t: State)
    requires Rests(s)
    ensures Solo(s, t, {}) && SameNames(s, t)
    ensures t.live == s.live - {id}
    ensures t.rows == if id in s.live then WithStatus(s.rows, id, Dead) else s.rows
  {
    Begin(s);
    t := Go(s, s, Exit(0, Leave(id)));
    if id in s.live {
      t := Go(s, t, Exit(0, MarkDead));
    }
    assert t.ops == map[];
  }

  lemma RenameSolo(s: State, id: Id, name: string) returns (t: State)
    requires Rests(s)
    ensures Solo(s, t, {id}) && t.live == s.live && t.rows == WithName(s.rows, id, name)
    ensures t.lives == if id in s.live then s.lives[id := s.lives[id].(name := name)] else s.lives
  {
    Begin(s);
    t := Go(s, s, Rename(0, Find(id, name)));
    if id in s.live {
      t := Go(s, t, Rename(0, NameLive));
    }
    t := Go(s, t, Rename(0, NameRow));
    assert t.ops == map[];
  }

  lemma DisconnectSolo(s: State, id: Id, ts: int) returns (t: State)
    requires Rests(s)
    ensures Solo(s, t, {}) && SameNames(s, t)
    ensures t.live == s.live && t.rows == WithDisconnect(s.rows, id, ts)
  {
    Begin(s);
    t := Go(s, s, Disconnect(id, ts));
  }

  // ----- The two loops -----

  datatype FlushInfo = FlushInfo(activity: int, cols: int, rows: int)

  function FlushedRow(r: Row, info: FlushInfo): Row {
    var r' := r.(activity := info.activity);
    if info.cols > 0 && info.rows > 0 then r'.(cols := info.cols, rows := info.rows) else r'
  }

  function Flushed(t: Table, infos: map<Id, FlushInfo>): Table {
    map id | id in t :: if id in infos then FlushedRow(t[id], infos[id]) else t[id]
  }

  /** What a flush leaves of a row: the reported activity, and columns and rows of the terminal if both are known. */
  lemma FlushedRowIs(t: Table, infos: map<Id, FlushInfo>, id: Id)
    requires id in t
    ensures var r := Flushed(t, infos)[id];
            && r.name == t[id].name && r.createdAt == t[id].createdAt
            && r.disconnect == t[id].disconnect && r.status == t[id].status
            && r.activity == (if id in infos then infos[id].activity else t[id].activity)
            && (if id in infos && infos[id].cols > 0 && infos[id].rows > 0
                then r.cols == infos[id].cols && r.rows == infos[id].rows
                else r.cols == t[id].cols && r.rows == t[id].rows)
  {
  }

  function SweptRows(t: Table, ids: set<Id>): Table {
    map id | id in t :: if id in ids then t[id].(status := Detached) else t[id]
  }

  /** The keys of a finite map in some order, each once. */
  lemma Listed(ids: set<Id>) returns (list: seq<Id>)
    ensures forall id :: id in list <==> id in ids
    ensures forall i, j :: 0 <= i < j < |list| ==> list[i] != list[j]
  {
    if ids == {} {
      list := [];
    } else {
      var id :| id in ids;
      var rest := Listed(ids - {id});
      list := [id] + rest;
    }
  }

  lemma WritesActivity(first: State, s: State, ids: seq<Id>, ts: int) returns (t: State)
    requires Reachable(first, s) && s.ops == map[0 := Flushing(ids)] && ids != []
    ensures Reachable(first, t)
    ensures t == s.(ops := map[0 := FlushSizing(ids)], rows := WithActivity(s.rows, ids[0], ts))
  {
    t := Go(first, s, Flush(0, FlushStep.SetActivity(ts)));
  }

  lemma WritesSize(first: State, s: State, ids: seq<Id>, cols: int, rows: int) returns (t: State)
    requires Reachable(first, s) && s.ops == map[0 := FlushSizing(ids)] && ids != []
    ensures Reachable(first, t)
    ensures t == s.(ops := map[0 := Flushing(ids[1..])],
                    rows := if cols > 0 && rows > 0 then WithSize(s.rows, ids[0], cols, rows) else s.rows)
  {
    t := Go(first, s, Flush(0, FlushStep.SetSize(cols, rows)));
  }

  lemma FlushTurn(first: State, s: State, ids: seq<Id>, info: FlushInfo) returns (t: State)
    requires Reachable(first, s) && s.ops == map[0 := Flushing(ids)] && ids != []
    ensures Reachable(first, t)
    ensures t == s.(ops := map[0 := Flushing(ids[1..])], rows := Flushed(s.rows, map[ids[0] := info]))
  {
    t := WritesActivity(first, s, ids, info.activity);
    t := WritesSize(first, t, ids, info.cols, info.rows);
  }

  lemma StopsFlushing(first: State, s: State) returns (t: State)
    requires Reachable(first, s) && s.ops == map[0 := Flushing([])]
    ensures Reachable(first, t) && t == s.(ops := map[])
  {
    t := Go(first, s, Flush(0, FlushStep.Stop));
    assert t.ops == map[];
  }

  lemma {:induction false} FlushTurns(first: State, s: State, ids: seq<Id>, infos: map<Id, FlushInfo>)
    returns (t: State)
    requires Reachable(first, s) && s.ops == map[0 := Flushing(ids)]
    requires (forall id :: id in ids <==> id in infos) && forall i, j :: 0 <= i < j < |ids| ==> ids[i] != ids[j]
    ensures Reachable(first, t) && t == s.(ops := map[], rows := Flushed(s.rows, infos))
    decreases |ids|
  {
    if ids == [] {
      t := StopsFlushing(first, s);
      assert infos == map[];
    } else {
      assert forall k :: k in ids <==> k == ids[0] || k in ids[1..];
      t := FlushTurn(first, s, ids, infos[ids[0]]);
      var rest := infos - {ids[0]};
      assert Flushed(Flushed(s.rows, map[ids[0] := infos[ids[0]]]), rest) == Flushed(s.rows, infos);
      t := FlushTurns(first, t, ids[1..], rest);
    }
  }

  lemma FlushSolo(s: State, infos: map<Id, FlushInfo>) returns (t: State)
    requires Rests(s) && infos.Keys == s.live
    ensures Solo(s, t, {}) && t == s.(rows := Flushed(s.rows, infos))
  {
    Begin(s);
    var ids := Listed(s.live);
    assert (set id | id in ids) == s.live;
    t := Go(s, s, Flush(0, Snapshot(ids)));
    t := FlushTurns(s, t, ids, infos);
  }

  lemma SweepTurn(first: State, s: State, id: Id) returns (t: State)
    requires Reachable(first, s) && s.ops == map[0 := Sweeping] && id in s.live && id in s.lives
    ensures Reachable(first, t) && SameNames(s, t)
    ensures t == s.(live := s.live - {id}, rows := SweptRows(s.rows, {id}), lives := t.lives)
  {
    t := Go(first, s, Sweep(0, CloseOne(id)));
    t := MarkedTurn(first, t, id);
  }

  lemma MarkedTurn(first: State, s: State, id: Id) returns (t: State)
    requires Reachable(first, s) && s.ops == map[0 := SweepClosed(id)] && id in s.lives
    ensures Reachable(first, t) && SameNames(s, t)
    ensures t == s.(ops := map[0 := Sweeping], live := s.live - {id}, rows := SweptRows(s.rows, {id}), lives := t.lives)
  {
    t := MarksRow(first, s, id);
    t := Drops(first, t, id);
  }

  lemma MarkLeaves(s: State, id: Id)
    requires s.ops == map[0 := SweepClosed(id)] && id in s.lives
    ensures var t := Step(s, Sweep(0, MarkOne));
            && SameNames(s, t)
            && t == s.(ops := map[0 := SweepMarked(id)], rows := WithStatus(s.rows, id, Detached), lives := t.lives)
  {
  }

  lemma MarksRow(first: State, s: State, id: Id) returns (t: State)
    requires Reachable(first, s) && s.ops == map[0 := SweepClosed(id)] && id in s.lives
    ensures Reachable(first, t) && SameNames(s, t)
    ensures t == s.(ops := map[0 := SweepMarked(id)], rows := WithStatus(s.rows, id, Detached), lives := t.lives)
  {
    MarkLeaves(s, id);
    t := Go(first, s, Sweep(0, MarkOne));
  }

  lemma Drops(first: State, s: State, id: Id) returns (t: State)
    requires Reachable(first, s) && s.ops == map[0 := SweepMarked(id)]
    ensures Reachable(first, t) && t == s.(ops := map[0 := Sweeping], live := s.live - {id})
  {
    t := Go(first, s, Sweep(0, DropOne));
  }

  lemma {:induction false} SweepTurns(first: State, s: State) returns (t: State)
    requires Reachable(first, s) && s.ops == map[0 := Sweeping] && s.live <= s.lives.Keys
    ensures Reachable(first, t)
    ensures t == s.(ops := map[], holder := None, live := {}, rows := SweptRows(s.rows, s.live), lives := t.lives)
    decreases s.live
  {
    if s.live == {} {
      t := Go(first, s, Sweep(0, Unlock));
      assert t.ops == map[];
    } else {
      var id :| id in s.live;
      t := SweepTurn(first, s, id);
      assert SweptRows(SweptRows(s.rows, {id}), s.live - {id}) == SweptRows(s.rows, s.live);
      t := SweepTurns(first, t);
    }
  }

  lemma SweepSolo(s: State) returns (t: State)
    requires Rests(s)
    ensures Solo(s, t, {}) && t.live == {} && t.rows == SweptRows(s.rows, s.live)
  {
    Begin(s);
    t := Go(s, s, Sweep(0, Lock));
    t := SweepTurns(s, t);
  }
}
