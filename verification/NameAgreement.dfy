/** The name of a session in the map and in its row: when interleaved renames and creation leave them equal. */
module NameAgreement {
  import opened Wrappers
  import opened MetaStore
  import opened Protocol
  import opened Agreement
  import opened ManagerSafety

  /** carriers: the operations in flight that will write the latest name to the row.
      current: the last name written to the row was written on behalf of the latest naming.
      used: every name the session has been given. */
  datatype Naming = Naming(carriers: set<Op>, current: bool, used: set<string>)

  /** Creation and NameLive name the session; ReadMeta picks the name up for the row; Upsert and NameRow write it. */
  function Track(s: State, a: Action, id: Id, n: Naming): Naming
    requires Enabled(s, a)
  {
    match a
    case Create(op, x) => TrackCreate(s, op, x, id, n)
    case Rename(op, x) => TrackRename(s, op, x, id, n)
    case _ => n
  }

  function TrackCreate(s: State, op: Op, x: CreateStep, id: Id, n: Naming): Naming
    requires CanCreate(s, op, x)
  {
    match x
    case Insert(i, name) => if i == id then Naming({}, false, {NameFor(id, name)}) else n
    case ReadMeta(_, _) => if s.ops[op].id == id then n.(carriers := n.carriers + {op}) else n
    case Upsert => if s.ops[op].id == id then n.(carriers := n.carriers - {op}, current := op in n.carriers) else n
    case _ => n
  }

  function TrackRename(s: State, op: Op, x: RenameStep, id: Id, n: Naming): Naming
    requires CanRename(s, op, x)
  {
    match x
    case NameLive => if s.ops[op].id == id then Naming({op}, false, n.used + {s.ops[op].name}) else n
    case NameRow =>
      if s.ops[op].id != id then n
      else n.(carriers := n.carriers - {op}, current := if id in s.rows then op in n.carriers else n.current)
    case _ => n
  }

  function TrackAll(s: State, acts: seq<Action>, id: Id, n: Naming): Naming
    requires ValidRun(s, acts)
    decreases |acts|
  {
    if acts == [] then n else TrackAll(Step(s, acts[0]), acts[1..], id, Track(s, acts[0], id, n))
  }

  predicate Names(s: State, a: Action, id: Id)
    requires Enabled(s, a)
  {
    a.Rename? && a.rename.NameLive? && s.ops[a.op].id == id
  }

  /** No name is given to the session twice. */
  predicate NewNames(s: State, acts: seq<Action>, id: Id, n: Naming)
    requires ValidRun(s, acts)
    decreases |acts|
  {
    acts == [] ||
    (&& (Names(s, acts[0], id) ==> s.ops[acts[0].op].name !in n.used)
     && NewNames(Step(s, acts[0]), acts[1..], id, Track(s, acts[0], id, n)))
  }

  /** A new session goes by the name it is given, or by its id if that is empty, and so does the row built from it. */
  lemma CreationNames(s: State, op: Op, id: Id, name: string, created: int, activity: int)
    requires Enabled(s, Create(op, Insert(id, name)))
    ensures var s' := Step(s, Create(op, Insert(id, name)));
            && id in s'.live && id in s'.lives
            && s'.lives[id].name == (if name != "" then name else id)
            && Enabled(s', Create(op, ReadMeta(created, activity)))
            && Step(s', Create(op, ReadMeta(created, activity))).ops[op]
               == CreateRow(id, Row(if name != "" then name else id, created, activity, created, 0, 0, Running))
  {
  }

  // ----- The invariant -----

  /** The name that an operation in flight is about to write to the row. */
  function Held(pc: Pc, id: Id): Option<string> {
    match pc
    case CreateRow(i, row) => if i == id then Some(row.name) else None
    case RenameStore(i, name) => if i == id then Some(name) else None
    case _ => None
  }

  ghost predicate Carried(s: State, id: Id, n: Naming)
    requires id in s.lives
  {
    && (forall op :: op in n.carriers ==> op in s.ops && Held(s.ops[op], id) == Some(s.lives[id].name))
    && (n.current ==> id in s.rows && s.rows[id].name == s.lives[id].name)
    && s.lives[id].name in n.used
    && (id in s.rows ==> s.rows[id].name in n.used)
    && (forall op :: op in s.ops && Held(s.ops[op], id).Some? ==> Held(s.ops[op], id).value in n.used)
  }

  /** Only carriers hold the latest name, and only then does the row have it. */
  ghost predicate Exactly(s: State, id: Id, n: Naming)
    requires id in s.lives
  {
    && (forall op :: op in s.ops && Held(s.ops[op], id) == Some(s.lives[id].name) ==> op in n.carriers)
    && (id in s.rows && s.rows[id].name == s.lives[id].name ==> n.current)
  }

  ghost predicate NamedOk(s: State, id: Id, n: Naming, distinct: bool) {
    && (forall op :: op in s.ops && Held(s.ops[op], id).Some? ==> id in s.seen)
    && (id in s.live && id in s.lives ==> Carried(s, id, n) && (distinct ==> Exactly(s, id, n)))
  }

  lemma InsertNames(s: State, op: Op, x: CreateStep, id: Id, n: Naming, distinct: bool)
    requires CanCreate(s, op, x) && x.Insert? && IdOk(s, id) && NamedOk(s, id, n, distinct)
    ensures NamedOk(DoCreate(s, op, x), id, TrackCreate(s, op, x, id, n), distinct)
  {
  }

  lemma UpsertNames(s: State, op: Op, x: CreateStep, id: Id, n: Naming, distinct: bool)
    requires CanCreate(s, op, x) && x.Upsert? && NamedOk(s, id, n, distinct)
    ensures NamedOk(DoCreate(s, op, x), id, TrackCreate(s, op, x, id, n), distinct)
  {
  }

  lemma CreateNames(s: State, op: Op, x: CreateStep, id: Id, n: Naming, distinct: bool)
    requires CanCreate(s, op, x) && !x.Insert? && !x.Upsert? && IdOk(s, id) && NamedOk(s, id, n, distinct)
    ensures NamedOk(DoCreate(s, op, x), id, TrackCreate(s, op, x, id, n), distinct)
  {
  }

  lemma RenameNames(s: State, op: Op, x: RenameStep, id: Id, n: Naming, distinct: bool)
    requires CanRename(s, op, x) && IdOk(s, id) && NamedOk(s, id, n, distinct)
    requires distinct && x.NameLive? && s.ops[op].id == id ==> s.ops[op].name !in n.used
    ensures NamedOk(DoRename(s, op, x), id, TrackRename(s, op, x, id, n), distinct)
  {
  }

  lemma EraseNames(s: State, op: Op, x: DeleteStep, id: Id, n: Naming, distinct: bool)
    requires CanDelete(s, op, x) && x.Erase? && IdOk(s, id) && OpOk(s, op) && NamedOk(s, id, n, distinct)
    ensures NamedOk(DoDelete(s, op, x), id, n, distinct)
  {
  }

  lemma TakeNames(s: State, op: Op, x: DeleteStep, id: Id, n: Naming, distinct: bool)
    requires CanDelete(s, op, x) && x.Take? && NamedOk(s, id, n, distinct)
    ensures NamedOk(DoDelete(s, op, x), id, n, distinct)
  {
  }

  lemma DeleteNames(s: State, op: Op, x: DeleteStep, id: Id, n: Naming, distinct: bool)
    requires CanDelete(s, op, x) && !x.Take? && !x.Erase? && NamedOk(s, id, n, distinct)
    ensures NamedOk(DoDelete(s, op, x), id, n, distinct)
  {
  }

  lemma ExitNames(s: State, op: Op, x: ExitStep, id: Id, n: Naming, distinct: bool)
    requires CanExit(s, op, x) && NamedOk(s, id, n, distinct)
    ensures NamedOk(DoExit(s, op, x), id, n, distinct)
  {
  }

  lemma FlushNames(s: State, op: Op, x: FlushStep, id: Id, n: Naming, distinct: bool)
    requires CanFlush(s, op, x) && NamedOk(s, id, n, distinct)
    ensures NamedOk(DoFlush(s, op, x), id, n, distinct)
  {
  }

  lemma SweepNames(s: State, op: Op, x: SweepStep, id: Id, n: Naming, distinct: bool)
    requires CanSweep(s, op, x) && NamedOk(s, id, n, distinct)
    ensures NamedOk(DoSweep(s, op, x), id, n, distinct)
  {
  }

  lemma NamesStep(s: State, a: Action, id: Id, n: Naming, distinct: bool)
    requires Inv(s) && Enabled(s, a) && NamedOk(s, id, n, distinct)
    requires distinct && Names(s, a, id) ==> s.ops[a.op].name !in n.used
    ensures NamedOk(Step(s, a), id, Track(s, a, id, n), distinct)
  {
    assert IdOk(s, id);
    match a
    case Create(op, x) =>
      match x {
        case Insert(_, _) => InsertNames(s, op, x, id, n, distinct);
        case Upsert => UpsertNames(s, op, x, id, n, distinct);
        case _ => CreateNames(s, op, x, id, n, distinct);
      }
    case Delete(op, x) =>
      match x {
        case Take(_) => TakeNames(s, op, x, id, n, distinct);
        case Erase => EraseNames(s, op, x, id, n, distinct);
        case _ => DeleteNames(s, op, x, id, n, distinct);
      }
    case Exit(op, x) => ExitNames(s, op, x, id, n, distinct);
    case Rename(op, x) => RenameNames(s, op, x, id, n, distinct);
    case Flush(op, x) => FlushNames(s, op, x, id, n, distinct);
    case Sweep(op, x) => SweepNames(s, op, x, id, n, distinct);
    case Disconnect(_, _) =>
    case Restart(_) =>
  }

  lemma {:induction false} NamesOverRuns(s: State, acts: seq<Action>, id: Id, n: Naming, distinct: bool)
    requires Inv(s) && ValidRun(s, acts) && NamedOk(s, id, n, distinct)
    requires distinct ==> NewNames(s, acts, id, n)
    ensures NamedOk(Run(s, acts), id, TrackAll(s, acts, id, n), distinct)
    decreases |acts|
  {
    if acts != [] {
      NamesStep(s, acts[0], id, n, distinct);
      StepInv(s, acts[0]);
      NamesOverRuns(Step(s, acts[0]), acts[1..], id, Track(s, acts[0], id, n), distinct);
    }
  }

  const UNNAMED := Naming({}, false, {})

  /** In every reachable state a live session and its row have the same name if the row was last written on
      behalf of the latest naming, and, unless some name was given twice, only if. */
  lemma NamesAgreeExactly(max: int, rows: Table, seen: set<Id>, acts: seq<Action>, id: Id)
    requires ValidRun(NewManager(max, rows, seen), acts)
    requires id in Run(NewManager(max, rows, seen), acts).live && id in Run(NewManager(max, rows, seen), acts).rows
    ensures id in Run(NewManager(max, rows, seen), acts).lives
    ensures var first, s := NewManager(max, rows, seen), Run(NewManager(max, rows, seen), acts);
            var current := TrackAll(first, acts, id, UNNAMED).current;
            && (current ==> s.rows[id].name == s.lives[id].name)
            && (NewNames(first, acts, id, UNNAMED) ==> (s.rows[id].name == s.lives[id].name <==> current))
  {
    var first := NewManager(max, rows, seen);
    NewManagerInv(max, rows, seen);
    RunInv(first, acts);
    NamesOverRuns(first, acts, id, UNNAMED, NewNames(first, acts, id, UNNAMED));
  }

  /** A rename that runs between the creator's look at the name and its Upsert is lost on the row. */
  lemma RenameDuringCreateIsLost(id: Id, name: string)
    ensures exists s :: Reachable(NewManager(0, map[], {}), s) && s.ops == map[] && id in s.live && id in s.lives
                        && id in s.rows && s.lives[id].name == name && s.rows[id].name == id
  {
    var first, s := NewManager(0, map[], {}), InGap(id);
    GapIsReachable(id);
    Reach(first, s, Rename(1, Find(id, name)));
    s := Step(s, Rename(1, Find(id, name)));
    Reach(first, s, Rename(1, NameLive));
    s := Step(s, Rename(1, NameLive));
    Reach(first, s, Rename(1, NameRow));
    s := Step(s, Rename(1, NameRow));
    assert s.ops == map[0 := CreateRow(id, FreshRow(id, 1, 1))] && s.rows == map[];
    Reach(first, s, Create(0, Upsert));
    assert Step(s, Create(0, Upsert)).ops == map[];
  }
}
