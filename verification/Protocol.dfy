/** The session manager as a step system. Every region the manager runs under its mutex is one step and every
    store call is one step; operations in flight are program counters, so any interleaving is a run.
    The `lives` component is bookkeeping: it records, for each session of this process, who created it, who took
    responsibility for ending it, and in which order the writes about it reached the store. */
module Protocol {
  import opened Wrappers
  import opened MetaStore

  type Op = nat

  datatype Pc =
    | CreateChecked                          // the limit check has passed, nothing is inserted yet
    | CreateInserted(id: Id)                 // in the map, the row not built yet
    | CreateRow(id: Id, row: Row)            // the row is built, not upserted yet
    | DeleteTaken(id: Id, wasLive: bool)     // the map region is over
    | DeleteFound(id: Id)                    // was live: Close comes next
    | DeleteReady(id: Id, wasLive: bool)     // the row deletion comes next
    | DeleteErased(id: Id)                   // the history file goes last
    | ExitTaken(id: Id)                      // removed by process exit, "dead" not written yet
    | RenameFound(id: Id, name: string)      // live: the session's own name comes first
    | RenameStore(id: Id, name: string)
    | Flushing(ids: seq<Id>)
    | FlushSizing(ids: seq<Id>)              // activity of the first id written, size comes next
    | Sweeping                               // CloseAll, at the head of its loop under the mutex
    | SweepClosed(id: Id)
    | SweepMarked(id: Id)

  datatype Cause = Exited | Deleted | Swept

  datatype Taker = Nobody | Taken(op: Op, cause: Cause)

  /** landed: the Upsert has been executed. finished: the taker has executed its store write.
      late: the row stems from an Upsert executed after the taker's write.
      erased: the row has been deleted since the Upsert. closedBy: the calls of Close. */
  datatype Life = Life(creator: Op, name: string, landed: bool, taker: Taker, finished: bool, late: bool,
                       erased: bool, closedBy: seq<Op>)

  datatype State = State(max: int, live: set<Id>, rows: Table, ops: map<Op, Pc>, holder: Option<Op>,
                         lives: map<Id, Life>, seen: set<Id>)

  datatype CreateStep = Check | Abort | Insert(id: Id, name: string) | ReadMeta(created: int, activity: int) | Upsert

  datatype DeleteStep = Take(id: Id) | Look | Close | Erase | RemoveHistory

  datatype ExitStep = Leave(id: Id) | MarkDead

  datatype RenameStep = Find(id: Id, name: string) | NameLive | NameRow

  datatype FlushStep = Snapshot(ids: seq<Id>) | SetActivity(ts: int) | SetSize(cols: int, rows: int) | Stop

  datatype SweepStep = Lock | CloseOne(id: Id) | MarkOne | DropOne | Unlock

  /** One step of one operation, a detach or attach callback, or the death and rebirth of the process. */
  datatype Action =
    | Create(op: Op, create: CreateStep)
    | Delete(op: Op, del: DeleteStep)
    | Exit(op: Op, exit: ExitStep)
    | Rename(op: Op, rename: RenameStep)
    | Flush(op: Op, flush: FlushStep)
    | Sweep(op: Op, sweep: SweepStep)
    | Disconnect(id: Id, ts: int)
    | Restart(max: int)

  function Goto(s: State, op: Op, pc: Pc): State { s.(ops := s.ops[op := pc]) }

  function End(s: State, op: Op): State { s.(ops := s.ops - {op}) }

  function Note(s: State, id: Id, life: Life): State { s.(lives := s.lives[id := life]) }

  function FreshRow(name: string, created: int, activity: int): Row {
    Row(name, created, activity, created, 0, 0, Running)
  }

  /** The mutex can be taken: CloseAll is not holding it. */
  predicate Free(s: State) { s.holder.None? }

  // ----- Create -----

  /** An id given to a new session has not been seen before, neither as a session nor in a request. */
  predicate CanCreate(s: State, op: Op, c: CreateStep) {
    match c
    case Check => op !in s.ops && (s.max > 0 ==> Free(s) && |s.live| < s.max)
    case Abort => op in s.ops && s.ops[op].CreateChecked?
    case Insert(id, _) => op in s.ops && s.ops[op].CreateChecked? && Free(s) && id !in s.seen
    case ReadMeta(_, _) => op in s.ops && s.ops[op].CreateInserted? && s.ops[op].id in s.lives
    case Upsert => op in s.ops && s.ops[op].CreateRow? && s.ops[op].id in s.lives
  }

  function DoCreate(s: State, op: Op, c: CreateStep): State
    requires CanCreate(s, op, c)
  {
    match c
    case Check => Goto(s, op, CreateChecked)
    case Abort => End(s, op)
    case Insert(id, name) =>
      var life := Life(op, NameFor(id, name), false, Nobody, false, false, false, []);
      Goto(Note(s, id, life), op, CreateInserted(id)).(live := s.live + {id}, seen := s.seen + {id})
    case ReadMeta(created, activity) =>
      var id := s.ops[op].id;
      Goto(s, op, CreateRow(id, FreshRow(s.lives[id].name, created, activity)))
    case Upsert =>
      var CreateRow(id, row) := s.ops[op];
      var life := s.lives[id];
      End(Note(s, id, life.(landed := true, late := life.finished, erased := false)), op)
        .(rows := Upserted(s.rows, id, row))
  }

  // ----- Delete (also the reaper's way of ending a session) -----

  predicate CanDelete(s: State, op: Op, d: DeleteStep) {
    match d
    case Take(id) => op !in s.ops && Free(s) && (id in s.live ==> id in s.lives)
    case Look => op in s.ops && s.ops[op].DeleteTaken?
    case Close => op in s.ops && s.ops[op].DeleteFound? && s.ops[op].id in s.lives
    case Erase => op in s.ops && s.ops[op].DeleteReady?
    case RemoveHistory => op in s.ops && s.ops[op].DeleteErased?
  }

  function DoDelete(s: State, op: Op, d: DeleteStep): State
    requires CanDelete(s, op, d)
  {
    match d
    case Take(id) =>
      var s' := s.(seen := s.seen + {id});
      if id in s.live then
        Goto(Note(s', id, s.lives[id].(taker := Taken(op, Deleted))), op, DeleteTaken(id, true)).(live := s.live - {id})
      else
        Goto(s', op, DeleteTaken(id, false))
    case Look =>
      var DeleteTaken(id, wasLive) := s.ops[op];
      if wasLive then Goto(s, op, DeleteFound(id))
      else if id in s.rows then Goto(s, op, DeleteReady(id, false))
      else End(s, op)
    case Close =>
      var id := s.ops[op].id;
      var life := s.lives[id];
      Goto(Note(s, id, life.(closedBy := life.closedBy + [op])), op, DeleteReady(id, true))
    case Erase =>
      var DeleteReady(id, wasLive) := s.ops[op];
      Goto(NoteErased(s, id, wasLive), op, DeleteErased(id)).(rows := s.rows - {id})
    case RemoveHistory => End(s, op)
  }

  function NoteErased(s: State, id: Id, byTaker: bool): State {
    if id in s.lives
    then var life := s.lives[id];
         Note(s, id, life.(finished := life.finished || byTaker, late := false, erased := life.landed))
    else s
  }

  // ----- Process exit -----

  predicate CanExit(s: State, op: Op, x: ExitStep) {
    match x
    case Leave(id) => op !in s.ops && Free(s) && (id in s.live ==> id in s.lives)
    case MarkDead => op in s.ops && s.ops[op].ExitTaken? && s.ops[op].id in s.lives
  }

  function DoExit(s: State, op: Op, x: ExitStep): State
    requires CanExit(s, op, x)
  {
    match x
    case Leave(id) =>
      if id in s.live then
        Goto(Note(s, id, s.lives[id].(taker := Taken(op, Exited))), op, ExitTaken(id)).(live := s.live - {id})
      else s
    case MarkDead =>
      var id := s.ops[op].id;
      End(Note(s, id, s.lives[id].(finished := true)), op).(rows := WithStatus(s.rows, id, Dead))
  }

  // ----- Rename -----

  predicate CanRename(s: State, op: Op, r: RenameStep) {
    match r
    case Find(_, _) => op !in s.ops && Free(s)
    case NameLive => op in s.ops && s.ops[op].RenameFound? && s.ops[op].id in s.lives
    case NameRow => op in s.ops && s.ops[op].RenameStore?
  }

  function DoRename(s: State, op: Op, r: RenameStep): State
    requires CanRename(s, op, r)
  {
    match r
    case Find(id, name) =>
      Goto(s, op, if id in s.live && id in s.lives then RenameFound(id, name) else RenameStore(id, name))
        .(seen := s.seen + {id})
    case NameLive =>
      var RenameFound(id, name) := s.ops[op];
      Goto(Note(s, id, s.lives[id].(name := name)), op, RenameStore(id, name))
    case NameRow => End(s, op).(rows := WithName(s.rows, s.ops[op].id, s.ops[op].name))
  }

  // ----- Flush -----

  predicate CanFlush(s: State, op: Op, f: FlushStep) {
    match f
    case Snapshot(ids) => op !in s.ops && Free(s) && (set id | id in ids) == s.live
    case SetActivity(_) => op in s.ops && s.ops[op].Flushing? && s.ops[op].ids != []
    case SetSize(_, _) => op in s.ops && s.ops[op].FlushSizing? && s.ops[op].ids != []
    case Stop => op in s.ops && s.ops[op] == Flushing([])
  }

  function DoFlush(s: State, op: Op, f: FlushStep): State
    requires CanFlush(s, op, f)
  {
    match f
    case Snapshot(ids) => Goto(s, op, Flushing(ids))
    case SetActivity(ts) =>
      var ids := s.ops[op].ids;
      Goto(s, op, FlushSizing(ids)).(rows := WithActivity(s.rows, ids[0], ts))
    case SetSize(cols, rows) =>
      var ids := s.ops[op].ids;
      Goto(s, op, Flushing(ids[1..]))
        .(rows := if cols > 0 && rows > 0 then WithSize(s.rows, ids[0], cols, rows) else s.rows)
    case Stop => End(s, op)
  }

  // ----- CloseAll, after its flush: the whole loop runs under the mutex -----

  predicate CanSweep(s: State, op: Op, w: SweepStep) {
    match w
    case Lock => op !in s.ops && Free(s)
    case CloseOne(id) => op in s.ops && s.ops[op].Sweeping? && id in s.live && id in s.lives
    case MarkOne => op in s.ops && s.ops[op].SweepClosed? && s.ops[op].id in s.lives
    case DropOne => op in s.ops && s.ops[op].SweepMarked?
    case Unlock => op in s.ops && s.ops[op].Sweeping? && s.live == {}
  }

  function DoSweep(s: State, op: Op, w: SweepStep): State
    requires CanSweep(s, op, w)
  {
    match w
    case Lock => Goto(s, op, Sweeping).(holder := Some(op))
    case CloseOne(id) =>
      var life := s.lives[id];
      Goto(Note(s, id, life.(taker := Taken(op, Swept), closedBy := life.closedBy + [op])), op, SweepClosed(id))
    case MarkOne =>
      var id := s.ops[op].id;
      Goto(Note(s, id, s.lives[id].(finished := true)), op, SweepMarked(id)).(rows := WithStatus(s.rows, id, Detached))
    case DropOne => Goto(s, op, Sweeping).(live := s.live - {s.ops[op].id})
    case Unlock => End(s, op).(holder := None)
  }

  // ----- All steps -----

  predicate Enabled(s: State, a: Action) {
    match a
    case Create(op, c) => CanCreate(s, op, c)
    case Delete(op, d) => CanDelete(s, op, d)
    case Exit(op, x) => CanExit(s, op, x)
    case Rename(op, r) => CanRename(s, op, r)
    case Flush(op, f) => CanFlush(s, op, f)
    case Sweep(op, w) => CanSweep(s, op, w)
    case Disconnect(_, _) => true
    case Restart(_) => true
  }

  function Step(s: State, a: Action): State
    requires Enabled(s, a)
  {
    match a
    case Create(op, c) => DoCreate(s, op, c)
    case Delete(op, d) => DoDelete(s, op, d)
    case Exit(op, x) => DoExit(s, op, x)
    case Rename(op, r) => DoRename(s, op, r)
    case Flush(op, f) => DoFlush(s, op, f)
    case Sweep(op, w) => DoSweep(s, op, w)
    case Disconnect(id, ts) => s.(rows := WithDisconnect(s.rows, id, ts))
    case Restart(max) => NewManager(max, s.rows, s.seen)
  }

  /** A fresh process over an existing table: whatever was running is marked detached. */
  function NewManager(max: int, rows: Table, seen: set<Id>): State {
    State(max, {}, AllDetached(rows), map[], None, map[], seen + rows.Keys)
  }

  predicate ValidRun(s: State, acts: seq<Action>)
    decreases |acts|
  {
    acts == [] || (Enabled(s, acts[0]) && ValidRun(Step(s, acts[0]), acts[1..]))
  }

  function Run(s: State, acts: seq<Action>): State
    requires ValidRun(s, acts)
    decreases |acts|
  {
    if acts == [] then s else Run(Step(s, acts[0]), acts[1..])
  }

  lemma {:induction false} RunAppend(s: State, x: seq<Action>, y: seq<Action>)
    requires ValidRun(s, x)
    ensures ValidRun(s, x + y) <==> ValidRun(Run(s, x), y)
    ensures ValidRun(s, x + y) ==> Run(s, x + y) == Run(Run(s, x), y)
    decreases |x|
  {
    if x == [] {
      assert x + y == y;
    } else {
      assert (x + y)[0] == x[0] && (x + y)[1..] == x[1..] + y;
      RunAppend(Step(s, x[0]), x[1..], y);
    }
  }
}
