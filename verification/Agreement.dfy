/** Safety of the session manager over every interleaving: live map and table agree, nothing is closed or
    removed twice, deleted rows stay deleted, and a restart repairs whatever a crash left behind. */
module Agreement {
  import opened Wrappers
  import opened MetaStore
  import opened Protocol

  // ----- The invariant -----

  predicate Creating(pc: Pc, id: Id) {
    match pc
    case CreateInserted(i) => i == id
    case CreateRow(i, _) => i == id
    case _ => false
  }

  /** The operation took the session and still owes its store write. */
  predicate Owes(pc: Pc, id: Id, cause: Cause) {
    match pc
    case DeleteTaken(i, wasLive) => i == id && wasLive && cause == Deleted
    case DeleteFound(i) => i == id && cause == Deleted
    case DeleteReady(i, wasLive) => i == id && wasLive && cause == Deleted
    case ExitTaken(i) => i == id && cause == Exited
    case SweepClosed(i) => i == id && cause == Swept
    case _ => false
  }

  predicate Closed(pc: Pc) { pc.DeleteReady? || pc.SweepClosed? }

  function StatusFor(cause: Cause): Status {
    match cause
    case Exited => Dead
    case Swept => Detached
    case Deleted => Dead
  }

  /** Who still has to do what for a session: its creator until the Upsert, its taker until the store write. */
  ghost predicate Duties(s: State, id: Id)
    requires id in s.lives
  {
    var L := s.lives[id];
    && id in s.seen
    && (!L.landed ==> L.creator in s.ops && Creating(s.ops[L.creator], id))
    && (L.taker.Nobody? ==> id in s.live && !L.finished && L.closedBy == [])
    && (L.taker.Taken? && !L.finished ==>
          && L.taker.op in s.ops && Owes(s.ops[L.taker.op], id, L.taker.cause)
          && L.closedBy == (if Closed(s.ops[L.taker.op]) then [L.taker.op] else []))
    && (L.finished ==> L.taker.Taken? && L.closedBy == (if L.taker.cause == Exited then [] else [L.taker.op]))
    && (id in s.live && L.taker.Taken? ==>
          && L.taker.cause == Swept && s.holder == Some(L.taker.op) && L.taker.op in s.ops
          && (s.ops[L.taker.op] == SweepClosed(id) || s.ops[L.taker.op] == SweepMarked(id)))
  }

  /** What the session's row says, given which writes have been executed. */
  ghost predicate RowTells(s: State, id: Id)
    requires id in s.lives
  {
    var L := s.lives[id];
    && (id in s.rows <==> L.landed && !L.erased)
    && (id in s.live || !L.landed ==> !L.erased)
    && (L.late ==> L.landed && L.finished && !L.erased)
    && (id in s.rows ==>
          if !L.finished || L.late then s.rows[id].status == Running
          else L.taker.Taken? && L.taker.cause != Deleted && s.rows[id].status == StatusFor(L.taker.cause))
  }

  ghost predicate RowOk(s: State, id: Id)
    requires id in s.rows
  {
    id in s.seen && (id !in s.lives ==> s.rows[id].status != Running)
  }

  ghost predicate OpOk(s: State, op: Op)
    requires op in s.ops
  {
    match s.ops[op]
    case CreateInserted(id) => id in s.lives && s.lives[id].creator == op && !s.lives[id].landed
    case CreateRow(id, row) =>
      id in s.lives && s.lives[id].creator == op && !s.lives[id].landed && row.status == Running
    case DeleteTaken(id, wasLive) => if wasLive then OwedBy(s, id, op, Deleted) else id !in s.live && id in s.seen
    case DeleteFound(id) => OwedBy(s, id, op, Deleted)
    case DeleteReady(id, wasLive) => if wasLive then OwedBy(s, id, op, Deleted) else id !in s.live && id in s.seen
    case ExitTaken(id) => OwedBy(s, id, op, Exited)
    case RenameFound(id, _) => id in s.lives
    case FlushSizing(ids) => ids != []
    case Sweeping => s.holder == Some(op)
    case SweepClosed(id) => s.holder == Some(op) && OwedBy(s, id, op, Swept) && id in s.live
    case SweepMarked(id) => s.holder == Some(op) && id in s.live && id in s.lives
                            && s.lives[id].taker == Taken(op, Swept) && s.lives[id].finished
    case _ => true
  }

  predicate OwedBy(s: State, id: Id, op: Op, cause: Cause) {
    id in s.lives && s.lives[id].taker == Taken(op, cause) && !s.lives[id].finished
  }

  ghost predicate Inv(s: State) {
    && s.live <= s.lives.Keys
    && (forall id :: id in s.lives ==> Duties(s, id) && RowTells(s, id))
    && (forall id :: id in s.rows ==> RowOk(s, id))
    && (forall op :: op in s.ops ==> OpOk(s, op))
  }

  lemma NewManagerInv(max: int, rows: Table, seen: set<Id>)
    ensures Inv(NewManager(max, rows, seen))
  {
  }

  ghost predicate IdOk(s: State, id: Id) {
    RowsOk(s, id) && (id in s.lives ==> Duties(s, id))
  }

  ghost predicate RowsOk(s: State, id: Id) {
    && (id in s.live ==> id in s.lives)
    && (id in s.lives ==> RowTells(s, id))
    && (id in s.rows ==> RowOk(s, id))
  }

  function IdOf(pc: Pc): Option<Id> {
    match pc
    case CreateInserted(id) => Some(id)
    case CreateRow(id, _) => Some(id)
    case DeleteTaken(id, _) => Some(id)
    case DeleteFound(id) => Some(id)
    case DeleteReady(id, _) => Some(id)
    case ExitTaken(id) => Some(id)
    case RenameFound(id, _) => Some(id)
    case SweepClosed(id) => Some(id)
    case SweepMarked(id) => Some(id)
    case _ => None
  }

  predicate Concerns(pc: Pc, id: Id) { IdOf(pc) == None || IdOf(pc) == Some(id) }

  /** What one step needs to know about session id and operation op. */
  ghost predicate Local(s: State, id: Id, actor: Op) {
    IdOk(s, id) && (actor in s.ops ==> OpOk(s, actor))
  }

  // ----- Every step keeps it -----

  lemma CreateRows(s: State, op: Op, x: CreateStep, id: Id)
    requires CanCreate(s, op, x) && Local(s, id, op)
    ensures RowsOk(DoCreate(s, op, x), id)
  {
  }

  lemma InsertDuty(s: State, op: Op, x: CreateStep, id: Id)
    requires CanCreate(s, op, x) && Local(s, id, op) && x.Insert? && id in DoCreate(s, op, x).lives
    ensures Duties(DoCreate(s, op, x), id)
  {
  }

  lemma UpsertDuty(s: State, op: Op, x: CreateStep, id: Id)
    requires CanCreate(s, op, x) && Local(s, id, op) && x.Upsert? && id in DoCreate(s, op, x).lives
    ensures Duties(DoCreate(s, op, x), id)
  {
  }

  lemma CheckDuty(s: State, op: Op, x: CreateStep, id: Id)
    requires CanCreate(s, op, x) && Local(s, id, op) && !x.Insert? && !x.Upsert? && id in DoCreate(s, op, x).lives
    ensures Duties(DoCreate(s, op, x), id)
  {
  }

  lemma CreateLife(s: State, op: Op, x: CreateStep, id: Id)
    requires CanCreate(s, op, x) && Local(s, id, op)
    ensures IdOk(DoCreate(s, op, x), id)
  {
    CreateRows(s, op, x, id);
    if id in DoCreate(s, op, x).lives {
      match x
      case Insert(_, _) => InsertDuty(s, op, x, id);
      case Upsert => UpsertDuty(s, op, x, id);
      case _ => CheckDuty(s, op, x, id);
    }
  }

  lemma CreateOp(s: State, op: Op, x: CreateStep, id: Id, other: Op)
    requires CanCreate(s, op, x) && Local(s, id, op) && (other in s.ops ==> OpOk(s, other))
    requires other in DoCreate(s, op, x).ops && Concerns(DoCreate(s, op, x).ops[other], id)
    ensures OpOk(DoCreate(s, op, x), other)
  {
  }

  lemma DeleteRow(s: State, op: Op, x: DeleteStep, id: Id)
    requires CanDelete(s, op, x) && Local(s, id, op)
    ensures RowsOk(DoDelete(s, op, x), id)
  {
  }

  lemma TakeDuty(s: State, op: Op, x: DeleteStep, id: Id)
    requires CanDelete(s, op, x) && Local(s, id, op) && x.Take? && id in DoDelete(s, op, x).lives
    ensures Duties(DoDelete(s, op, x), id)
  {
  }

  lemma LookDuty(s: State, op: Op, x: DeleteStep, id: Id)
    requires CanDelete(s, op, x) && Local(s, id, op) && x.Look? && id in DoDelete(s, op, x).lives
    ensures Duties(DoDelete(s, op, x), id)
  {
  }

  lemma CloseDuty(s: State, op: Op, x: DeleteStep, id: Id)
    requires CanDelete(s, op, x) && Local(s, id, op) && (x.Close? || x.RemoveHistory?) && id in DoDelete(s, op, x).lives
    ensures Duties(DoDelete(s, op, x), id)
  {
  }

  lemma EraseDuty(s: State, op: Op, x: DeleteStep, id: Id)
    requires CanDelete(s, op, x) && Local(s, id, op) && id in DoDelete(s, op, x).lives && x.Erase?
    ensures Duties(DoDelete(s, op, x), id)
  {
  }

  lemma DeleteLife(s: State, op: Op, x: DeleteStep, id: Id)
    requires CanDelete(s, op, x) && Local(s, id, op)
    ensures IdOk(DoDelete(s, op, x), id)
  {
    DeleteRow(s, op, x, id);
    if id in DoDelete(s, op, x).lives {
      match x
      case Erase => EraseDuty(s, op, x, id);
      case Close | RemoveHistory => CloseDuty(s, op, x, id);
      case Take(_) => TakeDuty(s, op, x, id);
      case Look => LookDuty(s, op, x, id);
    }
  }

  lemma DeleterOk(s: State, op: Op, x: DeleteStep, id: Id)
    requires CanDelete(s, op, x) && Local(s, id, op)
    requires op in DoDelete(s, op, x).ops && Concerns(DoDelete(s, op, x).ops[op], id)
    ensures OpOk(DoDelete(s, op, x), op)
  {
  }

  lemma DeleteSpares(s: State, op: Op, x: DeleteStep, id: Id, other: Op)
    requires CanDelete(s, op, x) && Local(s, id, op) && other in s.ops && OpOk(s, other) && other != op
    requires other in DoDelete(s, op, x).ops && Concerns(DoDelete(s, op, x).ops[other], id)
    ensures OpOk(DoDelete(s, op, x), other)
  {
  }

  lemma DeleteOp(s: State, op: Op, x: DeleteStep, id: Id, other: Op)
    requires CanDelete(s, op, x) && Local(s, id, op) && (other in s.ops ==> OpOk(s, other))
    requires other in DoDelete(s, op, x).ops && Concerns(DoDelete(s, op, x).ops[other], id)
    ensures OpOk(DoDelete(s, op, x), other)
  {
    if other == op { DeleterOk(s, op, x, id); } else { DeleteSpares(s, op, x, id, other); }
  }

  lemma ExitLife(s: State, op: Op, x: ExitStep, id: Id)
    requires CanExit(s, op, x) && Local(s, id, op)
    ensures IdOk(DoExit(s, op, x), id)
  {
  }

  lemma ExitOp(s: State, op: Op, x: ExitStep, id: Id, other: Op)
    requires CanExit(s, op, x) && Local(s, id, op) && (other in s.ops ==> OpOk(s, other))
    requires other in DoExit(s, op, x).ops && Concerns(DoExit(s, op, x).ops[other], id)
    ensures OpOk(DoExit(s, op, x), other)
  {
  }

  lemma RenameLife(s: State, op: Op, x: RenameStep, id: Id)
    requires CanRename(s, op, x) && Local(s, id, op)
    ensures IdOk(DoRename(s, op, x), id)
  {
  }

  lemma RenameOp(s: State, op: Op, x: RenameStep, id: Id, other: Op)
    requires CanRename(s, op, x) && Local(s, id, op) && (other in s.ops ==> OpOk(s, other))
    requires other in DoRename(s, op, x).ops && Concerns(DoRename(s, op, x).ops[other], id)
    ensures OpOk(DoRename(s, op, x), other)
  {
  }

  lemma FlushLife(s: State, op: Op, x: FlushStep, id: Id)
    requires CanFlush(s, op, x) && Local(s, id, op)
    ensures IdOk(DoFlush(s, op, x), id)
  {
  }

  lemma FlushOp(s: State, op: Op, x: FlushStep, id: Id, other: Op)
    requires CanFlush(s, op, x) && Local(s, id, op) && (other in s.ops ==> OpOk(s, other))
    requires other in DoFlush(s, op, x).ops && Concerns(DoFlush(s, op, x).ops[other], id)
    ensures OpOk(DoFlush(s, op, x), other)
  {
  }

  lemma SweepRow(s: State, op: Op, x: SweepStep, id: Id)
    requires CanSweep(s, op, x) && Local(s, id, op)
    ensures RowsOk(DoSweep(s, op, x), id)
  {
  }

  lemma SweepDuty(s: State, op: Op, x: SweepStep, id: Id)
    requires CanSweep(s, op, x) && Local(s, id, op) && id in DoSweep(s, op, x).lives
    ensures Duties(DoSweep(s, op, x), id)
  {
  }

  lemma SweepLife(s: State, op: Op, x: SweepStep, id: Id)
    requires CanSweep(s, op, x) && Local(s, id, op)
    ensures IdOk(DoSweep(s, op, x), id)
  {
    SweepRow(s, op, x, id);
    if id in DoSweep(s, op, x).lives {
      SweepDuty(s, op, x, id);
    }
  }

  lemma SweepOp(s: State, op: Op, x: SweepStep, id: Id, other: Op)
    requires CanSweep(s, op, x) && Local(s, id, op) && (other in s.ops ==> OpOk(s, other))
    requires other in DoSweep(s, op, x).ops && Concerns(DoSweep(s, op, x).ops[other], id)
    ensures OpOk(DoSweep(s, op, x), other)
  {
  }

  lemma IdStep(s: State, a: Action, id: Id)
    requires Inv(s) && Enabled(s, a)
    ensures IdOk(Step(s, a), id)
  {
    assert IdOk(s, id);
    match a
    case Create(op, x) => CreateLife(s, op, x, id);
    case Delete(op, x) => DeleteLife(s, op, x, id);
    case Exit(op, x) => ExitLife(s, op, x, id);
    case Rename(op, x) => RenameLife(s, op, x, id);
    case Flush(op, x) => FlushLife(s, op, x, id);
    case Sweep(op, x) => SweepLife(s, op, x, id);
    case _ =>
  }

  lemma OpStep(s: State, a: Action, other: Op)
    requires Inv(s) && Enabled(s, a) && other in Step(s, a).ops
    ensures OpOk(Step(s, a), other)
  {
    var pc := Step(s, a).ops[other];
    var id := if IdOf(pc).Some? then IdOf(pc).value else "";
    assert IdOk(s, id);
    OpStepAt(s, a, id, other);
  }

  lemma OpStepAt(s: State, a: Action, id: Id, other: Op)
    requires Enabled(s, a) && IdOk(s, id)
    requires !a.Disconnect? && !a.Restart? && a.op in s.ops ==> OpOk(s, a.op)
    requires other in s.ops ==> OpOk(s, other)
    requires other in Step(s, a).ops && Concerns(Step(s, a).ops[other], id)
    ensures OpOk(Step(s, a), other)
  {
    match a
    case Create(op, x) => CreateOp(s, op, x, id, other);
    case Delete(op, x) => DeleteOp(s, op, x, id, other);
    case Exit(op, x) => ExitOp(s, op, x, id, other);
    case Rename(op, x) => RenameOp(s, op, x, id, other);
    case Flush(op, x) => FlushOp(s, op, x, id, other);
    case Sweep(op, x) => SweepOp(s, op, x, id, other);
    case Disconnect(_, _) => assert Step(s, a).lives == s.lives && Step(s, a).ops == s.ops;
    case Restart(_) =>
  }

  /** The invariant is kept by every step of every interleaving. */
  lemma StepInv(s: State, a: Action)
    requires Inv(s) && Enabled(s, a)
    ensures Inv(Step(s, a))
  {
    var s' := Step(s, a);
    forall id ensures IdOk(s', id) {
      IdStep(s, a, id);
    }
    forall op | op in s'.ops ensures OpOk(s', op) {
      OpStep(s, a, op);
    }
    InvFromParts(s');
  }

  lemma InvFromParts(s: State)
    requires forall id :: IdOk(s, id)
    requires forall op :: op in s.ops ==> OpOk(s, op)
    ensures Inv(s)
  {
    assert forall id :: id in s.live ==> IdOk(s, id);
    assert forall id :: id in s.lives ==> IdOk(s, id);
    assert forall id :: id in s.rows ==> IdOk(s, id);
  }

  lemma {:induction false} RunInv(s: State, acts: seq<Action>)
    requires Inv(s) && ValidRun(s, acts)
    ensures Inv(Run(s, acts))
    decreases |acts|
  {
    if acts != [] {
      StepInv(s, acts[0]);
      RunInv(Step(s, acts[0]), acts[1..]);
    }
  }

  /** Every id in the map or the table has been seen. */
  lemma IdIsSeen(s: State, id: Id)
    requires Inv(s)
    ensures id in s.live || id in s.rows || id in s.lives ==> id in s.seen
  {
    assert IdOk(s, id);
  }
}
