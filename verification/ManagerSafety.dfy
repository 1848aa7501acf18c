/** What the invariant of the session manager means for whole runs. */
module ManagerSafety {
  import opened Wrappers
  import opened MetaStore
  import opened Protocol
  import opened Agreement

  /** No operation in flight still has to write, close or drop anything for the session. */
  ghost predicate Settled(s: State, id: Id) {
    forall op :: op in s.ops ==>
      !Creating(s.ops[op], id) && (forall cause :: !Owes(s.ops[op], id, cause)) && s.ops[op] != SweepMarked(id)
  }

  /** Live map and table tell the same story about the session. */
  predicate Agrees(s: State, id: Id) {
    id in s.live <==> id in s.rows && s.rows[id].status == Running
  }

  predicate Late(s: State, id: Id) {
    id in s.lives && s.lives[id].late
  }

  /** Some run of the server, from its start on some table, leads here. */
  ghost predicate Arises(s: State) {
    exists max, rows, seen, acts ::
      ValidRun(NewManager(max, rows, seen), acts) && Run(NewManager(max, rows, seen), acts) == s
  }

  lemma ArisesInv(s: State)
    requires Arises(s)
    ensures Inv(s)
  {
    var max, rows, seen, acts :|
      ValidRun(NewManager(max, rows, seen), acts) && Run(NewManager(max, rows, seen), acts) == s;
    NewManagerInv(max, rows, seen);
    RunInv(NewManager(max, rows, seen), acts);
  }

  /** Live with a row, gone without one, or gone with a row that names the end: dead or detached. */
  predicate TellsEnd(s: State, id: Id)
    requires id in s.lives
  {
    match s.lives[id].taker
    case Nobody => id in s.live && id in s.rows
    case Taken(_, Deleted) => id !in s.live && id !in s.rows
    case Taken(_, cause) =>
      && id !in s.live
      && (if s.lives[id].erased then id !in s.rows
          else id in s.rows && s.rows[id].status == (if cause == Exited then Dead else Detached))
  }

  lemma SettledAgrees(s: State, id: Id)
    requires Inv(s) && Settled(s, id)
    ensures Agrees(s, id) <==> !Late(s, id)
    ensures id in s.lives && !Late(s, id) ==> TellsEnd(s, id)
  {
    assert IdOk(s, id);
    if id in s.lives {
      var L := s.lives[id];
      if L.taker.Taken? && L.taker.op in s.ops {
        assert !Owes(s.ops[L.taker.op], id, L.taker.cause) && s.ops[L.taker.op] != SweepMarked(id);
      }
    }
  }

  /** Exactly when map and table agree: unless the row comes from an Upsert that was executed after the
      session's remover had already done its store write. Otherwise the row names how the session ended. */
  lemma AgreementExact(s: State, id: Id)
    requires Arises(s) && Settled(s, id)
    ensures Agrees(s, id) <==> !Late(s, id)
    ensures id in s.lives && !Late(s, id) ==> TellsEnd(s, id)
  {
    ArisesInv(s);
    SettledAgrees(s, id);
  }

  // ----- Upserts that land in time -----

  predicate NoRestart(acts: seq<Action>) {
    forall i :: 0 <= i < |acts| ==> !acts[i].Restart?
  }

  predicate InTime(s: State, id: Id) {
    id in s.lives && s.lives[id].landed && !s.lives[id].late
  }

  lemma {:induction false} InTimeStays(s: State, acts: seq<Action>, id: Id)
    requires Inv(s) && ValidRun(s, acts) && NoRestart(acts) && InTime(s, id)
    ensures InTime(Run(s, acts), id)
    decreases |acts|
  {
    if acts != [] {
      assert IdOk(s, id) && ActorOk(s, acts[0]);
      InTimeStep(s, acts[0], id);
      StepInv(s, acts[0]);
      InTimeStays(Step(s, acts[0]), acts[1..], id);
    }
  }

  lemma InTimeStep(s: State, a: Action, id: Id)
    requires Enabled(s, a) && !a.Restart? && InTime(s, id) && ActorOk(s, a) && id in s.seen
    ensures InTime(Step(s, a), id)
  {
  }

  /** What is known about a creator before its next step. */
  ghost predicate ActorOk(s: State, a: Action) {
    a.Create? && a.op in s.ops ==> OpOk(s, a.op)
  }

  /** A session whose Upsert is executed before its remover's write agrees with its row in every later
      settled state: live and running, or gone and dead, detached or deleted according to who removed it. */
  lemma LandedInTimeAgrees(s: State, acts: seq<Action>, id: Id)
    requires Arises(s) && id in s.lives && s.lives[id].landed && !s.lives[id].finished
    requires ValidRun(s, acts) && NoRestart(acts) && Settled(Run(s, acts), id)
    ensures Agrees(Run(s, acts), id)
  {
    ArisesInv(s);
    assert IdOk(s, id);
    InTimeStays(s, acts, id);
    RunInv(s, acts);
    SettledAgrees(Run(s, acts), id);
  }

  /** In particular it is enough that the Upsert is executed while the session is in the map, unless a
      shutdown is under way. */
  lemma LandedWhileLiveAgrees(s: State, acts: seq<Action>, id: Id)
    requires Arises(s) && id in s.live && s.holder.None? && (id in s.lives ==> s.lives[id].landed)
    requires ValidRun(s, acts) && NoRestart(acts) && Settled(Run(s, acts), id)
    ensures Agrees(Run(s, acts), id)
  {
    ArisesInv(s);
    assert IdOk(s, id);
    LandedInTimeAgrees(s, acts, id);
  }

  /** The step executes the Upsert of the session. */
  predicate Upserts(s: State, a: Action, id: Id)
    requires Enabled(s, a)
  {
    a.Create? && a.create.Upsert? && s.ops[a.op].id == id
  }

  /** The step executes the store write of the operation that removed the session. */
  predicate Finishes(s: State, a: Action, id: Id)
    requires Enabled(s, a)
  {
    || (a.Exit? && a.exit.MarkDead? && s.ops[a.op].id == id)
    || (a.Sweep? && a.sweep.MarkOne? && s.ops[a.op].id == id)
    || (a.Delete? && a.del.Erase? && s.ops[a.op] == DeleteReady(id, true))
  }

  /** The bookkeeping about a session says which of these have happened. */
  lemma RecordsWrites(s: State, a: Action, id: Id)
    requires Enabled(s, a) && !a.Restart? && id in s.lives && id in s.seen
    ensures id in Step(s, a).lives
    ensures Step(s, a).lives[id].landed <==> s.lives[id].landed || Upserts(s, a, id)
    ensures Step(s, a).lives[id].finished <==> s.lives[id].finished || Finishes(s, a, id)
  {
    match a
    case Create(op, x) => CreateRecords(s, op, x, id);
    case Delete(op, x) => DeleteRecords(s, op, x, id);
    case Sweep(op, x) => SweepRecords(s, op, x, id);
    case _ =>
  }

  lemma CreateRecords(s: State, op: Op, x: CreateStep, id: Id)
    requires CanCreate(s, op, x) && id in s.lives && id in s.seen
    ensures var a, t := Create(op, x), DoCreate(s, op, x);
            && id in t.lives && t.lives[id].finished == s.lives[id].finished
            && (t.lives[id].landed <==> s.lives[id].landed || Upserts(s, a, id))
  {
  }

  lemma DeleteRecords(s: State, op: Op, x: DeleteStep, id: Id)
    requires CanDelete(s, op, x) && id in s.lives
    ensures var a, t := Delete(op, x), DoDelete(s, op, x);
            && id in t.lives && t.lives[id].landed == s.lives[id].landed
            && (t.lives[id].finished <==> s.lives[id].finished || Finishes(s, a, id))
  {
  }

  lemma SweepRecords(s: State, op: Op, x: SweepStep, id: Id)
    requires CanSweep(s, op, x) && id in s.lives
    ensures var a, t := Sweep(op, x), DoSweep(s, op, x);
            && id in t.lives && t.lives[id].landed == s.lives[id].landed
            && (t.lives[id].finished <==> s.lives[id].finished || Finishes(s, a, id))
  {
  }

  /** What "late" records: it appears with an Upsert executed after the remover's write, and it goes away
      with the deletion of the row or a restart, in no other way. */
  lemma LateIsUpsertAfterWrite(s: State, a: Action, id: Id)
    requires Enabled(s, a) && IdOk(s, id) && ActorOk(s, a)
    ensures !Late(s, id) ==> (Late(Step(s, a), id) <==>
              Upserts(s, a, id) && s.lives[id].finished)
    ensures Late(s, id) ==> (!Late(Step(s, a), id) <==>
              a.Restart? || (a.Delete? && a.del.Erase? && s.ops[a.op].id == id))
  {
  }

  // ----- Removal and Close happen once -----

  function Departures(s: State, acts: seq<Action>, id: Id): nat
    requires ValidRun(s, acts)
    decreases |acts|
  {
    if acts == [] then 0
    else (if id in s.live && id !in Step(s, acts[0]).live then 1 else 0) + Departures(Step(s, acts[0]), acts[1..], id)
  }

  lemma LiveStep(s: State, a: Action, id: Id)
    requires Inv(s) && Enabled(s, a)
    ensures id in s.seen ==> id in Step(s, a).seen
    ensures id in s.seen && id !in s.live ==> id !in Step(s, a).live
    ensures id in s.live ==> id in s.seen
  {
    assert IdOk(s, id);
  }

  /** Each session leaves the live map at most once, over any number of restarts. */
  lemma {:induction false} LeavesOnce(s: State, acts: seq<Action>, id: Id)
    requires Inv(s) && ValidRun(s, acts)
    ensures Departures(s, acts, id) <= 1
    ensures id in s.seen && id !in s.live ==> Departures(s, acts, id) == 0 && id !in Run(s, acts).live
    decreases |acts|
  {
    if acts != [] {
      LiveStep(s, acts[0], id);
      StepInv(s, acts[0]);
      LeavesOnce(Step(s, acts[0]), acts[1..], id);
    }
  }

  /** Close is called at most once per session, only by the operation that took it out of service, never
      after an exit, and always by the time a delete or a shutdown of it is over. */
  lemma ClosedOnce(s: State, id: Id)
    requires Arises(s) && id in s.lives
    ensures var L := s.lives[id];
            && |L.closedBy| <= 1
            && (L.closedBy != [] ==> L.taker.Taken? && L.taker.cause != Exited && L.closedBy == [L.taker.op])
            && (Settled(s, id) && id !in s.live ==>
                  L.taker.Taken? && (L.taker.cause != Exited ==> L.closedBy == [L.taker.op]))
  {
    ArisesInv(s);
    assert IdOk(s, id);
    var L := s.lives[id];
    if L.taker.Taken? && !L.finished {
      assert Owes(s.ops[L.taker.op], id, L.taker.cause);
    }
  }

  /** The step calls Close on the session. */
  predicate Closes(s: State, a: Action, id: Id)
    requires Enabled(s, a)
  {
    || (a.Delete? && a.del.Close? && s.ops[a.op].id == id)
    || (a.Sweep? && a.sweep == CloseOne(id))
  }

  function CloseCalls(s: State, acts: seq<Action>, id: Id): nat
    requires ValidRun(s, acts)
    decreases |acts|
  {
    if acts == [] then 0
    else (if Closes(s, acts[0], id) then 1 else 0) + CloseCalls(Step(s, acts[0]), acts[1..], id)
  }

  /** How often the session may still be closed. */
  function ClosesLeft(s: State, id: Id): nat {
    if id in s.lives then (if s.lives[id].closedBy == [] then 1 else 0) else if id in s.seen then 0 else 1
  }

  lemma ClosesLeftStep(s: State, a: Action, id: Id)
    requires Enabled(s, a) && IdOk(s, id)
    requires a.Delete? || a.Sweep? ==> a.op in s.ops ==> OpOk(s, a.op)
    ensures ClosesLeft(Step(s, a), id) + (if Closes(s, a, id) then 1 else 0) <= ClosesLeft(s, id)
  {
  }

  /** Over any run, restarts included, Close is called at most once on a session. */
  lemma {:induction false} ClosedAtMostOnce(s: State, acts: seq<Action>, id: Id)
    requires Inv(s) && ValidRun(s, acts)
    ensures CloseCalls(s, acts, id) <= ClosesLeft(s, id) <= 1
    decreases |acts|
  {
    if acts != [] {
      assert IdOk(s, id);
      ClosesLeftStep(s, acts[0], id);
      StepInv(s, acts[0]);
      ClosedAtMostOnce(Step(s, acts[0]), acts[1..], id);
    }
  }

  /** From the start of the server on any table. */
  lemma EndsOnce(max: int, rows: Table, seen: set<Id>, acts: seq<Action>, id: Id)
    requires ValidRun(NewManager(max, rows, seen), acts)
    ensures Departures(NewManager(max, rows, seen), acts, id) <= 1
    ensures CloseCalls(NewManager(max, rows, seen), acts, id) <= 1
  {
    NewManagerInv(max, rows, seen);
    LeavesOnce(NewManager(max, rows, seen), acts, id);
    ClosedAtMostOnce(NewManager(max, rows, seen), acts, id);
  }

  // ----- Deleted rows stay deleted -----

  predicate Gone(s: State, id: Id) {
    id in s.seen && id !in s.rows && (id in s.lives ==> s.lives[id].landed)
  }

  lemma GoneStep(s: State, a: Action, id: Id)
    requires Enabled(s, a) && Gone(s, id) && ActorOk(s, a)
    ensures Gone(Step(s, a), id)
  {
  }

  lemma {:induction false} GoneStays(s: State, acts: seq<Action>, id: Id)
    requires Inv(s) && ValidRun(s, acts) && Gone(s, id)
    ensures id !in Run(s, acts).rows
    decreases |acts|
  {
    if acts != [] {
      assert ActorOk(s, acts[0]);
      GoneStep(s, acts[0], id);
      StepInv(s, acts[0]);
      GoneStays(Step(s, acts[0]), acts[1..], id);
    }
  }

  /** A row deleted after its Upsert never reappears, whatever else runs and however often the server restarts. */
  lemma DeletedStaysDeleted(s: State, op: Op, acts: seq<Action>)
    requires Arises(s) && Enabled(s, Delete(op, Erase))
    requires var id := s.ops[op].id; id in s.lives ==> s.lives[id].landed
    requires ValidRun(Step(s, Delete(op, Erase)), acts)
    ensures s.ops[op].id !in Run(Step(s, Delete(op, Erase)), acts).rows
  {
    var s' := Step(s, Delete(op, Erase));
    ArisesInv(s);
    assert OpOk(s, op);
    assert IdOk(s, s.ops[op].id);
    StepInv(s, Delete(op, Erase));
    assert Gone(s', s.ops[op].id);
    GoneStays(s', acts, s.ops[op].id);
  }

  // ----- Crash and restart -----

  /** The id belongs to an earlier process: not live, not running, and never handed out again. */
  predicate Past(s: State, id: Id) {
    id in s.seen && id !in s.lives && id !in s.live && (id in s.rows ==> s.rows[id].status != Running)
  }

  lemma PastStep(s: State, a: Action, id: Id)
    requires Enabled(s, a) && Past(s, id)
    ensures Past(Step(s, a), id)
    ensures id in Step(s, a).rows ==> id in s.rows && SameEnd(s.rows[id], Step(s, a).rows[id])
  {
  }

  /** The columns that end with the session. */
  predicate SameEnd(r: Row, q: Row) {
    r.status == q.status && r.createdAt == q.createdAt
  }

  lemma {:induction false} PastStaysPast(s: State, acts: seq<Action>, id: Id)
    requires ValidRun(s, acts) && Past(s, id)
    ensures Past(Run(s, acts), id)
    ensures id in Run(s, acts).rows ==> id in s.rows && SameEnd(s.rows[id], Run(s, acts).rows[id])
    decreases |acts|
  {
    if acts != [] {
      PastStep(s, acts[0], id);
      PastStaysPast(Step(s, acts[0]), acts[1..], id);
    }
  }

  /** Crash in any state and start again on the same table: nothing is live, nothing is running, no row and
      no column other than status is touched, ended sessions keep their status, and map and table agree about
      every id. */
  lemma RestartRepairs(crashed: State, max: int)
    ensures var s := Step(crashed, Restart(max));
            && s.live == {} && s.ops == map[]
            && s.rows.Keys == crashed.rows.Keys
            && (forall id :: id in s.rows ==>
                  && s.rows[id].status != Running
                  && s.rows[id].(status := crashed.rows[id].status) == crashed.rows[id]
                  && (crashed.rows[id].status == Running ==> s.rows[id].status == Detached)
                  && (crashed.rows[id].status != Running ==> s.rows[id] == crashed.rows[id]))
            && (forall id :: Agrees(s, id) && Settled(s, id))
  {
  }

  /** And it stays repaired: whatever runs afterwards, restarts included, no session of before the crash is
      ever live or running again, its row keeps the status it was given, and a deleted row stays away. */
  lemma RestartSettlesThePast(crashed: State, max: int, acts: seq<Action>, id: Id)
    requires id in crashed.seen || id in crashed.rows
    requires ValidRun(Step(crashed, Restart(max)), acts)
    ensures var s, t := Step(crashed, Restart(max)), Run(Step(crashed, Restart(max)), acts);
            && id !in t.live
            && (id in t.rows ==>
                  && id in crashed.rows
                  && (crashed.rows[id].status == Running ==> t.rows[id].status == Detached)
                  && (crashed.rows[id].status != Running ==> t.rows[id].status == crashed.rows[id].status)
                  && t.rows[id].createdAt == crashed.rows[id].createdAt)
  {
    PastStaysPast(Step(crashed, Restart(max)), acts, id);
  }

  // ----- What happens outside the condition -----

  ghost predicate Reachable(first: State, s: State) {
    exists acts :: ValidRun(first, acts) && Run(first, acts) == s
  }

  lemma Reach(first: State, s: State, a: Action)
    requires Reachable(first, s) && Enabled(s, a)
    ensures Reachable(first, Step(s, a))
  {
    var acts :| ValidRun(first, acts) && Run(first, acts) == s;
    assert [a][0] == a && [a][1..] == [];
    assert ValidRun(Step(s, a), []) && Run(Step(s, a), []) == Step(s, a);
    RunAppend(first, acts, [a]);
  }

  /** A session in the map whose row is built but not upserted yet, nothing else going on. */
  function InGap(id: Id): State {
    State(0, {id}, map[], map[0 := CreateRow(id, FreshRow(id, 1, 1))], None,
          map[id := Life(0, id, false, Nobody, false, false, false, [])], {id})
  }

  lemma GapIsReachable(id: Id)
    ensures Reachable(NewManager(0, map[], {}), InGap(id))
  {
    var first := NewManager(0, map[], {});
    assert ValidRun(first, []) && Run(first, []) == first;
    Reach(first, first, Create(0, Check));
    var s := Step(first, Create(0, Check));
    Reach(first, s, Create(0, Insert(id, "")));
    s := Step(s, Create(0, Insert(id, "")));
    Reach(first, s, Create(0, ReadMeta(1, 1)));
    assert Step(s, Create(0, ReadMeta(1, 1))) == InGap(id);
  }

  /** An orphan: nothing is in flight, no session is live, and the row says running. */
  predicate Orphan(s: State, id: Id) {
    s.ops == map[] && s.live == {} && id in s.rows && s.rows[id].status == Running
  }

  /** An exit in the gap between map insertion and Upsert leaves an orphan. */
  lemma ExitInGapLeavesOrphan(id: Id)
    ensures exists s :: Reachable(NewManager(0, map[], {}), s) && Orphan(s, id)
  {
    var first, s := NewManager(0, map[], {}), InGap(id);
    GapIsReachable(id);
    Reach(first, s, Exit(1, Leave(id)));
    s := Step(s, Exit(1, Leave(id)));
    Reach(first, s, Exit(1, MarkDead));
    s := Step(s, Exit(1, MarkDead));
    Reach(first, s, Create(0, Upsert));
    assert Orphan(Step(s, Create(0, Upsert)), id);
  }

  /** The same session while a shutdown holds the mutex. */
  function SweepInGap(id: Id, pc: Pc, life: Life): State {
    InGap(id).(ops := map[0 := CreateRow(id, FreshRow(id, 1, 1)), 1 := pc], holder := Some(1), lives := map[id := life])
  }

  function SweptLife(id: Id): Life { Life(0, id, false, Taken(1, Swept), false, false, false, [1]) }

  lemma SweepStepsInGap(id: Id)
    ensures var s := SweepInGap(id, Sweeping, InGap(id).lives[id]);
            Enabled(InGap(id), Sweep(1, Lock)) && Step(InGap(id), Sweep(1, Lock)) == s
    ensures var s := SweepInGap(id, Sweeping, InGap(id).lives[id]);
            && Enabled(s, Sweep(1, CloseOne(id)))
            && Step(s, Sweep(1, CloseOne(id))) == SweepInGap(id, SweepClosed(id), SweptLife(id))
  {
    assert InGap(id).lives[id].closedBy + [1] == [1];
  }

  lemma MarkStepInGap(id: Id)
    ensures var s := SweepInGap(id, SweepClosed(id), SweptLife(id));
            && Enabled(s, Sweep(1, MarkOne))
            && Step(s, Sweep(1, MarkOne)) == SweepInGap(id, SweepMarked(id), SweptLife(id).(finished := true))
  {
  }

  lemma SweptGapIsReachable(id: Id)
    ensures Reachable(NewManager(0, map[], {}), SweepInGap(id, SweepMarked(id), SweptLife(id).(finished := true)))
  {
    var first := NewManager(0, map[], {});
    GapIsReachable(id);
    SweepStepsInGap(id);
    MarkStepInGap(id);
    Reach(first, InGap(id), Sweep(1, Lock));
    Reach(first, SweepInGap(id, Sweeping, InGap(id).lives[id]), Sweep(1, CloseOne(id)));
    Reach(first, SweepInGap(id, SweepClosed(id), SweptLife(id)), Sweep(1, MarkOne));
  }

  /** CloseAll writes "detached" before it drops the session from the map, so an Upsert in between leaves
      an orphan although it was executed while the session was still in the map. */
  lemma UpsertDuringCloseAllLeavesOrphan(id: Id)
    ensures exists landed, s :: Reachable(NewManager(0, map[], {}), landed) && Reachable(landed, s)
                                && id in landed.live && id in landed.rows && Orphan(s, id)
  {
    var first := NewManager(0, map[], {});
    var s := SweepInGap(id, SweepMarked(id), SweptLife(id).(finished := true));
    SweptGapIsReachable(id);
    Reach(first, s, Create(0, Upsert));
    var landed := Step(s, Create(0, Upsert));
    assert ValidRun(landed, []) && Run(landed, []) == landed;
    FinishSweep(landed, id);
    var last := Step(Step(landed, Sweep(1, DropOne)), Sweep(1, Unlock));
    assert Orphan(last, id);
  }

  lemma FinishSweep(s: State, id: Id)
    requires s.ops == map[1 := SweepMarked(id)] && s.live == {id}
    ensures Enabled(s, Sweep(1, DropOne)) && Enabled(Step(s, Sweep(1, DropOne)), Sweep(1, Unlock))
    ensures var last := Step(Step(s, Sweep(1, DropOne)), Sweep(1, Unlock));
            Reachable(s, last) && last.ops == map[] && last.live == {} && last.rows == s.rows
  {
    assert ValidRun(s, []) && Run(s, []) == s;
    Reach(s, s, Sweep(1, DropOne));
    Reach(s, Step(s, Sweep(1, DropOne)), Sweep(1, Unlock));
  }
}
