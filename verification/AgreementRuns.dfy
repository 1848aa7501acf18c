/** When map and table disagree, told by the order of the writes in the run alone. */
module AgreementRuns {
  import opened MetaStore
  import opened Protocol
  import opened Agreement
  import opened ManagerSafety

  /** The step takes the session's row away, or starts the process anew. */
  predicate Clears(s: State, a: Action, id: Id)
    requires Enabled(s, a)
  {
    a.Restart? || (a.Delete? && a.del.Erase? && s.ops[a.op].id == id)
  }

  predicate NeverCleared(s: State, acts: seq<Action>, id: Id)
    requires ValidRun(s, acts)
    decreases |acts|
  {
    acts == [] || (!Clears(s, acts[0], id) && NeverCleared(Step(s, acts[0]), acts[1..], id))
  }

  /** Somewhere in the run the session is upserted, and the row is not cleared after that. */
  predicate UpsertLasts(s: State, acts: seq<Action>, id: Id)
    requires ValidRun(s, acts)
    decreases |acts|
  {
    acts != [] &&
    (|| (Upserts(s, acts[0], id) && NeverCleared(Step(s, acts[0]), acts[1..], id))
     || UpsertLasts(Step(s, acts[0]), acts[1..], id))
  }

  /** Somewhere in the run the session's remover does its store write, and a lasting Upsert comes after it. */
  predicate UpsertAfterWrite(s: State, acts: seq<Action>, id: Id)
    requires ValidRun(s, acts)
    decreases |acts|
  {
    acts != [] &&
    (|| (Finishes(s, acts[0], id) && UpsertLasts(Step(s, acts[0]), acts[1..], id))
     || UpsertAfterWrite(Step(s, acts[0]), acts[1..], id))
  }

  predicate Finished(s: State, id: Id) { id in s.lives && s.lives[id].finished }

  /** A session of an earlier process is not upserted again. */
  lemma {:induction false} PastIsNotUpserted(s: State, acts: seq<Action>, id: Id)
    requires ValidRun(s, acts) && Past(s, id)
    ensures !UpsertLasts(s, acts, id)
    decreases |acts|
  {
    if acts != [] {
      PastStep(s, acts[0], id);
      PastIsNotUpserted(Step(s, acts[0]), acts[1..], id);
    }
  }

  lemma FinishedStep(s: State, a: Action, id: Id)
    requires Inv(s) && Enabled(s, a)
    ensures !a.Restart? ==> (Finished(Step(s, a), id) <==> Finished(s, id) || Finishes(s, a, id))
    ensures a.Restart? && Finished(s, id) ==> Past(Step(s, a), id)
    ensures a.Restart? ==> !Finished(Step(s, a), id)
  {
    assert IdOk(s, id);
    if Finishes(s, a, id) {
      assert OpOk(s, a.op);
    }
    if id in s.lives && !a.Restart? {
      RecordsWrites(s, a, id);
    }
  }

  lemma LateStep(s: State, a: Action, id: Id)
    requires Inv(s) && Enabled(s, a)
    ensures Late(Step(s, a), id) <==> (Late(s, id) && !Clears(s, a, id)) || (Upserts(s, a, id) && Finished(s, id))
    ensures Finishes(s, a, id) || Upserts(s, a, id) ==> !a.Restart?
  {
    assert IdOk(s, id);
    if a.Create? && a.op in s.ops {
      assert OpOk(s, a.op);
    }
    LateIsUpsertAfterWrite(s, a, id);
  }

  lemma {:induction false} LateOverRuns(s: State, acts: seq<Action>, id: Id)
    requires Inv(s) && ValidRun(s, acts)
    ensures Late(Run(s, acts), id) <==>
            || (Late(s, id) && NeverCleared(s, acts, id))
            || (Finished(s, id) && UpsertLasts(s, acts, id))
            || UpsertAfterWrite(s, acts, id)
    decreases |acts|
  {
    if acts != [] {
      var a, rest, s' := acts[0], acts[1..], Step(s, acts[0]);
      FinishedStep(s, a, id);
      LateStep(s, a, id);
      StepInv(s, a);
      LateOverRuns(s', rest, id);
      if Past(s', id) {
        PastIsNotUpserted(s', rest, id);
      }
    }
  }

  /** From the start of the server on any table: once nothing is in flight for an id, map and table agree about
      it exactly when the run has no Upsert after the remover's write that was not cleared since. */
  lemma AgreementOverRuns(max: int, rows: Table, seen: set<Id>, acts: seq<Action>, id: Id)
    requires ValidRun(NewManager(max, rows, seen), acts) && Settled(Run(NewManager(max, rows, seen), acts), id)
    ensures Agrees(Run(NewManager(max, rows, seen), acts), id) <==>
            !UpsertAfterWrite(NewManager(max, rows, seen), acts, id)
  {
    var first := NewManager(max, rows, seen);
    NewManagerInv(max, rows, seen);
    LateOverRuns(first, acts, id);
    AgreementExact(Run(first, acts), id);
  }
}
