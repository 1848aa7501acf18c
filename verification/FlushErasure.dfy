/** The periodic flush writes activity and size and nothing else: taking every flush step out of a run changes
    no other column at any point. */
module FlushErasure {
  import opened MetaStore
  import opened Protocol

  predicate IsFlushing(pc: Pc) { pc.Flushing? || pc.FlushSizing? }

  /** Equal but for the columns owned by the flush. */
  predicate SameButFlushed(r: Row, q: Row) {
    r == q.(activity := r.activity, cols := r.cols, rows := r.rows)
  }

  ghost predicate SameTable(t: Table, u: Table) {
    t.Keys == u.Keys && forall id :: id in t ==> SameButFlushed(t[id], u[id])
  }

  /** bare is s without the flushes in flight and without what they wrote. */
  ghost predicate Erases(s: State, bare: State) {
    && bare == s.(rows := bare.rows, ops := bare.ops)
    && SameTable(s.rows, bare.rows)
    && (forall op :: op in bare.ops <==> op in s.ops && !IsFlushing(s.ops[op]))
    && (forall op :: op in bare.ops ==> bare.ops[op] == s.ops[op])
  }

  function WithoutFlushes(acts: seq<Action>): seq<Action>
    decreases |acts|
  {
    if acts == [] then [] else (if acts[0].Flush? then [] else [acts[0]]) + WithoutFlushes(acts[1..])
  }

  lemma FlushStepErased(s: State, bare: State, a: Action)
    requires Erases(s, bare) && Enabled(s, a) && a.Flush?
    ensures Erases(Step(s, a), bare)
  {
  }

  lemma CreateKept(s: State, bare: State, op: Op, x: CreateStep)
    requires Erases(s, bare) && CanCreate(s, op, x)
    ensures CanCreate(bare, op, x) && Erases(DoCreate(s, op, x), DoCreate(bare, op, x))
  {
  }

  lemma DeleteKept(s: State, bare: State, op: Op, x: DeleteStep)
    requires Erases(s, bare) && CanDelete(s, op, x)
    ensures CanDelete(bare, op, x) && Erases(DoDelete(s, op, x), DoDelete(bare, op, x))
  {
  }

  lemma ExitKept(s: State, bare: State, op: Op, x: ExitStep)
    requires Erases(s, bare) && CanExit(s, op, x)
    ensures CanExit(bare, op, x) && Erases(DoExit(s, op, x), DoExit(bare, op, x))
  {
  }

  lemma RenameKept(s: State, bare: State, op: Op, x: RenameStep)
    requires Erases(s, bare) && CanRename(s, op, x)
    ensures CanRename(bare, op, x) && Erases(DoRename(s, op, x), DoRename(bare, op, x))
  {
  }

  lemma SweepKept(s: State, bare: State, op: Op, x: SweepStep)
    requires Erases(s, bare) && CanSweep(s, op, x)
    ensures CanSweep(bare, op, x) && Erases(DoSweep(s, op, x), DoSweep(bare, op, x))
  {
  }

  lemma OtherStepKept(s: State, bare: State, a: Action)
    requires Erases(s, bare) && Enabled(s, a) && !a.Flush?
    ensures Enabled(bare, a) && Erases(Step(s, a), Step(bare, a))
  {
    match a
    case Create(op, x) => CreateKept(s, bare, op, x);
    case Delete(op, x) => DeleteKept(s, bare, op, x);
    case Exit(op, x) => ExitKept(s, bare, op, x);
    case Rename(op, x) => RenameKept(s, bare, op, x);
    case Sweep(op, x) => SweepKept(s, bare, op, x);
    case Disconnect(_, _) =>
    case Restart(_) =>
  }

  lemma {:induction false} FlushesErase(s: State, bare: State, acts: seq<Action>)
    requires Erases(s, bare) && ValidRun(s, acts)
    ensures ValidRun(bare, WithoutFlushes(acts)) && Erases(Run(s, acts), Run(bare, WithoutFlushes(acts)))
    decreases |acts|
  {
    if acts != [] {
      var a, rest := acts[0], acts[1..];
      if a.Flush? {
        FlushStepErased(s, bare, a);
        assert WithoutFlushes(acts) == WithoutFlushes(rest);
        FlushesErase(Step(s, a), bare, rest);
      } else {
        OtherStepKept(s, bare, a);
        assert WithoutFlushes(acts)[1..] == WithoutFlushes(rest);
        FlushesErase(Step(s, a), Step(bare, a), rest);
      }
    }
  }

  /** Flush is erasable: from a fresh server, every run and the same run without its flush steps have, at every
      point, the same live map and the same rows in all columns but last activity, cols and rows. */
  lemma FlushIsErasable(max: int, rows: Table, seen: set<Id>, acts: seq<Action>)
    requires ValidRun(NewManager(max, rows, seen), acts)
    ensures var first := NewManager(max, rows, seen);
            && ValidRun(first, WithoutFlushes(acts))
            && Run(first, acts).live == Run(first, WithoutFlushes(acts)).live
            && SameTable(Run(first, acts).rows, Run(first, WithoutFlushes(acts)).rows)
  {
    var first := NewManager(max, rows, seen);
    FlushesErase(first, first, acts);
  }
}
