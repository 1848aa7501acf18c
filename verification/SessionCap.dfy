/** The session limit under concurrent creators: how far it can be overshot, and that it is. */
module SessionCap {
  import opened MetaStore
  import opened Protocol

  /** The creators that have passed the limit check and not inserted their session yet. */
  function Waiting(s: State): set<Op> {
    set op | op in s.ops && s.ops[op].CreateChecked?
  }

  /** Along the run never more than k creators are between check and insertion. */
  ghost predicate AtMostWaiting(s: State, acts: seq<Action>, k: nat)
    requires ValidRun(s, acts)
    decreases |acts|
  {
    && |Waiting(s)| <= k
    && (acts != [] ==> AtMostWaiting(Step(s, acts[0]), acts[1..], k))
  }

  predicate KeepsLimit(acts: seq<Action>, max: int) {
    forall i :: 0 <= i < |acts| && acts[i].Restart? ==> acts[i].max == max
  }

  /** Sessions in the map and creators about to add one. */
  function Load(s: State): nat { |s.live| + |Waiting(s)| }

  lemma Smaller<T>(a: set<T>, b: set<T>)
    requires a <= b
    ensures |a| <= |b|
  {
    assert b == a + (b - a);
    assert |b| == |a| + |b - a|;
  }

  predicate IsCheck(a: Action) { a.Create? && a.create.Check? }

  predicate IsInsert(a: Action) { a.Create? && a.create.Insert? }

  lemma NothingAdded(s: State, a: Action)
    requires Enabled(s, a) && !IsCheck(a) && !IsInsert(a)
    ensures Waiting(Step(s, a)) <= Waiting(s) && Step(s, a).live <= s.live
    ensures !a.Restart? ==> Step(s, a).max == s.max
  {
  }

  /** Only a limit check can raise the load, and it leaves the map as it is. */
  lemma LoadStep(s: State, a: Action)
    requires Enabled(s, a)
    ensures !IsCheck(a) ==> Load(Step(s, a)) <= Load(s)
    ensures IsCheck(a) ==> Step(s, a).live == s.live
    ensures !a.Restart? ==> Step(s, a).max == s.max
  {
    var s' := Step(s, a);
    if IsInsert(a) {
      assert Waiting(s') == Waiting(s) - {a.op};
      Smaller(s'.live - {a.create.id}, s.live);
    } else if !IsCheck(a) {
      NothingAdded(s, a);
      Smaller(Waiting(s'), Waiting(s));
      Smaller(s'.live, s.live);
    }
  }

  /** With at most k creators past the check at any time, the limit is exceeded by at most k - 1; with
      serialised creates (k = 1) it is exact. */
  lemma {:induction false} CapHolds(s: State, acts: seq<Action>, k: nat)
    requires k >= 1 && s.max > 0 && Load(s) <= s.max + k - 1
    requires ValidRun(s, acts) && AtMostWaiting(s, acts, k) && KeepsLimit(acts, s.max)
    ensures Load(Run(s, acts)) <= s.max + k - 1
    decreases |acts|
  {
    if acts != [] {
      LoadStep(s, acts[0]);
      CapHolds(Step(s, acts[0]), acts[1..], k);
    }
  }

  // ----- The bound is reached -----

  /** A run of states with at most k creators waiting leads from s to t. */
  ghost predicate Leads(s: State, t: State, k: nat) {
    exists acts :: ValidRun(s, acts) && AtMostWaiting(s, acts, k) && Run(s, acts) == t
  }

  lemma {:induction false} AtMostAppend(s: State, acts: seq<Action>, a: Action, k: nat)
    requires ValidRun(s, acts) && AtMostWaiting(s, acts, k)
    requires Enabled(Run(s, acts), a) && |Waiting(Step(Run(s, acts), a))| <= k
    ensures ValidRun(s, acts + [a]) && AtMostWaiting(s, acts + [a], k)
    ensures Run(s, acts + [a]) == Step(Run(s, acts), a)
    decreases |acts|
  {
    if acts == [] {
      assert acts + [a] == [a] && [a][1..] == [];
      assert ValidRun(Step(s, a), []) && AtMostWaiting(Step(s, a), [], k);
    } else {
      assert (acts + [a])[0] == acts[0] && (acts + [a])[1..] == acts[1..] + [a];
      AtMostAppend(Step(s, acts[0]), acts[1..], a, k);
    }
  }

  lemma LeadsOn(s: State, t: State, a: Action, k: nat)
    requires Leads(s, t, k) && Enabled(t, a) && |Waiting(Step(t, a))| <= k
    ensures Leads(s, Step(t, a), k)
  {
    var acts :| ValidRun(s, acts) && AtMostWaiting(s, acts, k) && Run(s, acts) == t;
    AtMostAppend(s, acts, a, k);
  }

  /** Distinct ids, one per length. */
  function Ident(n: nat): (id: Id)
    ensures |id| == n
  {
    if n == 0 then "" else Ident(n - 1) + "a"
  }

  /** `inserted` sessions are live, and the creators inserted .. inserted + waiting - 1 have passed the check. */
  ghost predicate Crowd(s: State, max: int, inserted: nat, waiting: nat) {
    && s.max == max && s.holder.None?
    && |s.live| == inserted && |Waiting(s)| == waiting
    && (forall id :: id in s.live || id in s.seen ==> |id| < inserted)
    && (forall op :: op in s.ops ==> op < inserted + waiting)
    && (forall op :: inserted <= op < inserted + waiting ==> op in s.ops && s.ops[op].CreateChecked?)
  }

  ghost predicate LeadsToCrowd(first: State, max: int, inserted: nat, waiting: nat, k: nat) {
    exists s :: Leads(first, s, k) && Crowd(s, max, inserted, waiting)
  }

  lemma CrowdChecks(s: State, max: int, n: nat, waiting: nat)
    requires Crowd(s, max, n, waiting) && n < max
    ensures Enabled(s, Create(n + waiting, Check))
    ensures Crowd(Step(s, Create(n + waiting, Check)), max, n, waiting + 1)
  {
    assert Waiting(Step(s, Create(n + waiting, Check))) == Waiting(s) + {n + waiting};
  }

  lemma CrowdInserts(s: State, max: int, n: nat, waiting: nat)
    requires Crowd(s, max, n, waiting + 1)
    ensures Enabled(s, Create(n, Insert(Ident(n), "")))
    ensures Crowd(Step(s, Create(n, Insert(Ident(n), ""))), max, n + 1, waiting)
  {
    assert Waiting(Step(s, Create(n, Insert(Ident(n), "")))) == Waiting(s) - {n};
  }

  lemma OneMoreChecks(first: State, max: int, n: nat, waiting: nat, k: nat)
    requires LeadsToCrowd(first, max, n, waiting, k) && n < max && waiting < k
    ensures LeadsToCrowd(first, max, n, waiting + 1, k)
  {
    var s :| Leads(first, s, k) && Crowd(s, max, n, waiting);
    CrowdChecks(s, max, n, waiting);
    LeadsOn(first, s, Create(n + waiting, Check), k);
  }

  lemma OneMoreInserts(first: State, max: int, n: nat, waiting: nat, k: nat)
    requires LeadsToCrowd(first, max, n, waiting + 1, k) && waiting <= k
    ensures LeadsToCrowd(first, max, n + 1, waiting, k)
  {
    var s :| Leads(first, s, k) && Crowd(s, max, n, waiting + 1);
    CrowdInserts(s, max, n, waiting);
    LeadsOn(first, s, Create(n, Insert(Ident(n), "")), k);
  }

  lemma EmptyCrowd(max: int, k: nat)
    ensures LeadsToCrowd(NewManager(max, map[], {}), max, 0, 0, k)
  {
    var first := NewManager(max, map[], {});
    assert Waiting(first) == {};
    assert ValidRun(first, []) && AtMostWaiting(first, [], k) && Run(first, []) == first;
    assert Leads(first, first, k) && Crowd(first, max, 0, 0);
  }

  /** One creator after the other fills the map up to one below the limit; then k pass the check together. */
  lemma {:induction false} CrowdAssembles(first: State, max: int, n: nat, waiting: nat, k: nat)
    requires LeadsToCrowd(first, max, 0, 0, k)
    requires n < max && 1 <= k && waiting <= k
    ensures LeadsToCrowd(first, max, n, waiting, k)
    decreases n, waiting
  {
    if waiting > 0 {
      CrowdAssembles(first, max, n, waiting - 1, k);
      OneMoreChecks(first, max, n, waiting - 1, k);
    } else if n > 0 {
      CrowdAssembles(first, max, n - 1, 1, k);
      OneMoreInserts(first, max, n - 1, 0, k);
    }
  }

  /** All k of them insert. */
  lemma {:induction false} CrowdRushesIn(first: State, max: int, more: nat, k: nat)
    requires max >= 1 && more <= k
    requires LeadsToCrowd(first, max, max - 1, k, k)
    ensures LeadsToCrowd(first, max, max - 1 + more, k - more, k)
    decreases more
  {
    if more > 0 {
      CrowdRushesIn(first, max, more - 1, k);
      OneMoreInserts(first, max, max - 2 + more, k - more, k);
    }
  }

  /** For every limit and every k there is a run that ends with max + k - 1 live sessions. */
  lemma BoundIsReached(max: int, k: nat)
    requires max >= 1 && k >= 1
    ensures exists s :: Leads(NewManager(max, map[], {}), s, k) && |s.live| == max + k - 1
  {
    var first := NewManager(max, map[], {});
    EmptyCrowd(max, k);
    CrowdAssembles(first, max, max - 1, k, k);
    CrowdRushesIn(first, max, k, k);
    var s :| Leads(first, s, k) && Crowd(s, max, max - 1 + k, 0);
  }
}
