/** Login requests of one client in flight together: when a rejected password escapes the limiter's count, and
    how many can. A request reads the limiter once on arrival and writes it once when it has been decided. */
module LoginRuns {
  import opened Wrappers
  import opened RateLimiter
  import opened LimiterRuns
  import opened Login

  datatype Verdict = Malformed | Wrong | Right

  datatype Move = Arrive(r: nat, t: int) | Decide(r: nat, verdict: Verdict, t: int) | Tick(t: int)

  /** The client's record, and its requests that have been admitted and not decided yet. */
  datatype Flight = Flight(record: Option<Entry>, open: set<nat>)

  predicate CanMove(s: Flight, m: Move) {
    match m
    case Arrive(r, _) => r !in s.open
    case Decide(r, _, _) => r in s.open
    case Tick(_) => true
  }

  /** A malformed body leaves the record alone, as a check does. */
  function EventOf(m: Move): Event {
    match m
    case Arrive(_, t) => Check(t)
    case Decide(_, Malformed, t) => Check(t)
    case Decide(_, Wrong, t) => Fail(t)
    case Decide(_, Right, t) => Forget(t)
    case Tick(t) => Clean(t)
  }

  function Step(c: Config, s: Flight, m: Move): Flight
    requires CanMove(s, m)
  {
    Flight(Apply(c, s.record, EventOf(m)),
           match m
           case Arrive(r, t) => if Locked(s.record, t) then s.open else s.open + {r}
           case Decide(r, _, _) => s.open - {r}
           case Tick(_) => s.open)
  }

  predicate ValidMoves(c: Config, s: Flight, moves: seq<Move>)
    decreases |moves|
  {
    moves == [] || (CanMove(s, moves[0]) && ValidMoves(c, Step(c, s, moves[0]), moves[1..]))
  }

  function After(c: Config, s: Flight, moves: seq<Move>): Flight
    requires ValidMoves(c, s, moves)
    decreases |moves|
  {
    if moves == [] then s else After(c, Step(c, s, moves[0]), moves[1..])
  }

  /** The limiter events of a series of moves, one each. */
  function Events(moves: seq<Move>): (evs: seq<Event>)
    ensures |evs| == |moves| && forall i :: 0 <= i < |evs| ==> evs[i] == EventOf(moves[i])
  {
    seq(|moves|, i requires 0 <= i < |moves| => EventOf(moves[i]))
  }

  /** The clock never goes back. */
  ghost predicate InTime(t0: int, moves: seq<Move>) { Ordered(t0, Events(moves)) }

  lemma EventsTail(moves: seq<Move>)
    requires moves != []
    ensures Events(moves)[0] == EventOf(moves[0]) && Events(moves)[1..] == Events(moves[1..])
  {
  }

  lemma {:induction false} RecordRuns(c: Config, s: Flight, moves: seq<Move>)
    requires ValidMoves(c, s, moves)
    ensures After(c, s, moves).record == Run(c, s.record, Events(moves))
    decreases |moves|
  {
    if moves != [] {
      EventsTail(moves);
      RecordRuns(c, Step(c, s, moves[0]), moves[1..]);
    }
  }

  predicate Rejects(m: Move) { m.Decide? && m.verdict.Wrong? }

  // ----- One request -----

  function VerdictOf(a: Attempt): Verdict {
    if a.body.None? then Malformed else if a.right then Right else Wrong
  }

  /** What `Login.HandleLogin` does to the record, from arrival to answer, is these two moves. */
  lemma LoginIsTwoMoves(c: Config, s: Flight, r: nat, a: Attempt)
    requires c.Enabled() && r !in s.open
    ensures var resp, s' := Outcome(c, s.record, a), Step(c, s, Arrive(r, a.arrive));
            && s'.record == s.record && (resp.Throttled? <==> r !in s'.open)
            && (!resp.Throttled? ==>
                  Step(c, s', Decide(r, VerdictOf(a), a.decided)) ==
                    Flight(if resp.Unauthorized? then Some(Record(c, s.record.GetOr(BLANK), a.decided))
                           else if resp.Success? || resp.ServerError? then None
                           else s.record,
                           s.open))
  {
  }

  // ----- When a client is locked out, exactly -----

  /** Event number i opens a lockout that lasts past d, and no reset follows it. */
  ghost predicate LastsPast(c: Config, o: Option<Entry>, evs: seq<Event>, i: int, d: int) {
    && 0 <= i < |evs| && Triggers(c, Run(c, o, evs[..i]), evs[i])
    && Locked(Run(c, o, evs[..i + 1]), d) && NoReset(evs[i + 1..])
  }

  lemma {:induction false} RunSnoc(c: Config, o: Option<Entry>, evs: seq<Event>, ev: Event)
    ensures Run(c, o, evs + [ev]) == Apply(c, Run(c, o, evs), ev)
    decreases |evs|
  {
    if evs == [] {
      assert evs + [ev] == [ev] && [ev][1..] == [];
    } else {
      assert (evs + [ev])[0] == evs[0] && (evs + [ev])[1..] == evs[1..] + [ev];
      RunSnoc(c, Apply(c, o, evs[0]), evs[1..], ev);
    }
  }

  /** One event that comes no later than d: a lockout lasting past d stands, or this event opens it. */
  lemma LockedStep(c: Config, o: Option<Entry>, ev: Event, d: int)
    requires 0 < ev.t <= d
    ensures Locked(Apply(c, o, ev), d) <==>
            (Locked(o, d) && !ev.Forget?) || (Triggers(c, o, ev) && Locked(Apply(c, o, ev), d))
    ensures Locked(o, d) ==> !Triggers(c, o, ev)
  {
  }

  lemma {:induction false} LockedExactly(c: Config, o: Option<Entry>, t0: int, evs: seq<Event>, d: int)
    requires Ordered(t0, evs) && (if evs == [] then t0 else evs[|evs| - 1].t) <= d
    ensures Locked(Run(c, o, evs), d) <==>
            (Locked(o, d) && NoReset(evs)) || exists i :: LastsPast(c, o, evs, i, d)
    decreases |evs|
  {
    if evs != [] {
      var n := |evs| - 1;
      var front, ev := evs[..n], evs[n];
      assert evs == front + [ev];
      OrderedFront(t0, evs);
      LockedExactly(c, o, t0, front, d);
      RunSnoc(c, o, front, ev);
      LockedStep(c, Run(c, o, front), ev, d);
      assert NoReset(evs) <==> NoReset(front) && !ev.Forget?;
      LastOneLasts(c, o, evs, d);
      forall i | 0 <= i < n ensures LastsPast(c, o, evs, i, d) <==> LastsPast(c, o, front, i, d) && !ev.Forget? {
        EarlierOneLasts(c, o, evs, i, d);
      }
      assert forall i :: LastsPast(c, o, evs, i, d) ==> i == n || LastsPast(c, o, front, i, d);
    }
  }

  lemma LastOneLasts(c: Config, o: Option<Entry>, evs: seq<Event>, d: int)
    requires evs != []
    ensures var n := |evs| - 1;
            LastsPast(c, o, evs, n, d) <==> Triggers(c, Run(c, o, evs[..n]), evs[n]) && Locked(Run(c, o, evs), d)
  {
    assert evs[..|evs|] == evs && evs[|evs|..] == [];
  }

  lemma EarlierOneLasts(c: Config, o: Option<Entry>, evs: seq<Event>, i: int, d: int)
    requires 0 <= i < |evs| - 1
    ensures LastsPast(c, o, evs, i, d) <==>
            LastsPast(c, o, evs[..|evs| - 1], i, d) && !evs[|evs| - 1].Forget?
  {
    var front := evs[..|evs| - 1];
    assert evs[..i] == front[..i] && evs[..i + 1] == front[..i + 1];
    assert evs[i + 1..] == front[i + 1..] + [evs[|evs| - 1]];
  }

  lemma {:induction false} OrderedFront(t0: int, evs: seq<Event>)
    requires evs != [] && Ordered(t0, evs)
    ensures var front := evs[..|evs| - 1];
            && Ordered(t0, front) && 0 < t0 <= evs[|evs| - 1].t
            && (if front == [] then t0 else front[|front| - 1].t) <= evs[|evs| - 1].t
    decreases |evs|
  {
    if |evs| > 1 {
      OrderedFront(evs[0].t, evs[1..]);
      assert evs[1..][..|evs| - 2] == evs[..|evs| - 1][1..];
    }
  }

  // ----- When a rejection escapes the count, exactly -----

  /** A request has been admitted at `arrive`, since when `between` has happened to the same client, and is
      rejected at `decided`. The rejection goes uncounted iff some other rejection in between opened a lockout
      that lasts past `decided`, with no right password after it. */
  lemma {:induction false} UncountedExactly(c: Config, s: Flight, r: nat, arrive: int, between: seq<Move>, decided: int)
    requires CanMove(s, Arrive(r, arrive)) && !Locked(s.record, arrive)
    requires ValidMoves(c, Step(c, s, Arrive(r, arrive)), between)
    requires InTime(arrive, between) && (between != [] ==> between[|between| - 1].t <= decided) && arrive <= decided
    ensures !Counts(After(c, Step(c, s, Arrive(r, arrive)), between).record, Fail(decided)) <==>
            exists i :: LastsPast(c, s.record, Events(between), i, decided)
    ensures forall i :: LastsPast(c, s.record, Events(between), i, decided) ==> Rejects(between[i])
  {
    RecordRuns(c, Step(c, s, Arrive(r, arrive)), between);
    LockedExactly(c, s.record, arrive, Events(between), decided);
  }

  function RejectedIn(moves: seq<Move>, lo: int, hi: int): nat
    decreases |moves|
  {
    if moves == [] then 0
    else (if Rejects(moves[0]) && lo <= moves[0].t <= hi then 1 else 0) + RejectedIn(moves[1..], lo, hi)
  }

  predicate Escapes(s: Flight, m: Move) { Rejects(m) && Locked(s.record, m.t) }

  function UncountedIn(c: Config, s: Flight, moves: seq<Move>, lo: int, hi: int): nat
    requires ValidMoves(c, s, moves)
    decreases |moves|
  {
    if moves == [] then 0
    else (if Escapes(s, moves[0]) && lo <= moves[0].t <= hi then 1 else 0)
         + UncountedIn(c, Step(c, s, moves[0]), moves[1..], lo, hi)
  }

  /** Every rejection is counted by the limiter or escapes it. */
  lemma {:induction false} CountedOrEscaped(c: Config, s: Flight, moves: seq<Move>, lo: int, hi: int)
    requires ValidMoves(c, s, moves)
    ensures RejectedIn(moves, lo, hi) == CountIn(c, s.record, Events(moves), lo, hi) + UncountedIn(c, s, moves, lo, hi)
    decreases |moves|
  {
    if moves != [] {
      EventsTail(moves);
      CountedOrEscaped(c, Step(c, s, moves[0]), moves[1..], lo, hi);
    }
  }

  // ----- How many escape with at most j requests in flight -----

  ghost predicate AtMostOpen(c: Config, s: Flight, moves: seq<Move>, j: nat)
    requires ValidMoves(c, s, moves)
    decreases |moves|
  {
    |s.open| <= j && (moves != [] ==> AtMostOpen(c, Step(c, s, moves[0]), moves[1..], j))
  }

  /** Whoever opened the lockout is decided, and nobody is admitted during it. */
  ghost predicate OneDecided(s: Flight, t: int, j: nat) {
    Locked(s.record, t) ==> |s.open| < j
  }

  lemma OneDecidedStep(c: Config, s: Flight, t0: int, m: Move, j: nat)
    requires CanMove(s, m) && t0 <= m.t && |s.open| <= j && OneDecided(s, t0, j)
    ensures OneDecided(Step(c, s, m), m.t, j)
  {
  }

  /** One request at a time, nothing escapes: every rejected password is counted. */
  lemma {:induction false} SerialRejectionsAreCounted(c: Config, s: Flight, t0: int, moves: seq<Move>, lo: int, hi: int)
    requires ValidMoves(c, s, moves) && InTime(t0, moves)
    requires AtMostOpen(c, s, moves, 1) && OneDecided(s, t0, 1)
    ensures RejectedIn(moves, lo, hi) == CountIn(c, s.record, Events(moves), lo, hi)
    decreases |moves|
  {
    if moves != [] {
      EventsTail(moves);
      assert !Escapes(s, moves[0]);
      OneDecidedStep(c, s, t0, moves[0], 1);
      SerialRejectionsAreCounted(c, Step(c, s, moves[0]), moves[0].t, moves[1..], lo, hi);
    }
  }

  function NextLock(o: Option<Entry>, t: int): int {
    if Locked(o, t) then o.value.lockedUntil else t
  }

  /** The requests in flight during a lockout. */
  function Waiting(s: Flight, t: int): nat { if Locked(s.record, t) then |s.open| else 0 }

  /** How many rejections can still escape up to hi: the requests in flight during the present lockout, and
      j - 1 for each one that can still follow. */
  function Slack(c: Config, s: Flight, t: int, hi: int, j: nat): int
    requires c.base > 0
  {
    Waiting(s, t) + (j - 1) * Windows(hi - NextLock(s.record, t), c.base)
  }

  lemma NextLockStep(c: Config, s: Flight, t0: int, m: Move)
    requires c.Sane() && CanMove(s, m) && 0 < t0 <= m.t && !EventOf(m).Forget?
    ensures var s' := Step(c, s, m);
            && NextLock(s.record, t0) <= NextLock(s'.record, m.t)
            && (Triggers(c, s.record, EventOf(m)) ==>
                  NextLock(s.record, t0) <= m.t && m.t + c.base <= NextLock(s'.record, m.t))
            && (Locked(s'.record, m.t) && !Triggers(c, s.record, EventOf(m)) ==>
                  Locked(s.record, t0) && |s'.open| + (if Escapes(s, m) then 1 else 0) <= |s.open|)
            && (Escapes(s, m) ==> Locked(s'.record, m.t) && !Triggers(c, s.record, EventOf(m)))
  {
    DurationIs(c, s.record.GetOr(BLANK).level + 1);
  }

  lemma SlackStep(c: Config, s: Flight, t0: int, m: Move, hi: int, j: nat)
    requires c.Sane() && CanMove(s, m) && 0 < t0 <= m.t <= hi && !EventOf(m).Forget?
    requires |s.open| <= j && j >= 1 && OneDecided(s, t0, j)
    ensures Slack(c, Step(c, s, m), m.t, hi, j) + (if Escapes(s, m) then 1 else 0) <= Slack(c, s, t0, hi, j)
  {
    var s' := Step(c, s, m);
    var next, next' := NextLock(s.record, t0), NextLock(s'.record, m.t);
    NextLockStep(c, s, t0, m);
    OneDecidedStep(c, s, t0, m, j);
    if Triggers(c, s.record, EventOf(m)) {
      OneWindowLess(next, m.t, next', hi, c.base);
    } else {
      WindowsStep(hi - next', hi - next, c.base);
    }
    Trade(j - 1, Windows(hi - next', c.base), Windows(hi - next, c.base),
          Waiting(s', m.t), Waiting(s, t0), if Escapes(s, m) then 1 else 0);
  }

  lemma OneWindowLess(next: int, t: int, next': int, hi: int, gap: int)
    requires gap > 0 && next <= t <= hi && t + gap <= next'
    ensures Windows(hi - next', gap) + 1 <= Windows(hi - next, gap)
  {
    WindowsStep(hi - next', hi - t - gap, gap);
    WindowsStep(hi - t, hi - next, gap);
  }

  ghost predicate NeverRight(moves: seq<Move>) {
    forall i :: 0 <= i < |moves| ==> !EventOf(moves[i]).Forget?
  }

  lemma {:induction false} NoneEscapeAfter(c: Config, s: Flight, t0: int, moves: seq<Move>, lo: int, hi: int)
    requires ValidMoves(c, s, moves) && InTime(t0, moves) && t0 > hi
    ensures UncountedIn(c, s, moves, lo, hi) == 0
    decreases |moves|
  {
    if moves != [] {
      EventsTail(moves);
      NoneEscapeAfter(c, Step(c, s, moves[0]), moves[0].t, moves[1..], lo, hi);
    }
  }

  lemma {:induction false} SlackCovers(c: Config, s: Flight, t0: int, moves: seq<Move>, lo: int, hi: int, j: nat)
    requires c.Sane() && ValidMoves(c, s, moves) && InTime(t0, moves) && NeverRight(moves)
    requires j >= 1 && AtMostOpen(c, s, moves, j) && OneDecided(s, t0, j)
    ensures UncountedIn(c, s, moves, lo, hi) <= Slack(c, s, t0, hi, j)
    decreases |moves|
  {
    Scale(j - 1, 0, Windows(hi - NextLock(s.record, t0), c.base));
    if moves != [] {
      EventsTail(moves);
      var m, s' := moves[0], Step(c, s, moves[0]);
      if m.t > hi {
        NoneEscapeAfter(c, s', m.t, moves[1..], lo, hi);
      } else {
        OneDecidedStep(c, s, t0, m, j);
        SlackStep(c, s, t0, m, hi, j);
        SlackCovers(c, s', m.t, moves[1..], lo, hi, j);
      }
    }
  }

  /** With at most j requests in flight, at most j - 1 rejections escape each lockout, of which a stretch of
      the given length can meet length / base + 2. */
  lemma {:induction false} EscapesBound(c: Config, s: Flight, t0: int, moves: seq<Move>, lo: int, length: nat, j: nat)
    requires c.Sane() && ValidMoves(c, s, moves) && InTime(t0, moves) && NeverRight(moves)
    requires j >= 1 && AtMostOpen(c, s, moves, j) && OneDecided(s, t0, j)
    ensures UncountedIn(c, s, moves, lo, lo + length) <= (j - 1) * (length / c.base + 2)
    decreases |moves|
  {
    if moves == [] {
      DivMonotone(0, length, c.base);
      Scale(j - 1, 0, length / c.base + 2);
    } else if moves[0].t < lo {
      EventsTail(moves);
      OneDecidedStep(c, s, t0, moves[0], j);
      assert NeverRight(moves[1..]);
      EscapesBound(c, Step(c, s, moves[0]), moves[0].t, moves[1..], lo, length, j);
    } else {
      EventsTail(moves);
      var t := moves[0].t;
      SlackCovers(c, s, t, moves, lo, lo + length, j);
      SlackAtStart(c, s, t, lo, length, j);
    }
  }

  lemma SlackAtStart(c: Config, s: Flight, t: int, lo: int, length: nat, j: nat)
    requires c.base > 0 && lo <= t && j >= 1 && OneDecided(s, t, j)
    ensures Slack(c, s, t, lo + length, j) <= (j - 1) * (length / c.base + 2)
  {
    var w := Windows(lo + length - NextLock(s.record, t), c.base);
    WindowsStep(lo + length - NextLock(s.record, t), length, c.base);
    Trade(j - 1, w, length / c.base + 2, Waiting(s, t), 0, 0);
  }

  /** A client that never sends the right password and has at most j requests in flight gets at most
      maxAttempts * (length / min(window, base) + 2) + (j - 1) * (length / base + 2) passwords checked in any
      stretch of the given length; one at a time, only the first part. */
  lemma GuessBound(c: Config, t0: int, moves: seq<Move>, lo: int, length: nat, j: nat)
    requires c.Sane() && ValidMoves(c, Flight(None, {}), moves) && InTime(t0, moves) && NeverRight(moves)
    requires j >= 1 && AtMostOpen(c, Flight(None, {}), moves, j)
    ensures RejectedIn(moves, lo, lo + length)
            <= c.maxAttempts * (length / c.Gap() + 2) + (j - 1) * (length / c.base + 2)
    ensures c.Gap() == if c.window < c.base then c.window else c.base
  {
    CountedOrEscaped(c, Flight(None, {}), moves, lo, lo + length);
    RateBound(c, None, t0, Events(moves), lo, length);
    EscapesBound(c, Flight(None, {}), t0, moves, lo, length, j);
  }

  // ----- Some do escape -----

  function Decisions(from: nat, j: nat, t: int): seq<Move>
    requires from <= j
    decreases j - from
  {
    if from == j then [] else [Decide(from, Wrong, t)] + Decisions(from + 1, j, t)
  }

  /** Requests from .. j arrive together, and then all of them, from the first on, are rejected. */
  function Rush(from: nat, j: nat, t: int): seq<Move>
    requires from <= j
    decreases j - from
  {
    if from == j then Decisions(0, j, t) else [Arrive(from, t)] + Rush(from + 1, j, t)
  }

  lemma {:induction false} SmallSet(s: set<nat>, j: nat)
    requires forall i :: i in s ==> i < j
    ensures |s| <= j
  {
    if j > 0 {
      SmallSet(s - {j - 1}, j - 1);
    }
  }

  /** The client's record after n rejections at moment t. */
  ghost predicate Rejected(c: Config, o: Option<Entry>, n: nat, t: int) {
    if n >= c.maxAttempts then Locked(o, t)
    else if n == 0 then o.None?
    else o.Some? && o.value.failures == n && o.value.windowStart == t && o.value.lockedUntil == 0
  }

  lemma RejectedStep(c: Config, o: Option<Entry>, n: nat, t: int)
    requires c.Sane() && t > 0 && Rejected(c, o, n, t)
    ensures Rejected(c, Apply(c, o, Fail(t)), n + 1, t)
    ensures Locked(o, t) <==> n >= c.maxAttempts
  {
    DurationIs(c, o.GetOr(BLANK).level + 1);
  }

  ghost predicate Proceeds(c: Config, s: Flight, moves: seq<Move>, t: int, j: nat) {
    ValidMoves(c, s, moves) && AtMostOpen(c, s, moves, j) && InTime(t, moves) && NeverRight(moves)
  }

  lemma OneMove(c: Config, s: Flight, m: Move, rest: seq<Move>, t: int, j: nat)
    requires t > 0 && m.t == t && CanMove(s, m) && |s.open| <= j && !EventOf(m).Forget?
    requires Proceeds(c, Step(c, s, m), rest, t, j)
    ensures Proceeds(c, s, [m] + rest, t, j)
    ensures RejectedIn([m] + rest, t, t) == RejectedIn(rest, t, t) + if Rejects(m) then 1 else 0
    ensures UncountedIn(c, s, [m] + rest, t, t)
            == UncountedIn(c, Step(c, s, m), rest, t, t) + if Escapes(s, m) then 1 else 0
  {
    var moves := [m] + rest;
    EventsTail(moves);
    assert moves[0] == m && moves[1..] == rest;
  }

  lemma {:induction false} RushIsRejected(c: Config, s: Flight, from: nat, j: nat, t: int)
    requires c.Sane() && t > 0 && from <= j
    requires (forall i: nat :: i in s.open <==> from <= i < j) && Rejected(c, s.record, from, t)
    ensures var moves := Decisions(from, j, t);
            && Proceeds(c, s, moves, t, j)
            && RejectedIn(moves, t, t) == j - from
            && UncountedIn(c, s, moves, t, t) == if j <= c.maxAttempts then 0
                                                 else if from >= c.maxAttempts then j - from else j - c.maxAttempts
    decreases j - from
  {
    SmallSet(s.open, j);
    if from < j {
      RejectedStep(c, s.record, from, t);
      RushIsRejected(c, Step(c, s, Decide(from, Wrong, t)), from + 1, j, t);
      OneMove(c, s, Decide(from, Wrong, t), Decisions(from + 1, j, t), t, j);
    }
  }

  lemma {:induction false} RushGoesOn(c: Config, s: Flight, from: nat, j: nat, t: int)
    requires c.Sane() && t > 0 && from <= j
    requires (forall i: nat :: i in s.open <==> i < from) && s.record.None?
    ensures var moves := Rush(from, j, t);
            && Proceeds(c, s, moves, t, j)
            && RejectedIn(moves, t, t) == j
            && UncountedIn(c, s, moves, t, t) == if j <= c.maxAttempts then 0 else j - c.maxAttempts
    decreases j - from
  {
    SmallSet(s.open, j);
    if from == j {
      RushIsRejected(c, s, 0, j, t);
    } else {
      assert Step(c, s, Arrive(from, t)) == Flight(None, s.open + {from});
      RushGoesOn(c, Flight(None, s.open + {from}), from + 1, j, t);
      OneMove(c, s, Arrive(from, t), Rush(from + 1, j, t), t, j);
    }
  }

  /** Whatever maxAttempts is, j requests in flight together are all answered 401, and only the first
      maxAttempts of them are counted. */
  lemma RushEscapes(c: Config, j: nat, t: int)
    requires c.Sane() && t > 0
    ensures var first, moves := Flight(None, {}), Rush(0, j, t);
            && ValidMoves(c, first, moves) && InTime(t, moves) && AtMostOpen(c, first, moves, j)
            && RejectedIn(moves, t, t) == j
            && UncountedIn(c, first, moves, t, t) == if j <= c.maxAttempts then 0 else j - c.maxAttempts
  {
    RushGoesOn(c, Flight(None, {}), 0, j, t);
  }
}
