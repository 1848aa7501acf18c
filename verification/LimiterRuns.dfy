/** Whole-run properties of the rate limiter, for one client key and then for all of them. */
module LimiterRuns {
  import opened Wrappers
  import opened RateLimiter

  /** What can happen to one key: a recorded failure, an admission check, a cleanup tick, a reset. */
  datatype Event = Fail(t: int) | Check(t: int) | Clean(t: int) | Forget(t: int)

  function Apply(c: Config, o: Option<Entry>, ev: Event): Option<Entry> {
    match ev
    case Fail(t) => Some(Record(c, o.GetOr(BLANK), t))
    case Check(_) => o
    case Clean(t) => if o.Some? && Removable(c, o.value, t) then None else o
    case Forget(_) => None
  }

  function Run(c: Config, o: Option<Entry>, evs: seq<Event>): Option<Entry>
    decreases |evs|
  {
    if evs == [] then o else Run(c, Apply(c, o, evs[0]), evs[1..])
  }

  /** The clock never goes back and stays after Go's zero time. */
  predicate Ordered(t0: int, evs: seq<Event>)
    decreases |evs|
  {
    && t0 > 0
    && (evs == [] || (t0 <= evs[0].t && Ordered(evs[0].t, evs[1..])))
  }

  predicate NoReset(evs: seq<Event>) {
    forall i :: 0 <= i < |evs| ==> !evs[i].Forget?
  }

  /** A failure that finds the client locked out is not counted. */
  predicate Counts(o: Option<Entry>, ev: Event) {
    ev.Fail? && !Locked(o, ev.t)
  }

  predicate Triggers(c: Config, o: Option<Entry>, ev: Event) {
    Counts(o, ev) && Record(c, o.GetOr(BLANK), ev.t).level > o.GetOr(BLANK).level
  }

  function CountIn(c: Config, o: Option<Entry>, evs: seq<Event>, lo: int, hi: int): nat
    decreases |evs|
  {
    if evs == [] then 0 else
      (if Counts(o, evs[0]) && lo <= evs[0].t <= hi then 1 else 0)
      + CountIn(c, Apply(c, o, evs[0]), evs[1..], lo, hi)
  }

  /** The moments at which a lockout begins. */
  function LockTimes(c: Config, o: Option<Entry>, evs: seq<Event>): seq<int>
    decreases |evs|
  {
    if evs == [] then [] else
      (if Triggers(c, o, evs[0]) then [evs[0].t] else [])
      + LockTimes(c, Apply(c, o, evs[0]), evs[1..])
  }

  /** What holds of a client's record in every reachable state at time t. */
  ghost predicate Inv(c: Config, o: Option<Entry>, t: int) {
    && t > 0
    && (o.Some? ==>
          var e := o.value;
          && 0 <= e.failures < c.maxAttempts
          && (e.windowStart == 0 <==> e.failures == 0)
          && (e.windowStart != 0 ==> 0 < e.windowStart <= e.lastSeen && e.lockedUntil <= e.windowStart)
          && e.lastSeen <= t
          && e.lockedUntil <= e.lastSeen + 16 * c.base)
  }

  lemma DurationIs(c: Config, level: nat)
    requires c.Sane() && level >= 1
    ensures Lockout.Duration(c.base, level) == Lockout.Documented(c.base, level)
    ensures c.base <= Lockout.Duration(c.base, level) <= 16 * c.base
    ensures c.MaxLockout() == 16 * c.base && c.Retention() >= c.window
  {
    Lockout.DurationExact(c.base, level);
    Lockout.DocumentedIsMin(c.base, level);
    assert !Lockout.SlipsThrough(c.base, level - 1);
  }

  lemma InvStep(c: Config, o: Option<Entry>, t0: int, ev: Event)
    requires c.Sane() && Inv(c, o, t0) && t0 <= ev.t
    ensures Inv(c, Apply(c, o, ev), ev.t)
  {
    DurationIs(c, o.GetOr(BLANK).level + 1);
  }

  /** In every reachable state a lockout ends within the cap after the last attempt, and the
      counting window began no later than the last attempt. */
  lemma {:induction false} Reachable(c: Config, o: Option<Entry>, t0: int, evs: seq<Event>)
    requires c.Sane() && Inv(c, o, t0) && Ordered(t0, evs)
    ensures Inv(c, Run(c, o, evs), if evs == [] then t0 else evs[|evs| - 1].t)
    decreases |evs|
  {
    if evs != [] {
      InvStep(c, o, t0, evs[0]);
      Reachable(c, Apply(c, o, evs[0]), evs[0].t, evs[1..]);
    }
  }

  // ----- The rate bound -----

  /** Failures the open counting window can still absorb. */
  function Quota(c: Config, o: Option<Entry>): int {
    if o.Some? && o.value.windowStart != 0 then c.maxAttempts - o.value.failures else 0
  }

  /** The earliest moment at which the next counting window can open. */
  function NextStart(c: Config, o: Option<Entry>, t: int): int {
    if o.None? then t
    else if o.value.windowStart == 0 then (if t > o.value.lockedUntil then t else o.value.lockedUntil)
    else if t > o.value.windowStart + c.Gap() then t else o.value.windowStart + c.Gap()
  }

  /** How many windows at least `gap` apart can open in a stretch of length x. */
  function Windows(x: int, gap: int): nat
    requires gap > 0
  {
    if x < 0 then 0 else x / gap + 1
  }

  lemma WindowsStep(x: int, y: int, gap: int)
    requires gap > 0
    ensures x <= y ==> Windows(x, gap) <= Windows(y, gap)
    ensures x >= 0 ==> Windows(x, gap) == 1 + Windows(x - gap, gap)
  {
    if x >= 0 {
      DivPeel(x, gap);
      if x < gap {
        SmallQuotient(x, gap);
      }
      if x <= y {
        DivMonotone(x, y, gap);
      }
    }
  }

  lemma SmallQuotient(x: int, d: int)
    requires 0 <= x < d
    ensures x / d == 0
  {
  }

  lemma DivPeel(x: int, d: int)
    requires d > 0
    ensures (x - d) / d == x / d - 1
  {
    var q, q' := x / d, (x - d) / d;
    assert x == d * q + x % d && x - d == d * q' + (x - d) % d;
    assert d * (q - q' - 1) == (x - d) % d - x % d;
    Int64.MultipleAwayFromZero(d, q - q' - 1);
  }

  lemma DivMonotone(x: int, y: int, d: int)
    requires x <= y && d > 0
    ensures x / d <= y / d
  {
    assert x == d * (x / d) + x % d && y == d * (y / d) + y % d;
    assert d * (x / d - y / d) < d;
    Int64.MultipleAwayFromZero(d, x / d - y / d);
  }

  /** The remaining allowance before `hi`, in a form each event can only use up. */
  function Budget(c: Config, o: Option<Entry>, t: int, hi: int): int
    requires c.Gap() > 0
  {
    Quota(c, o) + c.maxAttempts * Windows(hi - NextStart(c, o, t), c.Gap())
  }

  lemma Scale(m: int, x: int, y: int)
    requires m >= 0 && x <= y
    ensures m * x <= m * y
  {
  }

  /** One event moves the next possible window later by enough to pay for what it counts. */
  lemma NextStartStep(c: Config, o: Option<Entry>, t0: int, ev: Event)
    requires c.Sane() && Inv(c, o, t0) && t0 <= ev.t && !ev.Forget?
    ensures var o' := Apply(c, o, ev);
            && NextStart(c, o, t0) <= NextStart(c, o', ev.t)
            && (if Counts(o, ev) && Restarts(c, o.GetOr(BLANK), ev.t) then
                  && NextStart(c, o, t0) <= ev.t
                  && ev.t + c.Gap() <= NextStart(c, o', ev.t)
                  && Quota(c, o') + 1 <= c.maxAttempts
                else Quota(c, o') + (if Counts(o, ev) then 1 else 0) <= Quota(c, o))
  {
    DurationIs(c, o.GetOr(BLANK).level + 1);
  }

  lemma BudgetStep(c: Config, o: Option<Entry>, t0: int, ev: Event, hi: int)
    requires c.Sane() && Inv(c, o, t0) && t0 <= ev.t <= hi && !ev.Forget?
    ensures Budget(c, Apply(c, o, ev), ev.t, hi) + (if Counts(o, ev) then 1 else 0) <= Budget(c, o, t0, hi)
  {
    var g, o' := c.Gap(), Apply(c, o, ev);
    var s, s' := NextStart(c, o, t0), NextStart(c, o', ev.t);
    NextStartStep(c, o, t0, ev);
    WindowsStep(hi - s', hi - ev.t - g, g);
    WindowsStep(hi - ev.t, hi - s, g);
    WindowsStep(hi - s', hi - s, g);
    Trade(c.maxAttempts, Windows(hi - s', g), Windows(hi - s, g), Quota(c, o'), Quota(c, o),
          if Counts(o, ev) then 1 else 0);
  }

  lemma Trade(m: int, w': int, w: int, q': int, q: int, used: int)
    requires m >= 0 && q >= 0
    requires (w' + 1 <= w && q' + used <= m) || (w' <= w && q' + used <= q)
    ensures q' + m * w' + used <= q + m * w
  {
    if w' + 1 <= w {
      Scale(m, w' + 1, w);
      assert m * (w' + 1) == m * w' + m;
    } else {
      Scale(m, w', w);
    }
  }

  lemma {:induction false} NothingAfter(c: Config, o: Option<Entry>, t0: int, evs: seq<Event>, lo: int, hi: int)
    requires Ordered(t0, evs) && t0 > hi
    ensures CountIn(c, o, evs, lo, hi) == 0
    decreases |evs|
  {
    if evs != [] {
      NothingAfter(c, Apply(c, o, evs[0]), evs[0].t, evs[1..], lo, hi);
    }
  }

  lemma {:induction false} BudgetCovers(c: Config, o: Option<Entry>, t0: int, evs: seq<Event>, lo: int, hi: int)
    requires c.Sane() && Inv(c, o, t0) && Ordered(t0, evs) && NoReset(evs)
    ensures CountIn(c, o, evs, lo, hi) <= Budget(c, o, t0, hi)
    decreases |evs|
  {
    assert Budget(c, o, t0, hi) >= 0 by { Scale(c.maxAttempts, 0, Windows(hi - NextStart(c, o, t0), c.Gap())); }
    if evs == [] {
    } else if evs[0].t > hi {
      NothingAfter(c, Apply(c, o, evs[0]), evs[0].t, evs[1..], lo, hi);
    } else {
      InvStep(c, o, t0, evs[0]);
      BudgetStep(c, o, t0, evs[0], hi);
      BudgetCovers(c, Apply(c, o, evs[0]), evs[0].t, evs[1..], lo, hi);
    }
  }

  /** Rate bound: whatever cleanup does, any stretch [lo, lo + length] of a run without a reset
      holds at most maxAttempts * (length / min(window, base) + 2) counted failures. */
  lemma {:induction false} RateBound(c: Config, o: Option<Entry>, t0: int, evs: seq<Event>, lo: int, length: nat)
    requires c.Sane() && Inv(c, o, t0) && Ordered(t0, evs) && NoReset(evs)
    ensures CountIn(c, o, evs, lo, lo + length) <= c.maxAttempts * (length / c.Gap() + 2)
    ensures c.Gap() == if c.window < c.base then c.window else c.base
    decreases |evs|
  {
    if evs == [] {
      DivMonotone(0, length, c.Gap());
      Scale(c.maxAttempts, 0, length / c.Gap() + 2);
    } else if evs[0].t < lo {
      InvStep(c, o, t0, evs[0]);
      RateBound(c, Apply(c, o, evs[0]), evs[0].t, evs[1..], lo, length);
    } else {
      InvTime(c, o, t0, evs[0].t);
      BudgetCovers(c, o, evs[0].t, evs, lo, lo + length);
      WindowsStep(lo + length - NextStart(c, o, evs[0].t), length, c.Gap());
      Scale(c.maxAttempts, Windows(lo + length - NextStart(c, o, evs[0].t), c.Gap()), length / c.Gap() + 1);
      assert c.maxAttempts * (length / c.Gap() + 2) == c.maxAttempts * (length / c.Gap() + 1) + c.maxAttempts;
    }
  }

  lemma InvTime(c: Config, o: Option<Entry>, t0: int, t: int)
    requires Inv(c, o, t0) && t0 <= t
    ensures Inv(c, o, t)
  {
  }

  lemma {:induction false} LockoutStands(c: Config, e: Entry, t0: int, evs: seq<Event>)
    requires Ordered(t0, evs) && NoReset(evs)
    requires forall i :: 0 <= i < |evs| ==> evs[i].t < e.lockedUntil
    ensures var o := Run(c, Some(e), evs); o.Some? && o.value.lockedUntil == e.lockedUntil
    decreases |evs|
  {
    if evs != [] {
      LockoutStands(c, Apply(c, Some(e), evs[0]).value, evs[0].t, evs[1..]);
    }
  }

  // ----- Escalation -----

  /** No event of the run throws the key's record away. */
  predicate NeverForgotten(c: Config, o: Option<Entry>, evs: seq<Event>)
    decreases |evs|
  {
    evs == [] ||
    ((o.Some? ==> Apply(c, o, evs[0]).Some?) && NeverForgotten(c, Apply(c, o, evs[0]), evs[1..]))
  }

  /** The documented lengths of n lockouts in a row, the first at level `from`. */
  function Served(base: int, from: nat, n: nat): int
    requires from >= 1
    decreases n
  {
    if n == 0 then 0 else Lockout.Documented(base, from) + Served(base, from + 1, n - 1)
  }

  /** Lockouts from level `from` on, each starting after those before it have been served since t. */
  ghost predicate Spaced(times: seq<int>, t: int, base: int, from: nat)
    requires from >= 1
  {
    forall j {:trigger times[j]} :: 0 <= j < |times| ==> times[j] >= t + Served(base, from, j)
  }

  lemma {:induction false} LaterLockouts(c: Config, e: Entry, t0: int, evs: seq<Event>)
    requires c.Sane() && Inv(c, Some(e), t0) && Ordered(t0, evs) && NeverForgotten(c, Some(e), evs)
    ensures Spaced(LockTimes(c, Some(e), evs), e.lockedUntil, c.base, e.level + 1)
    decreases |evs|
  {
    if evs != [] {
      var o' := Apply(c, Some(e), evs[0]);
      InvStep(c, Some(e), t0, evs[0]);
      DurationIs(c, e.level + 1);
      LaterLockouts(c, o'.value, evs[0].t, evs[1..]);
      var times, rest := LockTimes(c, Some(e), evs), LockTimes(c, o', evs[1..]);
      if Triggers(c, Some(e), evs[0]) {
        assert o' == Some(o'.value) && o'.value.level == e.level + 1;
        forall j | 0 <= j < |times| ensures times[j] >= e.lockedUntil + Served(c.base, e.level + 1, j) {
          if j > 0 {
            assert times[j] == rest[j - 1];
            assert o'.value.lockedUntil == evs[0].t + Lockout.Documented(c.base, e.level + 1);
            assert rest[j - 1] >= o'.value.lockedUntil + Served(c.base, e.level + 2, j - 1);
          }
        }
      }
    }
  }

  /** The lockout number n + 1 of a key starts only after the documented lengths of the n before it,
      which add up to base * (2^n - 1) for n <= 5 and to base * (16n - 49) from there on. */
  lemma {:induction false} EscalationCost(c: Config, o: Option<Entry>, t0: int, evs: seq<Event>)
    requires c.Sane() && Inv(c, o, t0) && Ordered(t0, evs) && NeverForgotten(c, o, evs)
    requires o.GetOr(BLANK).level == 0
    ensures var times := LockTimes(c, o, evs);
            forall n :: 0 <= n < |times| ==>
              && times[n] - times[0] >= c.base * Weight(n)
              && Weight(n) == if n <= 5 then Int64.Pow2(n) - 1 else 16 * n - 49
    decreases |evs|
  {
    if evs != [] {
      var o' := Apply(c, o, evs[0]);
      InvStep(c, o, t0, evs[0]);
      DurationIs(c, 1);
      var times := LockTimes(c, o, evs);
      if Triggers(c, o, evs[0]) {
        LaterLockouts(c, o'.value, evs[0].t, evs[1..]);
        var rest := LockTimes(c, o', evs[1..]);
        forall n | 0 <= n < |times| ensures times[n] - times[0] >= c.base * Weight(n) {
          ServedInFull(c.base, n);
          if n > 0 {
            assert times[n] == rest[n - 1] >= o'.value.lockedUntil + Served(c.base, 2, n - 1);
          }
        }
      } else {
        assert o'.GetOr(BLANK).level == 0;
        EscalationCost(c, o', evs[0].t, evs[1..]);
      }
    }
  }

  /** 1 + 2 + 4 + 8 + 16 + 16 + ..., n terms, in closed form. */
  function Weight(n: nat): int {
    if n <= 5 then Int64.Pow2(n) - 1 else 16 * n - 49
  }

  lemma {:induction false} ServedSplit(base: int, from: nat, n: nat)
    requires from >= 1 && n >= 1
    ensures Served(base, from, n) == Served(base, from, n - 1) + Lockout.Documented(base, from + n - 1)
    decreases n
  {
    if n > 1 {
      ServedSplit(base, from + 1, n - 1);
    }
  }

  lemma WeightStep(base: int, n: nat)
    requires n >= 1
    ensures base * Weight(n) == base * Weight(n - 1) + Lockout.Documented(base, n)
  {
    assert Int64.Pow2(5) == 32;
    var w, d := Weight(n - 1), if n <= 5 then Int64.Pow2(n - 1) else 16;
    assert Weight(n) == w + d;
    assert base * (w + d) == base * w + base * d;
  }

  lemma {:induction false} ServedInFull(base: int, n: nat)
    requires base > 0
    ensures Served(base, 1, n) == base * Weight(n)
    decreases n
  {
    if n > 0 {
      ServedInFull(base, n - 1);
      ServedSplit(base, 1, n);
      Int64.Pow2Of64();
      WeightStep(base, n);
    }
  }
}
