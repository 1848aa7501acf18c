/** When a key is locked out, and for how long, exactly: the number of the failure that opens a lockout and the
    length of the n-th lockout, over whole runs. */
module LimiterExact {
  import opened Wrappers
  import opened Int64
  import opened RateLimiter
  import opened LimiterRuns

  // ----- How long -----

  /** The moments at which the lockouts of a run end, in step with `LockTimes`. */
  function LockEnds(c: Config, o: Option<Entry>, evs: seq<Event>): seq<int>
    decreases |evs|
  {
    if evs == [] then [] else
      (if Triggers(c, o, evs[0]) then [Apply(c, o, evs[0]).value.lockedUntil] else [])
      + LockEnds(c, Apply(c, o, evs[0]), evs[1..])
  }

  /** The n-th lockout from the first, which is number 0. */
  function Length(base: int, n: nat): int {
    if base * Pow2(n) < 16 * base then base * Pow2(n) else 16 * base
  }

  lemma TriggeredLength(c: Config, o: Option<Entry>, ev: Event)
    requires c.Sane() && Triggers(c, o, ev)
    ensures var level, e := o.GetOr(BLANK).level, Apply(c, o, ev).value;
            e.level == level + 1 && e.lockedUntil == ev.t + Length(c.base, level)
  {
    DurationIs(c, o.GetOr(BLANK).level + 1);
    Lockout.DocumentedIsMin(c.base, o.GetOr(BLANK).level + 1);
  }

  lemma {:induction false} LengthsFrom(c: Config, o: Option<Entry>, evs: seq<Event>)
    requires c.Sane() && NeverForgotten(c, o, evs)
    ensures var level, times, ends := o.GetOr(BLANK).level, LockTimes(c, o, evs), LockEnds(c, o, evs);
            && |ends| == |times|
            && (forall n {:trigger ends[n]} :: 0 <= n < |ends| ==> ends[n] == times[n] + Length(c.base, level + n))
            && Run(c, o, evs).GetOr(BLANK).level == level + |times|
    decreases |evs|
  {
    if evs != [] {
      var o' := Apply(c, o, evs[0]);
      LengthsFrom(c, o', evs[1..]);
      if Triggers(c, o, evs[0]) {
        TriggeredLength(c, o, evs[0]);
        var rest := LockEnds(c, o', evs[1..]);
        forall n | 0 < n < |rest| + 1
          ensures LockEnds(c, o, evs)[n] == LockTimes(c, o, evs)[n] + Length(c.base, o.GetOr(BLANK).level + n)
        {
          assert LockEnds(c, o, evs)[n] == rest[n - 1];
        }
      } else {
        assert o'.GetOr(BLANK).level == o.GetOr(BLANK).level;
      }
    }
  }

  /** Over every run of a key whose record is not thrown away, the first lockout lasts base, the second
      2 * base, and so on up to 16 * base. */
  lemma NthLockoutLength(c: Config, evs: seq<Event>)
    requires c.Sane() && NeverForgotten(c, None, evs)
    ensures var times, ends := LockTimes(c, None, evs), LockEnds(c, None, evs);
            && |ends| == |times|
            && forall n {:trigger ends[n]} :: 0 <= n < |ends| ==>
                 ends[n] - times[n] == if c.base * Pow2(n) < 16 * c.base then c.base * Pow2(n) else 16 * c.base
  {
    LengthsFrom(c, None, evs);
  }

  /** The key is refused from the triggering failure until that length has passed, whatever it and the cleanup do
      meanwhile, and admitted from then on. */
  lemma LockoutLastsExactly(c: Config, before: seq<Event>, t: int, during: seq<Event>, u: int)
    requires c.Sane() && NeverForgotten(c, None, before) && Triggers(c, Run(c, None, before), Fail(t))
    requires Ordered(t, during) && NoReset(during) && t <= u
    requires var n := |LockTimes(c, None, before)|;
             forall i :: 0 <= i < |during| ==>
               during[i].t < t + if c.base * Pow2(n) < 16 * c.base then c.base * Pow2(n) else 16 * c.base
    ensures var n, o := |LockTimes(c, None, before)|, Apply(c, Run(c, None, before), Fail(t));
            Locked(Run(c, o, during), u) <==>
            u < t + if c.base * Pow2(n) < 16 * c.base then c.base * Pow2(n) else 16 * c.base
  {
    LengthsFrom(c, None, before);
    TriggeredLength(c, Run(c, None, before), Fail(t));
    LockoutStands(c, Apply(c, Run(c, None, before), Fail(t)).value, t, during);
  }

  // ----- At which failure -----

  function FailTimes(evs: seq<Event>): seq<int>
    decreases |evs|
  {
    if evs == [] then [] else (if evs[0].Fail? then [evs[0].t] else []) + FailTimes(evs[1..])
  }

  ghost predicate Within(evs: seq<Event>, end: int) {
    forall i :: 0 <= i < |evs| ==> evs[i].t <= end
  }

  /** An open window that has counted n failures. */
  predicate Counting(c: Config, o: Option<Entry>, n: int, start: int) {
    && o.Some? && 0 < o.value.failures == n < c.maxAttempts
    && o.value.windowStart == start > 0 && o.value.lockedUntil <= start
  }

  lemma CountingStep(c: Config, o: Option<Entry>, n: int, start: int, t0: int, ev: Event)
    requires c.Sane() && Inv(c, o, t0) && Counting(c, o, n, start) && t0 <= ev.t <= start + c.window && !ev.Forget?
    ensures !ev.Fail? ==> Counting(c, Apply(c, o, ev), n, start) && !Triggers(c, o, ev)
    ensures ev.Fail? && n + 1 < c.maxAttempts ==> Counting(c, Apply(c, o, ev), n + 1, start) && !Triggers(c, o, ev)
    ensures ev.Fail? && n + 1 == c.maxAttempts ==> Triggers(c, o, ev)
  {
    DurationIs(c, 1);
  }

  lemma {:induction false} CountsUp(c: Config, o: Option<Entry>, n: int, start: int, t0: int, evs: seq<Event>)
    requires c.Sane() && Inv(c, o, t0) && Counting(c, o, n, start)
    requires Ordered(t0, evs) && NoReset(evs) && Within(evs, start + c.window)
    ensures var fails, times := FailTimes(evs), LockTimes(c, o, evs);
            if n + |fails| < c.maxAttempts
            then times == [] && Counting(c, Run(c, o, evs), n + |fails|, start)
            else times != [] && times[0] == fails[c.maxAttempts - n - 1]
    decreases |evs|
  {
    if evs != [] {
      var ev, rest := evs[0], evs[1..];
      CountingStep(c, o, n, start, t0, ev);
      InvStep(c, o, t0, ev);
      assert NoReset(rest) && Within(rest, start + c.window);
      if !Triggers(c, o, ev) {
        CountsUp(c, Apply(c, o, ev), if ev.Fail? then n + 1 else n, start, ev.t, rest);
      }
    }
  }

  /** Neither locked out nor counting. */
  predicate Clear(o: Option<Entry>, t: int) {
    o.Some? ==> o.value.windowStart == 0 && o.value.lockedUntil <= t
  }

  /** A failure on a clear key opens a window. Within it the key is locked out at the failure number maxAttempts
      and not before, however checks and cleanup are interleaved. */
  lemma LocksAtMaxAttempts(c: Config, o: Option<Entry>, t0: int, t: int, evs: seq<Event>)
    requires c.Sane() && Inv(c, o, t0) && t0 <= t && Clear(o, t)
    requires Ordered(t, evs) && NoReset(evs) && Within(evs, t + c.window)
    ensures var fails, times := FailTimes([Fail(t)] + evs), LockTimes(c, o, [Fail(t)] + evs);
            if |fails| < c.maxAttempts then times == [] else times != [] && times[0] == fails[c.maxAttempts - 1]
  {
    var all := [Fail(t)] + evs;
    assert all[0] == Fail(t) && all[1..] == evs;
    InvStep(c, o, t0, Fail(t));
    if c.maxAttempts > 1 {
      CountsUp(c, Apply(c, o, Fail(t)), 1, t, t, evs);
    }
  }

  /** A failure that comes when the window has run out counts as the first one of a new window. */
  lemma LateFailureStartsOver(c: Config, e: Entry, t: int)
    requires e.windowStart != 0 && t - e.windowStart > c.window
    ensures Record(c, e, t) == if t < e.lockedUntil then e.(lastSeen := t)
                               else Record(c, e.(failures := 0, windowStart := 0), t)
  {
  }
}
