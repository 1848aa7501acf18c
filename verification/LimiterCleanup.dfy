/** What the background cleanup of the rate limiter can and cannot change, and why keys do not interact. */
module LimiterCleanup {
  import opened Wrappers
  import opened RateLimiter
  import opened LimiterRuns

  /** The same run with no cleanup tick at all. */
  function Strip(evs: seq<Event>): (r: seq<Event>)
    decreases |evs|
  {
    if evs == [] then []
    else (if evs[0].Clean? then [] else [evs[0]]) + Strip(evs[1..])
  }

  /** What a caller can observe: the answer to a check, the failure count and window after a failure. */
  datatype Observation = Answer(allowed: bool) | Tally(failures: int, windowStart: int)

  function Observed(c: Config, o: Option<Entry>, ev: Event): seq<Observation> {
    match ev
    case Check(t) => [Answer(!Locked(o, t))]
    case Fail(_) => var e := Apply(c, o, ev).value; [Tally(e.failures, e.windowStart)]
    case _ => []
  }

  function Observations(c: Config, o: Option<Entry>, evs: seq<Event>): seq<Observation>
    decreases |evs|
  {
    if evs == [] then [] else Observed(c, o, evs[0]) + Observations(c, Apply(c, o, evs[0]), evs[1..])
  }

  /** a is what b became after cleanup may have removed it and failures may have been recorded since. */
  ghost predicate Forgot(c: Config, a: Option<Entry>, b: Option<Entry>, t: int) {
    || a == b
    || (&& a.None? && b.Some? && b.value.lockedUntil <= t
        && (b.value.windowStart == 0 || t - b.value.windowStart > c.window))
    || (&& a.Some? && b.Some?
        && a.value.failures == b.value.failures && a.value.windowStart == b.value.windowStart
        && a.value.lastSeen == b.value.lastSeen && a.value.level <= b.value.level
        && a.value.lockedUntil <= t && b.value.lockedUntil <= t)
  }

  lemma DurationGrows(c: Config, l: nat, m: nat)
    requires c.Sane() && 1 <= l <= m
    ensures Lockout.Duration(c.base, l) <= Lockout.Duration(c.base, m)
  {
    DurationIs(c, l);
    DurationIs(c, m);
    if m <= 4 {
      Int64.Pow2Monotone(l - 1, m - 1);
      Scale(c.base, Int64.Pow2(l - 1), Int64.Pow2(m - 1));
    } else {
      Lockout.DocumentedIsMin(c.base, l);
    }
  }

  /** Recording a failure on both sides: both lock out or neither does, and the side that
      forgot is never locked out for longer. */
  lemma FailTogether(c: Config, a: Option<Entry>, b: Option<Entry>, t0: int, ev: Event)
    requires c.Sane() && Inv(c, a, t0) && Inv(c, b, t0) && Forgot(c, a, b, t0) && t0 <= ev.t && ev.Fail?
    ensures Triggers(c, a, ev) <==> Triggers(c, b, ev)
    ensures var a', b' := Apply(c, a, ev).value, Apply(c, b, ev).value;
            && (Triggers(c, b, ev) ==> a'.lockedUntil <= b'.lockedUntil)
            && a'.level <= b'.level
            && Observed(c, a, ev) == Observed(c, b, ev)
    ensures !Triggers(c, b, ev) ==> Forgot(c, Apply(c, a, ev), Apply(c, b, ev), ev.t)
  {
    DurationGrows(c, a.GetOr(BLANK).level + 1, b.GetOr(BLANK).level + 1);
  }

  lemma CleanTogether(c: Config, a: Option<Entry>, b: Option<Entry>, t0: int, ev: Event)
    requires c.Sane() && Inv(c, a, t0) && Inv(c, b, t0) && Forgot(c, a, b, t0) && t0 <= ev.t && ev.Clean?
    ensures Forgot(c, Apply(c, a, ev), b, ev.t)
  {
    DurationIs(c, 1);
  }

  lemma EventTogether(c: Config, a: Option<Entry>, b: Option<Entry>, t0: int, ev: Event)
    requires c.Sane() && Inv(c, a, t0) && Inv(c, b, t0) && Forgot(c, a, b, t0) && t0 <= ev.t
    requires !ev.Clean? && !Triggers(c, b, ev)
    ensures !Triggers(c, a, ev) && Observed(c, a, ev) == Observed(c, b, ev)
    ensures Forgot(c, Apply(c, a, ev), Apply(c, b, ev), ev.t)
  {
    if ev.Fail? {
      FailTogether(c, a, b, t0, ev);
    }
  }

  /** The two runs end in records that differ at most by what cleanup forgets. */
  ghost predicate UnseenAfter(c: Config, a: Option<Entry>, b: Option<Entry>, t0: int, evs: seq<Event>) {
    var t := if evs == [] then t0 else evs[|evs| - 1].t;
    && Inv(c, Run(c, a, evs), t) && Inv(c, Run(c, b, Strip(evs)), t)
    && Forgot(c, Run(c, a, evs), Run(c, b, Strip(evs)), t)
  }

  lemma UnseenOn(c: Config, a: Option<Entry>, b: Option<Entry>, b': Option<Entry>, t0: int, evs: seq<Event>)
    requires evs != [] && UnseenAfter(c, Apply(c, a, evs[0]), b', evs[0].t, evs[1..])
    requires Run(c, b, Strip(evs)) == Run(c, b', Strip(evs[1..]))
    ensures UnseenAfter(c, a, b, t0, evs)
  {
  }

  lemma StripKeeps(c: Config, b: Option<Entry>, evs: seq<Event>)
    requires evs != [] && !evs[0].Clean?
    ensures var ev, rest := evs[0], Strip(evs[1..]);
            && Strip(evs) == [ev] + rest
            && Run(c, b, Strip(evs)) == Run(c, Apply(c, b, ev), rest)
            && Observations(c, b, Strip(evs)) == Observed(c, b, ev) + Observations(c, Apply(c, b, ev), rest)
            && LockTimes(c, b, Strip(evs)) == (if Triggers(c, b, ev) then [ev.t] else [])
                                              + LockTimes(c, Apply(c, b, ev), rest)
  {
    assert Strip(evs)[1..] == Strip(evs[1..]);
  }

  /** Until the key's next lockout, a run with any cleanup ticks and the run without them give the
      same answers, failure counts and windows. */
  lemma {:induction false} CleanupUnseen(c: Config, a: Option<Entry>, b: Option<Entry>, t0: int, evs: seq<Event>)
    requires c.Sane() && Inv(c, a, t0) && Inv(c, b, t0) && Forgot(c, a, b, t0) && Ordered(t0, evs)
    requires LockTimes(c, b, Strip(evs)) == []
    ensures Observations(c, a, evs) == Observations(c, b, Strip(evs))
    ensures LockTimes(c, a, evs) == []
    ensures UnseenAfter(c, a, b, t0, evs)
    decreases |evs|
  {
    if evs != [] {
      var ev, rest := evs[0], evs[1..];
      InvStep(c, a, t0, ev);
      if ev.Clean? {
        CleanTogether(c, a, b, t0, ev);
        InvTime(c, b, t0, ev.t);
        assert Strip(evs) == Strip(rest) && Observed(c, a, ev) == [];
        CleanupUnseen(c, Apply(c, a, ev), b, ev.t, rest);
        UnseenOn(c, a, b, b, t0, evs);
      } else {
        InvStep(c, b, t0, ev);
        StripKeeps(c, b, evs);
        assert !Triggers(c, b, ev);
        EventTogether(c, a, b, t0, ev);
        CleanupUnseen(c, Apply(c, a, ev), Apply(c, b, ev), ev.t, rest);
        UnseenOn(c, a, b, Apply(c, b, ev), t0, evs);
      }
    }
  }

  /** Cleanup loses only the backoff level. */
  lemma CleanupLosesOnlyLevel(c: Config, o: Option<Entry>, t0: int, evs: seq<Event>, t: int)
    requires c.Sane() && Inv(c, o, t0) && Ordered(t0, evs + [Fail(t)])
    requires LockTimes(c, o, Strip(evs)) == []
    ensures Observations(c, o, evs) == Observations(c, o, Strip(evs))
    ensures var a, b := Run(c, o, evs), Run(c, o, Strip(evs));
            && (Triggers(c, a, Fail(t)) <==> Triggers(c, b, Fail(t)))
            && Observed(c, a, Fail(t)) == Observed(c, b, Fail(t))
            && (Triggers(c, b, Fail(t)) ==>
                  && Record(c, a.GetOr(BLANK), t).lockedUntil <= Record(c, b.GetOr(BLANK), t).lockedUntil
                  && Record(c, a.GetOr(BLANK), t).level <= Record(c, b.GetOr(BLANK), t).level)
  {
    OrderedSplit(t0, evs, t);
    CleanupUnseen(c, o, o, t0, evs);
    var last := if evs == [] then t0 else evs[|evs| - 1].t;
    FailTogether(c, Run(c, o, evs), Run(c, o, Strip(evs)), last, Fail(t));
  }

  lemma {:induction false} OrderedSplit(t0: int, evs: seq<Event>, t: int)
    requires Ordered(t0, evs + [Fail(t)])
    ensures Ordered(t0, evs) && (if evs == [] then t0 else evs[|evs| - 1].t) <= t
    decreases |evs|
  {
    if evs == [] {
      assert (evs + [Fail(t)])[0] == Fail(t);
    } else {
      assert (evs + [Fail(t)])[0] == evs[0] && (evs + [Fail(t)])[1..] == evs[1..] + [Fail(t)];
      OrderedSplit(evs[0].t, evs[1..], t);
    }
  }

  // ----- All keys together -----

  /** An operation on the limiter: one key's event, or a cleanup tick over every key. */
  datatype LimiterOp = On(key: string, ev: Event) | Tick(t: int)

  /** The effect on the map, as the methods of `RateLimiter.RateLimiter` leave it. */
  function ApplyAll(c: Config, m: map<string, Entry>, op: LimiterOp): map<string, Entry> {
    match op
    case Tick(t) => map k | k in m && !Removable(c, m[k], t) :: m[k]
    case On(key, Fail(t)) => m[key := Record(c, Lookup(m, key).GetOr(BLANK), t)]
    case On(key, Forget(_)) => m - {key}
    case On(key, Clean(t)) => if key in m && Removable(c, m[key], t) then m - {key} else m
    case On(_, Check(_)) => m
  }

  function RunAll(c: Config, m: map<string, Entry>, ops: seq<LimiterOp>): map<string, Entry>
    decreases |ops|
  {
    if ops == [] then m else RunAll(c, ApplyAll(c, m, ops[0]), ops[1..])
  }

  function OfOne(key: string, op: LimiterOp): seq<Event> {
    match op
    case On(k, ev) => if k == key then [ev] else []
    case Tick(t) => [Clean(t)]
  }

  /** The events of one key, in order. */
  function Of(key: string, ops: seq<LimiterOp>): seq<Event>
    decreases |ops|
  {
    if ops == [] then [] else OfOne(key, ops[0]) + Of(key, ops[1..])
  }

  /** Keys are isolated: a key's record after any run depends on that key's events alone. */
  lemma {:induction false} KeysAreIsolated(c: Config, m: map<string, Entry>, ops: seq<LimiterOp>, key: string)
    ensures Lookup(RunAll(c, m, ops), key) == Run(c, Lookup(m, key), Of(key, ops))
    decreases |ops|
  {
    if ops != [] {
      KeysAreIsolated(c, ApplyAll(c, m, ops[0]), ops[1..], key);
      if OfOne(key, ops[0]) == [] {
        assert Of(key, ops) == Of(key, ops[1..]);
      } else {
        assert Of(key, ops)[1..] == Of(key, ops[1..]);
      }
    }
  }
}
