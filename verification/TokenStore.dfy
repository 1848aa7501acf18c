/** The login-token store: an expiring map swept in the background. */
module TokenStore {
  import opened Wrappers

  class SessionStore {
    var sessions: map<string, int>

    constructor ()
      ensures sessions == map[]
    {
      sessions := map[];
    }

    method Add(token: string, duration: int, now: int)
      modifies this
      ensures sessions == ApplyOp(old(sessions), Op.Add(token, duration, now))
      ensures sessions == old(sessions)[token := now + duration]
    {
      sessions := sessions[token := now + duration];
    }

    method Validate(token: string, now: int) returns (ok: bool)
      ensures ok == Accepts(sessions, token, now)
      ensures ok <==> token in sessions && now < sessions[token]
    {
      if token in sessions {
        var expiry := sessions[token];
        ok := now < expiry;
      } else {
        ok := false;
      }
    }

    method Remove(token: string)
      modifies this
      ensures sessions == old(sessions) - {token}
    {
      sessions := sessions - {token};
    }

    /** One tick of the background cleanup. */
    method Cleanup(now: int)
      modifies this
      ensures sessions == ApplyOp(old(sessions), Tick(now))
      ensures forall k :: k in sessions <==> k in old(sessions) && now <= old(sessions)[k]
      ensures forall k :: k in sessions ==> sessions[k] == old(sessions)[k]
    {
      var todo := sessions.Keys;
      while todo != {}
        invariant todo <= sessions.Keys <= old(sessions).Keys
        invariant forall k :: k in sessions ==> sessions[k] == old(sessions)[k]
        invariant forall k :: k in old(sessions) && k !in todo ==> (k in sessions <==> now <= old(sessions)[k])
        decreases todo
      {
        var token :| token in todo;
        var expiry := sessions[token];
        if now > expiry {
          sessions := sessions - {token};
        }
        todo := todo - {token};
      }
    }
  }

  datatype Op =
    | Add(token: string, duration: int, t: int)
    | Remove(token: string, t: int)
    | Validate(token: string, t: int)
    | Tick(t: int)

  predicate Accepts(m: map<string, int>, token: string, now: int) {
    token in m && now < m[token]
  }

  function ApplyOp(m: map<string, int>, op: Op): map<string, int> {
    match op
    case Add(token, duration, t) => m[token := t + duration]
    case Remove(token, _) => m - {token}
    case Validate(_, _) => m
    case Tick(t) => map k | k in m && t <= m[k] :: m[k]
  }

  /** The answers given to the Validate calls of a run, in order. */
  function Answers(m: map<string, int>, ops: seq<Op>): seq<bool>
    decreases |ops|
  {
    if ops == [] then []
    else (if ops[0].Validate? then [Accepts(m, ops[0].token, ops[0].t)] else [])
         + Answers(ApplyOp(m, ops[0]), ops[1..])
  }

  function WithoutTicks(ops: seq<Op>): seq<Op>
    decreases |ops|
  {
    if ops == [] then [] else (if ops[0].Tick? then [] else [ops[0]]) + WithoutTicks(ops[1..])
  }

  predicate Ordered(t0: int, ops: seq<Op>)
    decreases |ops|
  {
    ops == [] || (t0 <= ops[0].t && Ordered(ops[0].t, ops[1..]))
  }

  /** swept is full with some tokens missing that had expired by t. */
  ghost predicate SweptFrom(swept: map<string, int>, full: map<string, int>, t: int) {
    forall k :: SameOrExpired(swept, full, k, t)
  }

  predicate SameOrExpired(swept: map<string, int>, full: map<string, int>, k: string, t: int) {
    Lookup(swept, k) == Lookup(full, k) || (k !in swept && k in full && full[k] < t)
  }

  lemma SweptStep(swept: map<string, int>, full: map<string, int>, t0: int, op: Op)
    requires SweptFrom(swept, full, t0) && t0 <= op.t
    ensures SweptFrom(ApplyOp(swept, op), if op.Tick? then full else ApplyOp(full, op), op.t)
    ensures op.Validate? ==> Accepts(swept, op.token, op.t) == Accepts(full, op.token, op.t)
  {
    var full' := if op.Tick? then full else ApplyOp(full, op);
    forall k ensures SameOrExpired(ApplyOp(swept, op), full', k, op.t) {
      assert SameOrExpired(swept, full, k, t0);
    }
    if op.Validate? {
      assert SameOrExpired(swept, full, op.token, t0);
    }
  }

  lemma {:induction false} SameAnswers(swept: map<string, int>, full: map<string, int>, t0: int, ops: seq<Op>)
    requires SweptFrom(swept, full, t0) && Ordered(t0, ops)
    ensures Answers(swept, ops) == Answers(full, WithoutTicks(ops))
    decreases |ops|
  {
    if ops != [] {
      var op, rest := ops[0], ops[1..];
      SweptStep(swept, full, t0, op);
      if op.Tick? {
        assert WithoutTicks(ops) == WithoutTicks(rest);
        SameAnswers(ApplyOp(swept, op), full, op.t, rest);
      } else {
        assert WithoutTicks(ops)[1..] == WithoutTicks(rest);
        SameAnswers(ApplyOp(swept, op), ApplyOp(full, op), op.t, rest);
      }
    }
  }

  /** Cleanup is invisible: no run under a non-decreasing clock can tell it from a store that never cleans up. */
  lemma CleanupInvisible(m: map<string, int>, t0: int, ops: seq<Op>)
    requires Ordered(t0, ops)
    ensures Answers(m, ops) == Answers(m, WithoutTicks(ops))
  {
    forall k ensures Lookup(m, k) == Lookup(m, k) {}
    SameAnswers(m, m, t0, ops);
  }

  function RunOps(m: map<string, int>, ops: seq<Op>): map<string, int>
    decreases |ops|
  {
    if ops == [] then m else RunOps(ApplyOp(m, ops[0]), ops[1..])
  }

  function NextGrant(before: Option<int>, token: string, op: Op): Option<int> {
    match op
    case Add(k, duration, t) => if k == token then Some(t + duration) else before
    case Remove(k, _) => if k == token then None else before
    case _ => before
  }

  /** When the latest grant of a token runs out; None if it was never granted or revoked since. */
  function LatestGrant(before: Option<int>, token: string, ops: seq<Op>): Option<int>
    decreases |ops|
  {
    if ops == [] then before else LatestGrant(NextGrant(before, token, ops[0]), token, ops[1..])
  }

  lemma {:induction false} GrantsTrackStore(m: map<string, int>, before: Option<int>, t0: int, token: string,
                                            ops: seq<Op>)
    requires Ordered(t0, ops)
    requires Lookup(m, token) == before || (token !in m && before.Some? && before.value < t0)
    ensures var t := if ops == [] then t0 else ops[|ops| - 1].t;
            var grant := LatestGrant(before, token, ops);
            Lookup(RunOps(m, ops), token) == grant || (token !in RunOps(m, ops) && grant.Some? && grant.value < t)
    decreases |ops|
  {
    if ops != [] {
      GrantsTrackStore(ApplyOp(m, ops[0]), NextGrant(before, token, ops[0]), ops[0].t, token, ops[1..]);
    }
  }

  /** After any run from an empty store a token is accepted exactly while its latest grant lasts. */
  lemma AcceptedIffGranted(t0: int, ops: seq<Op>, token: string, now: int)
    requires Ordered(t0, ops) && (if ops == [] then t0 else ops[|ops| - 1].t) <= now
    ensures Accepts(RunOps(map[], ops), token, now)
       <==> LatestGrant(None, token, ops).Some? && now < LatestGrant(None, token, ops).value
  {
    GrantsTrackStore(map[], None, t0, token, ops);
  }

  /** Nothing in the run grants or revokes the token. */
  predicate LeavesAlone(ops: seq<Op>, token: string) {
    forall i :: 0 <= i < |ops| ==>
      (ops[i].Add? ==> ops[i].token != token) && (ops[i].Remove? ==> ops[i].token != token)
  }

  lemma {:induction false} GrantLasts(m: map<string, int>, ops: seq<Op>, token: string, expiry: int, now: int)
    requires Lookup(m, token) == Some(expiry) || (token !in m && expiry <= now)
    requires LeavesAlone(ops, token) && forall i :: 0 <= i < |ops| ==> ops[i].t <= now
    ensures Accepts(RunOps(m, ops), token, now) <==> now < expiry
    decreases |ops|
  {
    if ops != [] {
      assert LeavesAlone(ops[1..], token);
      GrantLasts(ApplyOp(m, ops[0]), ops[1..], token, expiry, now);
    }
  }

  /** A token granted at t is accepted for exactly `duration`, whatever is granted, revoked, asked or swept besides. */
  lemma GrantedForItsDuration(m: map<string, int>, token: string, duration: int, t: int, ops: seq<Op>, now: int)
    requires LeavesAlone(ops, token) && forall i :: 0 <= i < |ops| ==> ops[i].t <= now
    ensures Accepts(RunOps(m[token := t + duration], ops), token, now) <==> now < t + duration
    ensures !Accepts(RunOps(m - {token}, ops), token, now)
  {
    GrantLasts(m[token := t + duration], ops, token, t + duration, now);
    GrantLasts(m - {token}, ops, token, now, now);
  }
}
