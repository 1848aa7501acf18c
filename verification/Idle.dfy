/** The idle clock of one session: since when it has had no client, what the table is told about it, and when
    the reaper takes it. Times are nanoseconds; each attach or detach is one event with its callback. */
module Idle {
  import opened Wrappers
  import opened Int64

  /** goneAt is 0 while a client is attached. */
  datatype Clock<C> = Clock(clients: set<C>, goneAt: int)

  datatype Event<C> = Attach(c: C, t: int) | Detach(c: C, t: int) | Upsert(t: int)

  function Born<C>(t: int): Clock<C> { Clock({}, t) }

  predicate Possible<C(==)>(k: Clock<C>, ev: Event<C>) {
    match ev
    case Attach(c, _) => c !in k.clients
    case Detach(c, _) => c in k.clients
    case Upsert(_) => true
  }

  function Tick<C>(k: Clock<C>, ev: Event<C>): Clock<C> {
    match ev
    case Attach(c, _) => Clock(k.clients + {c}, if k.clients == {} then 0 else k.goneAt)
    case Detach(c, t) => Clock(k.clients - {c}, if k.clients - {c} == {} then t else k.goneAt)
    case Upsert(_) => k
  }

  /** What the event writes to the row's disconnect column: 0 on the first attach, the time in seconds on
      the last detach. */
  function Writes<C(==)>(k: Clock<C>, ev: Event<C>): Option<int> {
    match ev
    case Attach(_, _) => if k.clients == {} then Some(0) else None
    case Detach(c, t) => if k.clients - {c} == {} then Some(t / SECOND) else None
    case Upsert(_) => None
  }

  function Duration<C>(k: Clock<C>, now: int): int {
    if k.goneAt == 0 then -1 else now - k.goneAt
  }

  /** The reaper's test. */
  predicate Reaped<C>(k: Clock<C>, now: int, timeout: int) {
    Duration(k, now) >= 0 && Duration(k, now) > timeout
  }

  // ----- Histories: the session is born at `birth` and sees the events in order -----

  function After<C>(birth: int, evs: seq<Event<C>>): Clock<C>
    decreases |evs|
  {
    if evs == [] then Born(birth) else Tick(After(birth, evs[..|evs| - 1]), evs[|evs| - 1])
  }

  function LastTime<C>(birth: int, evs: seq<Event<C>>): int {
    if evs == [] then birth else evs[|evs| - 1].t
  }

  ghost predicate History<C>(birth: int, evs: seq<Event<C>>)
    decreases |evs|
  {
    if evs == [] then birth >= SECOND
    else
      var front, ev := evs[..|evs| - 1], evs[|evs| - 1];
      History(birth, front) && Possible(After(birth, front), ev) && LastTime(birth, front) <= ev.t
  }

  /** Some client was attached at moment u, looking back from `now`. */
  ghost predicate AttachedAt<C>(birth: int, evs: seq<Event<C>>, u: int, now: int)
    decreases |evs|
  {
    || (After(birth, evs).clients != {} && LastTime(birth, evs) <= u <= now)
    || (evs != [] && AttachedAt(birth, evs[..|evs| - 1], u, evs[|evs| - 1].t))
  }

  /** No client was attached at any moment from `from` to `now`. */
  ghost predicate Alone<C>(birth: int, evs: seq<Event<C>>, from: int, now: int) {
    forall u :: from <= u <= now ==> !AttachedAt(birth, evs, u, now)
  }

  /** In every reachable state the clock stands exactly while no client is attached, and it shows the last
      moment at which one was (or the birth of the session). */
  lemma {:induction false} ClockTells<C>(birth: int, evs: seq<Event<C>>, now: int)
    requires History(birth, evs) && LastTime(birth, evs) <= now
    ensures var k := After(birth, evs);
            && LastTime(birth, evs) >= birth >= SECOND
            && (k.clients == {} <==> k.goneAt != 0)
            && (k.clients == {} ==>
                  && birth <= k.goneAt <= LastTime(birth, evs)
                  && (k.goneAt == birth || AttachedAt(birth, evs, k.goneAt, now))
                  && Alone(birth, evs, k.goneAt + 1, now))
    decreases |evs|
  {
    if evs != [] {
      var front, ev := evs[..|evs| - 1], evs[|evs| - 1];
      ClockTells(birth, front, ev.t);
      var k, k' := After(birth, front), After(birth, evs);
      if k'.clients == {} {
        forall u | k'.goneAt < u <= now ensures !AttachedAt(birth, evs, u, now) {
          if u > ev.t {
            NotAttachedLater(birth, front, u, ev.t);
          }
        }
        if ev.Detach? {
          assert AttachedAt(birth, front, ev.t, ev.t);
        }
      }
    }
  }

  lemma {:induction false} NotAttachedLater<C>(birth: int, evs: seq<Event<C>>, u: int, now: int)
    requires History(birth, evs) && LastTime(birth, evs) <= now < u
    ensures !AttachedAt(birth, evs, u, now)
    decreases |evs|
  {
    if evs != [] {
      NotAttachedLater(birth, evs[..|evs| - 1], u, evs[|evs| - 1].t);
    }
  }

  /** The reaper takes a session at `now` exactly when it was born more than `timeout` ago and no client was
      attached at any moment of the timeout before `now`. */
  lemma ReapedIffIdle<C>(birth: int, evs: seq<Event<C>>, now: int, timeout: int)
    requires History(birth, evs) && LastTime(birth, evs) <= now && timeout > 0
    ensures Reaped(After(birth, evs), now, timeout)
       <==> birth < now - timeout && Alone(birth, evs, now - timeout, now)
  {
    ClockTells(birth, evs, now);
    var k := After(birth, evs);
    if k.clients != {} {
      assert AttachedAt(birth, evs, now, now);
    } else if k.goneAt >= now - timeout && k.goneAt != birth {
      assert AttachedAt(birth, evs, k.goneAt, now);
    }
  }

  // ----- What the row says -----

  /** The disconnect column after the events; None before the Upsert. */
  function Column<C(==)>(birth: int, evs: seq<Event<C>>): Option<int>
    decreases |evs|
  {
    if evs == [] then None
    else
      var front, ev := evs[..|evs| - 1], evs[|evs| - 1];
      var column, write := Column(birth, front), Writes(After(birth, front), ev);
      if ev.Upsert? then Some(birth / SECOND)
      else if column.Some? && write.Some? then write
      else column
  }

  /** The session was attached when its row was upserted and has been ever since. */
  predicate AttachedSinceUpsert<C(==)>(birth: int, evs: seq<Event<C>>)
    decreases |evs|
  {
    evs != [] && After(birth, evs).clients != {} &&
    (evs[|evs| - 1].Upsert? || AttachedSinceUpsert(birth, evs[..|evs| - 1]))
  }

  /** Once the row exists, its disconnect column is 0 exactly while a client is attached, unless a client
      attached before the Upsert and the session has not been empty since: then, and only then, it is wrong. */
  lemma {:induction false} ColumnExact<C>(birth: int, evs: seq<Event<C>>)
    requires History(birth, evs) && Column(birth, evs).Some?
    ensures (Column(birth, evs).value == 0 <==> After(birth, evs).clients != {}) <==> !AttachedSinceUpsert(birth, evs)
    decreases |evs|
  {
    var front, ev := evs[..|evs| - 1], evs[|evs| - 1];
    ClockTells(birth, front, ev.t);
    assert birth / SECOND != 0 && ev.t / SECOND != 0;
    if Column(birth, front).Some? {
      ColumnExact(birth, front);
    } else {
      assert ev.Upsert?;
    }
  }

  /** A client that attaches before the Upsert leaves the column wrong: it shows the birth while the client is there. */
  lemma EarlyAttachMisleads<C>(birth: int, t: int, c: C)
    requires SECOND <= birth <= t
    ensures var evs := [Attach(c, t), Upsert(t)];
            && History(birth, evs) && After(birth, evs).clients == {c} && AttachedSinceUpsert(birth, evs)
            && Column(birth, evs) == Some(birth / SECOND) && birth / SECOND != 0
  {
    var evs: seq<Event<C>> := [Attach(c, t), Upsert(t)];
    var front: seq<Event<C>> := [Attach(c, t)];
    assert evs[..1] == front && front[..0] == [];
    assert History(birth, front[..0]) && After(birth, front[..0]) == Born(birth);
    assert History(birth, front) && After(birth, front).clients == {c};
  }
}
