/** The life of the connections to one session: attached by the websocket handler, closed by the session, and
    left by their read pump, which closes the client's channel again if the session has closed it already. */
module Connections {

  datatype Event<C> = Attach(c: C) | Leave(c: C) | Close

  /** Clients still registered, and clients whose channel is closed. */
  datatype State<C> = State(registered: set<C>, closed: set<C>)

  predicate Possible<C(==)>(s: State<C>, ev: Event<C>) {
    match ev
    case Attach(c) => c !in s.registered + s.closed
    case Leave(c) => c in s.registered + s.closed
    case Close => true
  }

  function Step<C>(s: State<C>, ev: Event<C>): State<C> {
    match ev
    case Attach(c) => State(s.registered + {c}, s.closed)
    case Leave(c) => State(s.registered - {c}, s.closed + {c})
    case Close => State({}, s.closed + s.registered)
  }

  function After<C>(evs: seq<Event<C>>): State<C>
    decreases |evs|
  {
    if evs == [] then State({}, {}) else Step(After(evs[..|evs| - 1]), evs[|evs| - 1])
  }

  ghost predicate History<C(!new)>(evs: seq<Event<C>>)
    decreases |evs|
  {
    evs == [] || (History(evs[..|evs| - 1]) && Possible(After(evs[..|evs| - 1]), evs[|evs| - 1]))
  }

  /** Closing a closed channel panics, which ends the server. */
  predicate Panics<C(==)>(s: State<C>, ev: Event<C>) { ev.Leave? && ev.c in s.closed }

  /** The session was closed while this client was attached. */
  ghost predicate ClosedOver<C(!new)>(evs: seq<Event<C>>, c: C) {
    exists i, j :: 0 <= i < j < |evs| && evs[i] == Attach(c) && evs[j] == Close
  }

  lemma {:induction false} AttachedOnce<C(!new)>(evs: seq<Event<C>>, c: C)
    requires History(evs) && Leave(c) !in evs
    ensures Attach(c) in evs <==> c in After(evs).registered + After(evs).closed
    ensures !(c in After(evs).registered && c in After(evs).closed)
    ensures c in After(evs).closed <==> ClosedOver(evs, c)
    decreases |evs|
  {
    if evs != [] {
      var n := |evs| - 1;
      var front, ev := evs[..n], evs[n];
      assert evs == front + [ev];
      AttachedOnce(front, c);
      if ev == Close && c in After(front).registered {
        var i :| 0 <= i < n && front[i] == Attach(c);
        assert evs[i] == Attach(c) && evs[n] == Close;
      }
      if ClosedOver(front, c) {
        var i, j :| 0 <= i < j < n && front[i] == Attach(c) && front[j] == Close;
        assert evs[i] == Attach(c) && evs[j] == Close;
      }
      if ClosedOver(evs, c) && !ClosedOver(front, c) {
        var i, j :| 0 <= i < j < |evs| && evs[i] == Attach(c) && evs[j] == Close;
        assert front[i] == Attach(c);
        assert j < n ==> front[j] == Close;
      }
    }
  }

  /** A connection that has not left yet ends the server by leaving exactly when its session has been closed
      since it attached. */
  lemma {:induction false} LeavePanicsExactly<C(!new)>(evs: seq<Event<C>>, c: C)
    requires History(evs) && Leave(c) !in evs && Attach(c) in evs
    ensures Possible(After(evs), Leave(c))
    ensures Panics(After(evs), Leave(c)) <==> ClosedOver(evs, c)
  {
    AttachedOnce(evs, c);
  }

  /** So the server ends when a session with one client is closed. */
  lemma WatchedCloseEndsServer<C(!new)>(c: C)
    ensures var evs := [Attach(c), Close];
            History(evs) && Leave(c) !in evs && Panics(After(evs), Leave(c))
  {
    var evs: seq<Event<C>> := [Attach(c), Close];
    var front: seq<Event<C>> := [Attach(c)];
    assert evs[..1] == front && front[..0] == [];
    assert History(front[..0]) && After(front[..0]) == State({}, {});
    assert History(front) && After(front) == State({c}, {});
  }
}
