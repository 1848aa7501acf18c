/** The session manager as the server's object: the live map, the table behind it, and what each method
    leaves in both. */
module Managers {
  import opened Int64
  import opened MetaStore
  import opened Sessions
  import opened SoloRuns
  import opened ManagerCalls
  import opened Protocol
  import Listing

  lemma FlushMore(t: Table, done: map<Id, FlushInfo>, id: Id, info: FlushInfo)
    requires id !in done
    ensures Flushed(Flushed(t, done), map[id := info]) == Flushed(t, done[id := info])
  {
  }

  lemma SweepMore(t: Table, done: set<Id>, id: Id)
    ensures WithStatus(SweptRows(t, done), id, Detached) == SweptRows(t, done + {id})
  {
  }

  lemma MinusTwice<K, V>(m: map<K, V>, done: set<K>, k: K)
    ensures m - done - {k} == m - (done + {k})
  {
  }

  /** These sessions have no clients. */
  ghost predicate Emptied(sessions: map<Id, Session>, ids: set<Id>)
    reads sessions.Values
  {
    forall id :: id in ids && id in sessions ==> sessions[id].clients == {}
  }

  class Manager {
    var sessions: map<Id, Session>
    const store: Store
    const idleTimeout: int
    const maxSessions: int

    /** Every client that a session of the map has had. */
    ghost function Known(): set<Client>
      reads this, sessions.Values
    {
      set s: Session, c: Client | s in sessions.Values && c in s.born :: c
    }

    /** Each session of the map is sound and registered under its own id. */
    ghost predicate Valid()
      reads this, sessions.Values, Known()
    {
      forall id :: id in sessions ==> sessions[id].id == id && sessions[id].store == store && sessions[id].Valid()
    }

    /** What the step system knows about this manager. */
    ghost function View(): Picture
      reads this, store, sessions.Values
    {
      Picture(Names(), store.table, maxSessions)
    }

    /** The names the live sessions go by. */
    ghost function Names(): map<Id, string>
      reads this, sessions.Values
    {
      map id | id in sessions :: sessions[id].name
    }

    /** The sessions ids are gone, the others keep their names and clients. */
    twostate predicate Dropped(ids: set<Id>)
      reads this, sessions.Values
    {
      && sessions == old(sessions) - ids
      && forall id :: id in sessions ==>
           && sessions[id].name == old(sessions[id].name)
           && sessions[id].clients == old(sessions[id].clients) && sessions[id].born == old(sessions[id].born)
    }

    twostate lemma Shown(ids: set<Id>)
      requires Dropped(ids)
      ensures Names() == old(Names()) - ids
    {
    }

    twostate lemma ExitShown(id: Id)
      requires Dropped({id})
      requires store.table == if id in old(sessions) then WithStatus(old(store.table), id, Dead) else old(store.table)
      ensures View() == AfterExit(old(View()), id)
    {
      Shown({id});
    }

    twostate lemma ReapShown(ids: set<Id>)
      requires Dropped(ids) && store.table == old(store.table) - ids
      ensures View() == AfterReap(old(View()), ids)
    {
      Shown(ids);
    }

    twostate lemma DeleteShown(id: Id)
      requires Dropped({id}) && store.table == old(store.table) - {id}
      ensures View() == AfterDelete(old(View()), id)
    {
      Shown({id});
    }

    twostate lemma CreateShown(new name: string, new now: int, new s: Session)
      requires sessions == old(sessions)[s.id := s] && s.name == NameFor(s.id, name)
      requires forall k :: k in sessions && k != s.id ==> sessions[k].name == old(sessions[k].name)
      requires store.table == Upserted(old(store.table), s.id, FreshRow(s.name, now, now))
      ensures View() == AfterCreate(old(View()), s.id, name, now, now)
    {
    }

    twostate lemma RenameShown(new id: Id, new name: string)
      requires sessions == old(sessions) && store.table == WithName(old(store.table), id, name)
      requires forall k :: k in sessions ==> sessions[k].name == if k == id then name else old(sessions[k].name)
      ensures View() == AfterRename(old(View()), id, name)
    {
    }

    twostate lemma FlushShown()
      requires unchanged(this) && unchanged(sessions.Values) && store.table == Flushed(old(store.table), Infos())
      ensures View() == AfterFlush(old(View()), Infos())
    {
    }

    twostate lemma CloseAllShown()
      requires sessions == map[]
      requires store.table == SweptRows(Flushed(old(store.table), old(Infos())), old(sessions).Keys)
      ensures View() == AfterCloseAll(old(View()), old(Infos()))
    {
    }

    ghost function Infos(): map<Id, FlushInfo>
      reads this, sessions.Values
    {
      map id | id in sessions :: FlushInfo(sessions[id].lastActivity, sessions[id].cols, sessions[id].rows)
    }

    constructor (store: Store, idleTimeout: int, maxSessions: int)
      modifies store
      ensures Valid() && sessions == map[] && this.store == store
      ensures this.idleTimeout == idleTimeout && this.maxSessions == maxSessions
      ensures View() == AfterRestart(Picture(map[], old(store.table), 0), maxSessions)
    {
      sessions := map[];
      this.store, this.idleTimeout, this.maxSessions := store, idleTimeout, maxSessions;
      new;
      store.MarkAllDetached();
    }

    /** The insertion of a new session and then of its row. */
    method Admit(s: Session, ghost name: string)
      requires Valid() && s.Valid() && s.store == store
      requires s.clients == {} && s.name == NameFor(s.id, name) && s.lastActivity == s.createdAt / SECOND
      modifies this`sessions, store
      ensures Valid() && sessions == old(sessions)[s.id := s]
      ensures View() == AfterCreate(old(View()), s.id, name, s.lastActivity, s.lastActivity)
    {
      sessions := sessions[s.id := s];
      store.Upsert(s.id, Row(s.name, s.createdAt / SECOND, s.lastActivity, s.createdAt / SECOND, 0, 0, Running));
      CreateShown(name, s.lastActivity, s);
    }

    /** id is the drawn identifier; started tells whether the shell could be started. A session or row that
        has the identifier already is replaced. */
    method Create(name: string, id: Id, started: bool, now: int) returns (s: Session?)
      requires Valid()
      modifies this, store
      ensures Valid()
      ensures s != null <==> started && (maxSessions <= 0 || |old(sessions)| < maxSessions)
      ensures s == null ==> sessions == old(sessions) && View() == old(View())
      ensures s != null ==> fresh(s) && sessions == old(sessions)[id := s] && s.clients == {}
      ensures s != null ==> View() == AfterCreate(old(View()), id, name, now / SECOND, now / SECOND)
      ensures s != null ==>
                var name', t := if name == "" then id else name, now / 1_000_000_000;
                && s.name == name' && s.createdAt == now
                && store.table == old(store.table)[id := Row(name', if id in old(store.table)
                                                                    then old(store.table)[id].createdAt else t,
                                                             t, t, 0, 0, Running)]
    {
      if maxSessions > 0 {
        var n := |sessions|;
        if n >= maxSessions {
          return null;
        }
      }
      if !started {
        return null;
      }
      s := new Session(id, name, store, now);
      Admit(s, name);
    }

    method Get(id: Id) returns (s: Session?)
      ensures if id in sessions then s == sessions[id] else s == null
    {
      s := if id in sessions then sessions[id] else null;
    }

    /** Whether the table has a row for the id. */
    method Persisted(id: Id) returns (persisted: bool)
      ensures persisted <==> id in store.table
    {
      var rows := store.List();
      Listing.RowsOfTable(store.table, rows);
      for i := 0 to |rows|
        invariant forall j :: 0 <= j < i ==> rows[j].id != id
      {
        if rows[i].id == id {
          return true;
        }
      }
      return false;
    }

    /** A websocket connection to a session: unknown ids are turned away; the first client of a session has
        its row say that it is attached. */
    method Connect(id: Id, ghost now: int) returns (c: Client?, replay: seq<Bytes.byte>)
      requires Valid()
      modifies store, if id in sessions then {sessions[id]} else {}
      ensures Valid()
      ensures if id in sessions
              then && c != null && fresh(c) && sessions[id].clients == old(sessions[id].clients) + {c}
                   && replay == sessions[id].history
                   && store.table == if old(sessions[id].clients) == {} && id in old(store.table)
                                     then old(store.table)[id := old(store.table)[id].(disconnect := 0)]
                                     else old(store.table)
              else c == null && unchanged(store)
    {
      var s := Get(id);
      if s == null {
        return null, [];
      }
      c, replay := s.HandleWebSocket(now);
    }

    /** The end of a connection, whether or not its session is still in the map. If the session has been closed
        under it, the channel is closed a second time, and the server ends. */
    method Disconnect(s: Session, c: Client, now: int) returns (panicked: bool)
      requires Valid() && s.Valid() && s.store == store && c in s.born
      modifies store, c, s
      ensures Valid() && s.Valid() && c.done
      ensures panicked == old(c.done) && (panicked ==> unchanged(store, s, c))
      ensures !panicked ==> s.clients == old(s.clients) - {c}
      ensures !panicked ==>
                var t := old(store.table);
                store.table == if s.clients == {} && s.id in t
                               then t[s.id := t[s.id].(disconnect := now / 1_000_000_000)] else t
    {
      panicked := s.RemoveClient(c, now);
    }

    /** The region under the mutex in which a session is removed: whoever gets it back has to finish it. */
    method Take(id: Id) returns (s: Session?)
      requires Valid()
      modifies this`sessions
      ensures Valid() && Dropped({id})
      ensures if id in old(sessions) then s == old(sessions)[id] else s == null
      ensures s != null ==> s.Valid() && s !in sessions.Values
    {
      s := if id in sessions then sessions[id] else null;
      sessions := sessions - {id};
    }

    /** Closing a session that has left the map and erasing its row touches none of the others. */
    method Finish(id: Id, s: Session?)
      requires Valid() && (s != null ==> s.Valid() && s !in sessions.Values)
      modifies store, if s == null then {} else {s}, if s == null then {} else s.clients
      ensures Valid() && Dropped({}) && store.table == old(store.table) - {id}
      ensures s != null ==> forall c :: c in old(s.clients) ==> c.done
    {
      if s != null {
        s.Close();
      }
      store.Delete(id);
    }

    /** Unknown ids are reported; everything else about the id is gone afterwards. */
    method Delete(id: Id) returns (found: bool)
      requires Valid()
      modifies this`sessions, store
      modifies if id in sessions then {sessions[id]} else {}, if id in sessions then sessions[id].clients else {}
      ensures Valid() && Dropped({id})
      ensures found <==> id in old(sessions) || id in old(store.table)
      ensures View() == AfterDelete(old(View()), id) && store.table == old(store.table) - {id}
      ensures id in old(sessions) ==> forall c :: c in old(sessions[id].clients) ==> c.done
    {
      var s := Take(id);
      var persisted := Persisted(id);
      if s == null && !persisted {
        DeleteShown(id);
        return false;
      }
      Finish(id, s);
      DeleteShown(id);
      return true;
    }

    /** The callback of a session whose shell has exited. */
    method OnProcessExit(id: Id)
      requires Valid()
      modifies this, store
      ensures Valid() && sessions == old(sessions) - {id} && View() == AfterExit(old(View()), id)
      ensures store.table == if id in old(sessions) && id in old(store.table)
                             then old(store.table)[id := old(store.table)[id].(status := Dead)] else old(store.table)
    {
      var s := Take(id);
      if s != null {
        store.SetStatus(id, Dead);
      }
      ExitShown(id);
    }

    /** With a store the answer is always success, which is wrong exactly for an id that is neither live nor in
        the table; renaming such an id changes nothing. */
    method Rename(id: Id, name: string) returns (ok: bool)
      requires Valid()
      modifies store, (set s: Session | s in sessions.Values)`name
      ensures Valid() && sessions == old(sessions) && View() == AfterRename(old(View()), id, name)
      ensures forall k :: k in sessions ==> sessions[k].name == if k == id then name else old(sessions[k].name)
      ensures store.table == if id in old(store.table)
                             then old(store.table)[id := old(store.table)[id].(name := name)] else old(store.table)
      ensures var known := id in old(sessions) || id in old(store.table);
              ((ok <==> known) <==> known) && (!known ==> View() == old(View()))
    {
      if id !in sessions {
        ok := store.SetName(id, name);
        RenameShown(id, name);
        return;
      }
      var s := sessions[id];
      s.SetName(name);
      var stored := store.SetName(id, name);
      RenameShown(id, name);
      return true;
    }

    /** The live sessions in some order. */
    method Snapshot() returns (snapshot: seq<Session>)
      requires Valid()
      ensures forall i :: 0 <= i < |snapshot| ==> snapshot[i].id in sessions && sessions[snapshot[i].id] == snapshot[i]
      ensures forall i, j :: 0 <= i < j < |snapshot| ==> snapshot[i].id != snapshot[j].id
      ensures forall id :: id in sessions ==> sessions[id] in snapshot
    {
      snapshot := [];
      var todo := sessions.Keys;
      while todo != {}
        invariant todo <= sessions.Keys
        invariant forall i :: 0 <= i < |snapshot| ==>
                    && snapshot[i].id in sessions && snapshot[i].id !in todo && sessions[snapshot[i].id] == snapshot[i]
        invariant forall i, j :: 0 <= i < j < |snapshot| ==> snapshot[i].id != snapshot[j].id
        invariant forall id :: id in sessions && id !in todo ==> sessions[id] in snapshot
        decreases todo
      {
        var id :| id in todo;
        snapshot := snapshot + [sessions[id]];
        todo := todo - {id};
      }
    }

    /** Writes what one session reports, nothing but its activity and its size. */
    method FlushOne(s: Session)
      modifies store
      ensures store.table == Flushed(old(store.table), map[s.id := FlushInfo(s.lastActivity, s.cols, s.rows)])
      ensures s.id !in old(store.table) ==> store.table == old(store.table)
      ensures s.id in old(store.table) ==>
                var r := old(store.table)[s.id].(activity := s.lastActivity);
                store.table == old(store.table)[s.id := if s.cols > 0 && s.rows > 0
                                                        then r.(cols := s.cols, rows := s.rows) else r]
    {
      store.SetActivity(s.id, s.lastActivity);
      if s.cols > 0 && s.rows > 0 {
        store.SetSize(s.id, s.cols, s.rows);
      }
    }

    method Flush()
      requires Valid()
      modifies store
      ensures Valid() && View() == AfterFlush(old(View()), Infos())
      ensures store.table == Flushed(old(store.table), Infos())
    {
      var snapshot := Snapshot();
      ghost var done: map<Id, FlushInfo> := map[];
      for i := 0 to |snapshot|
        invariant done.Keys <= sessions.Keys && forall id :: id in done ==> done[id] == Infos()[id]
        invariant forall j :: 0 <= j < |snapshot| ==> (snapshot[j].id in done <==> j < i)
        invariant store.table == Flushed(old(store.table), done)
      {
        var s := snapshot[i];
        FlushOne(s);
        FlushMore(old(store.table), done, s.id, Infos()[s.id]);
        done := done[s.id := Infos()[s.id]];
      }
      assert done == Infos();
      FlushShown();
    }

    /** Closing a session of the map touches none of the others. */
    method CloseLive(id: Id)
      requires Valid() && id in sessions
      modifies sessions[id], sessions[id].clients
      ensures Valid() && sessions[id].clients == {} && forall c :: c in old(sessions[id].clients) ==> c.done
      ensures forall k :: k in sessions && k != id ==>
                && sessions[k].name == old(sessions[k].name)
                && sessions[k].clients == old(sessions[k].clients) && sessions[k].born == old(sessions[k].born)
    {
      sessions[id].Close();
    }

    /** One turn of the shutdown loop: close, mark, and only then drop from the map. */
    method CloseOne(id: Id)
      requires Valid() && id in sessions
      modifies this`sessions, store, sessions[id], sessions[id].clients
      ensures Valid() && Dropped({id})
      ensures store.table == WithStatus(old(store.table), id, Detached)
      ensures old(sessions[id]).clients == {} && forall c :: c in old(sessions[id].clients) ==> c.done
    {
      CloseLive(id);
      store.SetStatus(id, Detached);
      var s := Take(id);
    }

    /** The same next to the sessions closed before it, which stay as they are. */
    method CloseNext(id: Id, ghost was: map<Id, Session>, ghost dropped: set<Id>)
      requires Valid() && id in sessions && id !in dropped && id in was && was[id] == sessions[id]
      requires (forall k :: k in was ==> was[k].id == k) && Emptied(was, dropped)
      modifies this`sessions, store, sessions[id], sessions[id].clients
      ensures Valid() && Dropped({id}) && store.table == WithStatus(old(store.table), id, Detached)
      ensures Emptied(was, dropped + {id})
    {
      CloseOne(id);
    }

    /** The part of a shutdown that runs under the mutex. */
    method CloseEach()
      requires Valid()
      modifies this`sessions, store, sessions.Values, Known()
      ensures Valid() && sessions == map[] && store.table == SweptRows(old(store.table), old(sessions).Keys)
      ensures Emptied(old(sessions), old(sessions).Keys)
    {
      ghost var dropped: set<Id> := {};
      while sessions != map[]
        invariant Valid() && Dropped(dropped) && dropped <= old(sessions).Keys
        invariant store.table == SweptRows(old(store.table), dropped)
        invariant Emptied(old(sessions), dropped)
        decreases sessions.Keys
      {
        var id :| id in sessions;
        CloseNext(id, old(sessions), dropped);
        SweepMore(old(store.table), dropped, id);
        MinusTwice(old(sessions), dropped, id);
        dropped := dropped + {id};
      }
      assert dropped == old(sessions).Keys;
    }

    method CloseAll()
      requires Valid()
      modifies this`sessions, store, sessions.Values, Known()
      ensures Valid() && sessions == map[] && View() == AfterCloseAll(old(View()), old(Infos()))
      ensures Emptied(old(sessions), old(sessions).Keys)
    {
      Flush();
      CloseEach();
      CloseAllShown();
    }

    /** The sessions that the idle clock declares overdue. */
    ghost function Victims(now: int): set<Id>
      reads this, sessions.Values
    {
      set id | id in sessions && Idle.Reaped(sessions[id].Clock(), now, idleTimeout)
    }

    method DeleteEach(ids: seq<Id>)
      requires Valid()
      modifies this`sessions, store, sessions.Values, Known()
      ensures Valid() && View() == AfterReap(old(View()), set id | id in ids)
      ensures sessions == old(sessions) - set id | id in ids
    {
      ghost var gone: set<Id> := {};
      for i := 0 to |ids|
        invariant Valid() && Dropped(gone) && store.table == old(store.table) - gone
        invariant gone == set id | id in ids[..i]
      {
        var found := Delete(ids[i]);
        MinusTwice(old(sessions), gone, ids[i]);
        MinusTwice(old(store.table), gone, ids[i]);
        gone := gone + {ids[i]};
      }
      assert ids[..|ids|] == ids;
      ReapShown(gone);
    }

    /** Ends exactly the sessions that the idle clock declares overdue. */
    method ReapOnce(now: int)
      requires Valid()
      modifies this`sessions, store, sessions.Values, Known()
      ensures Valid()
      ensures sessions == old(sessions) - old(Victims(now)) && View() == AfterReap(old(View()), old(Victims(now)))
    {
      var victims := Overdue(now);
      assert Victims(now) == set id | id in victims;
      DeleteEach(victims);
    }

    method Overdue(now: int) returns (victims: seq<Id>)
      ensures forall id :: id in victims <==> id in Victims(now)
      ensures forall id :: id in victims <==>
                && id in sessions && sessions[id].clientGoneAt != 0
                && now - sessions[id].clientGoneAt >= 0 && now - sessions[id].clientGoneAt > idleTimeout
    {
      victims := [];
      var todo := sessions.Keys;
      while todo != {}
        invariant todo <= sessions.Keys
        invariant forall id :: id in victims <==> id in Victims(now) && id !in todo
        decreases todo
      {
        var id :| id in todo;
        var d := sessions[id].IdleDuration(now);
        if d >= 0 && d > idleTimeout {
          victims := victims + [id];
        }
        todo := todo - {id};
      }
    }

    ghost function Lives(): map<Id, Listing.LiveInfo>
      reads this, sessions.Values
    {
      map id | id in sessions ::
        Listing.LiveInfo(sessions[id].name, sessions[id].createdAt / SECOND, sessions[id].lastActivity)
    }

    /** What the live sessions contribute to the list. */
    method LiveInfos() returns (live: map<Id, Listing.LiveInfo>)
      ensures live == Lives()
      ensures forall id :: id in sessions ==>
                live[id] == Listing.LiveInfo(sessions[id].name, sessions[id].createdAt / 1_000_000_000,
                                             sessions[id].lastActivity)
    {
      live := map[];
      var todo := sessions.Keys;
      while todo != {}
        invariant todo <= sessions.Keys && live.Keys == sessions.Keys - todo
        invariant forall id :: id in live ==> live[id] == Lives()[id]
        decreases todo
      {
        var id :| id in todo;
        var s := sessions[id];
        live := live[id := Listing.LiveInfo(s.name, s.createdAt / SECOND, s.lastActivity)];
        todo := todo - {id};
      }
      assert live == Lives();
    }

    method List(fmt: int -> string) returns (list: seq<Listing.SessionInfo>)
      ensures Listing.ListsEntries(store.table, Lives(), fmt, store.table.Keys + sessions.Keys, list)
      ensures forall i, j :: 0 <= i < j < |list| ==> Listing.StringLe(list[i].createdAt, list[j].createdAt)
    {
      var rows := store.List();
      var live := LiveInfos();
      list := Listing.Merge(store.table, rows, live, fmt);
    }
  }
}
