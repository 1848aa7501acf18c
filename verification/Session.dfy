/** A terminal session and its clients as the server's objects, each method tied to the step it is in the
    fan-out system and in the idle clock. */
module Sessions {
  import opened Wrappers
  import opened Bytes
  import opened Int64
  import opened MetaStore
  import Connections
  import opened DisconnectColumn
  import Fanout
  import Idle

  class Client {
    var ch: seq<Fanout.Chunk>
    var done: bool

    /** The session that registered it. */
    ghost const home: Session

    constructor (ghost home: Session)
      ensures ch == [] && !done && this.home == home
    {
      ch, done, this.home := [], false, home;
    }
  }

  /** One read from the terminal, and the clock then. */
  datatype Read = Read(data: Fanout.Chunk, t: int)

  function Data(reads': seq<Read>): seq<Fanout.Chunk>
    decreases |reads'|
  {
    if reads' == [] then [] else Data(reads'[..|reads'| - 1]) + [reads'[|reads'| - 1].data]
  }

  lemma OneMoreRead(input: seq<Read>, i: nat)
    requires i < |input|
    ensures Data(input[..i + 1]) == Data(input[..i]) + [input[i].data]
  {
    assert input[..i + 1][..i] == input[..i];
  }

  /** What a write pump's select can find ready. */
  datatype Ready = Output | Done | Ping

  class Session {
    const id: Id
    const createdAt: int
    const store: Store
    var name: string
    var clients: set<Client>
    var history: seq<byte>
    var cols: int
    var rows: int
    var lastActivity: int
    var clientGoneAt: int

    /** This session in the fan-out system, in which every method below takes the steps it names. */
    ghost var fan: Fanout.State<Client>

    /** Every client it ever had; those no longer registered have their channel closed. */
    ghost var born: set<Client>

    ghost predicate Valid()
      reads this, born
    {
      && clients <= born
      && (forall c :: c in born ==> c.home == this && (c.done <==> c !in clients))
      && fan.subs.Keys == clients
      && (forall c :: c in clients ==> c.ch == fan.subs[c].queue)
      && Flat(fan.written) == history
    }

    function Clock(): Idle.Clock<Client>
      reads this
    {
      Idle.Clock(clients, clientGoneAt)
    }

    /** The connections to this session. */
    ghost function Links(): Connections.State<Client>
      reads this
    {
      Connections.State(clients, born - clients)
    }

    constructor (id: Id, name: string, store: Store, now: int)
      ensures Valid() && this.id == id && this.store == store && createdAt == now
      ensures this.name == (if name == "" then id else name)
      ensures clients == {} && history == [] && lastActivity == now / SECOND && cols == 0 && rows == 0
      ensures Clock() == Idle.Born(now) && fan == Fanout.Start() && Links() == Connections.State({}, {})
    {
      this.id, this.store, createdAt := id, store, now;
      this.name := NameFor(id, name);
      clients, history, cols, rows := {}, [], 0, 0;
      lastActivity, clientGoneAt := now / SECOND, now;
      fan, born := Fanout.Start(), {};
    }

    /** The part of AddClient under the lock. */
    method Register(c: Client) returns (first: bool)
      requires Valid() && c !in born && c.home == this && c.ch == [] && !c.done
      modifies this`clients, this`born, this`fan
      ensures Valid() && clients == old(clients) + {c} && born == old(born) + {c} && (first <==> old(clients) == {})
      ensures fan == Fanout.Step(old(fan), Fanout.Register(c))
    {
      first := clients == {};
      clients, born := clients + {c}, born + {c};
      fan := Fanout.Step(fan, Fanout.Register(c));
    }

    method AddClient(ghost now: int) returns (c: Client)
      requires Valid()
      modifies this, store
      ensures Valid() && fresh(c)
      ensures var ev := Idle.Attach(c, now);
              && Idle.Possible(old(Clock()), ev) && Clock() == Idle.Tick(old(Clock()), ev)
              && store.table == Told(old(store.table), id, Idle.Writes(old(Clock()), ev))
      ensures Connections.Possible(old(Links()), Connections.Attach(c))
      ensures Links() == Connections.Step(old(Links()), Connections.Attach(c))
      ensures clients == old(clients) + {c} && clientGoneAt == (if old(clients) == {} then 0 else old(clientGoneAt))
      ensures store.table == if old(clients) == {} && id in old(store.table)
                             then old(store.table)[id := old(store.table)[id].(disconnect := 0)] else old(store.table)
      ensures Fanout.Enabled(old(fan), Fanout.Register(c)) && fan == Fanout.Step(old(fan), Fanout.Register(c))
      ensures history == old(history) && name == old(name) && lastActivity == old(lastActivity)
    {
      c := new Client(this);
      var first := Register(c);
      if first {
        clientGoneAt := 0;
        store.SetClientDisconnect(id, 0);
      }
    }

    /** For any client this session ever had. If Close has closed its channel already, closing it again panics:
        nothing has changed by then, and the server ends. */
    method RemoveClient(c: Client, now: int) returns (panicked: bool)
      requires Valid() && c in born
      modifies this, c, store
      ensures Valid() && c.done
      ensures panicked == old(c.done) == Connections.Panics(old(Links()), Connections.Leave(c))
      ensures panicked ==> unchanged(this, c, store)
      ensures !panicked ==>
                var ev := Idle.Detach(c, now);
                && Links() == Connections.Step(old(Links()), Connections.Leave(c))
                && Clock() == Idle.Tick(old(Clock()), ev)
                && store.table == Told(old(store.table), id, Idle.Writes(old(Clock()), ev))
                && fan == Fanout.Step(old(fan), Fanout.Unregister(c))
      ensures !panicked ==>
                && clients == old(clients) - {c} && clientGoneAt == (if clients == {} then now else old(clientGoneAt))
                && store.table == if clients == {} && id in old(store.table)
                                  then old(store.table)[id := old(store.table)[id].(disconnect := now / 1_000_000_000)]
                                  else old(store.table)
      ensures history == old(history) && name == old(name) && lastActivity == old(lastActivity)
    {
      clients := clients - {c};
      var empty := clients == {};
      if c.done {
        return true;
      }
      panicked := false;
      fan := Fanout.Step(fan, Fanout.Unregister(c));
      c.done := true;
      if empty {
        clientGoneAt := now;
        store.SetClientDisconnect(id, now / SECOND);
      }
    }

    method IdleDuration(now: int) returns (d: int)
      ensures d == Idle.Duration(Clock(), now) == if clientGoneAt == 0 then -1 else now - clientGoneAt
    {
      if clientGoneAt == 0 {
        return -1;
      }
      return now - clientGoneAt;
    }

    /** The part of the reader's turn before the lock. */
    method WriteHistory(data: Fanout.Chunk, now: int)
      requires Valid() && fan.sent == |fan.written|
      modifies this`fan, this`history, this`lastActivity
      ensures Valid() && fan == Fanout.Step(old(fan), Fanout.WriteHistory(data))
      ensures history == old(history) + data && lastActivity == now / SECOND
    {
      lastActivity := now / SECOND;
      history := history + data;
      fan := Fanout.Step(fan, Fanout.WriteHistory(data));
      assert fan.written[..|fan.written| - 1] == old(fan.written);
    }

    /** The part of the reader's turn under the lock: a full queue loses the chunk, the reader never waits. */
    method Broadcast(data: Fanout.Chunk)
      requires Valid() && fan.sent < |fan.written| && data == fan.written[fan.sent]
      modifies this`fan, clients`ch
      ensures Valid() && fan == Fanout.Step(old(fan), Fanout.Broadcast)
      ensures forall c :: c in clients ==> c.ch == if |old(c.ch)| < 256 then old(c.ch) + [data] else old(c.ch)
    {
      var todo := clients;
      while todo != {}
        invariant todo <= clients == old(clients)
        invariant forall c :: c in todo ==> c.ch == old(c.ch)
        invariant forall c :: c in clients && c !in todo ==> c.ch == Fanout.Offer(old(c.ch), data)
        decreases todo
        modifies clients`ch
      {
        var c :| c in todo;
        if |c.ch| < Fanout.QUEUE_SIZE {
          c.ch := c.ch + [data];
        }
        todo := todo - {c};
      }
      fan := Fanout.Step(fan, Fanout.Broadcast);
    }

    /** One turn of the reader: history first, then the clients. */
    method ReadTurn(r: Read)
      requires Valid() && fan.sent == |fan.written|
      modifies this`fan, this`history, this`lastActivity, clients`ch
      ensures Valid() && fan.sent == |fan.written|
      ensures fan == Fanout.Step(Fanout.Step(old(fan), Fanout.WriteHistory(r.data)), Fanout.Broadcast)
      ensures fan.written == old(fan.written) + [r.data] && history == old(history) + r.data
      ensures lastActivity == r.t / SECOND
    {
      WriteHistory(r.data, r.t);
      Broadcast(r.data);
    }

    /** The reader's loop over what the terminal produces until it is closed. */
    method ReadPTY(reads': seq<Read>)
      requires Valid() && fan.sent == |fan.written|
      modifies this`fan, this`history, this`lastActivity, clients`ch
      ensures Valid() && fan.sent == |fan.written|
      ensures history == old(history) + Flat(Data(reads')) && fan.written == old(fan.written) + Data(reads')
      ensures lastActivity == if reads' == [] then old(lastActivity) else reads'[|reads'| - 1].t / SECOND
    {
      var i := 0;
      while i < |reads'|
        invariant 0 <= i <= |reads'|
        invariant Valid() && fan.sent == |fan.written|
        invariant fan.written == old(fan.written) + Data(reads'[..i])
        invariant lastActivity == if i == 0 then old(lastActivity) else reads'[i - 1].t / SECOND
      {
        ReadTurn(reads'[i]);
        OneMoreRead(reads', i);
        i := i + 1;
      }
      assert reads'[..i] == reads';
      Fanout.FlatAppend(old(fan.written), Data(reads'));
    }

    /** Reads the history file for a client that has just registered. */
    method ReplayHistory(c: Client) returns (replay: seq<byte>)
      requires Valid() && c in clients && fan.subs[c].hist.None?
      modifies this`fan
      ensures Valid() && replay == history && fan == Fanout.Step(old(fan), Fanout.Replay(c))
    {
      replay := history;
      fan := Fanout.Step(fan, Fanout.Replay(c));
    }

    /** One turn of a client's write pump, given what it finds ready: it sends the oldest chunk, or a ping, and
        stops when the channel is closed, whatever is left in the queue. */
    method WritePump(c: Client, ready: Ready) returns (sent: Option<Fanout.Chunk>, stop: bool)
      requires Valid() && c in born && (c in clients ==> fan.subs[c].hist.Some?)
      requires (ready.Output? ==> c.ch != []) && (ready.Done? ==> c.done)
      modifies this`fan, c`ch
      ensures Valid() && (stop <==> ready.Done?)
      ensures ready.Output? ==>
                && sent == Some(old(c.ch)[0]) && c.ch == old(c.ch)[1..]
                && fan == if c in clients then Fanout.Step(old(fan), Fanout.Send(c)) else old(fan)
      ensures !ready.Output? ==> sent == None && unchanged(this, c)
    {
      match ready
      case Output =>
        sent, stop := Some(c.ch[0]), false;
        c.ch := c.ch[1..];
        if c in clients {
          fan := Fanout.Step(fan, Fanout.Send(c));
        }
      case Done => sent, stop := None, true;
      case Ping => sent, stop := None, false;
    }

    /** The order in which a websocket connection is served: register, replay, and only then pump. */
    method HandleWebSocket(ghost now: int) returns (c: Client, replay: seq<byte>)
      requires Valid()
      modifies this, store
      ensures Valid() && fresh(c) && c in clients && replay == history == old(history)
      ensures clients == old(clients) + {c} && name == old(name)
      ensures var ev := Idle.Attach(c, now);
              && Clock() == Idle.Tick(old(Clock()), ev)
              && store.table == Told(old(store.table), id, Idle.Writes(old(Clock()), ev))
      ensures c in fan.subs && fan.subs[c] == Fanout.Sub(old(fan.sent), Some(|old(fan.written)|), [], [], 0)
    {
      c := AddClient(now);
      replay := ReplayHistory(c);
    }

    method SetName(name: string)
      requires Valid()
      modifies this`name
      ensures Valid() && this.name == name
    {
      this.name := name;
    }

    method Resize(rows: int, cols: int)
      requires Valid()
      modifies this`rows, this`cols
      ensures Valid() && this.rows == rows && this.cols == cols
    {
      this.rows, this.cols := rows, cols;
    }

    /** Closes every registered client exactly once and forgets them. */
    method Close()
      requires Valid()
      modifies this`clients, this`fan, clients`done
      ensures Valid() && clients == {} && forall c :: c in old(clients) ==> c.done
      ensures Links() == Connections.Step(old(Links()), Connections.Close)
      ensures fan == old(fan).(subs := map[])
    {
      var todo := clients;
      while todo != {}
        invariant todo <= clients == old(clients) && fan == old(fan)
        invariant forall c :: c in todo ==> !c.done
        invariant forall c :: c in clients && c !in todo ==> c.done
        decreases todo
      {
        var c :| c in todo;
        c.done := true;
        todo := todo - {c};
      }
      assert forall c :: c in born ==> c.done;
      clients := {};
      fan := fan.(subs := map[]);
    }
  }
}
