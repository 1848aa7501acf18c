/** PTY output fan-out: the reader writes each chunk to the history and then offers it to every registered
    client; an attaching client registers first and reads the history afterwards. Every interleaving of these
    steps is a run. C identifies clients. */
module Fanout {
  import opened Wrappers
  import opened Bytes

  type Chunk = seq<byte>

  const QUEUE_SIZE := 256

  /** A registered client: `at` chunks had been broadcast when it registered, its replay held the first `hist`
      chunks of the history, `queue` waits in its channel, `got` has been sent to it, `dropped` were skipped. */
  datatype Sub = Sub(at: nat, hist: Option<nat>, queue: seq<Chunk>, got: seq<Chunk>, dropped: nat)

  /** written: the history, chunk by chunk; the first `sent` of them have been broadcast. */
  datatype State<C> = State(written: seq<Chunk>, sent: nat, subs: map<C, Sub>)

  datatype Action<C> =
    | WriteHistory(data: Chunk)
    | Broadcast
    | Register(c: C)
    | Replay(c: C)
    | Send(c: C)
    | Unregister(c: C)

  function Offer(queue: seq<Chunk>, data: Chunk): seq<Chunk> {
    if |queue| < QUEUE_SIZE then queue + [data] else queue
  }

  function Offered(sub: Sub, data: Chunk): Sub {
    sub.(queue := Offer(sub.queue, data), dropped := sub.dropped + if |sub.queue| < QUEUE_SIZE then 0 else 1)
  }

  /** The pump of a client starts only after its history has been sent. */
  predicate Enabled<C(==)>(s: State<C>, a: Action<C>) {
    match a
    case WriteHistory(_) => s.sent == |s.written|
    case Broadcast => s.sent < |s.written|
    case Register(c) => c !in s.subs
    case Replay(c) => c in s.subs && s.subs[c].hist.None?
    case Send(c) => c in s.subs && s.subs[c].hist.Some? && s.subs[c].queue != []
    case Unregister(c) => c in s.subs
  }

  function Step<C>(s: State<C>, a: Action<C>): State<C>
    requires Enabled(s, a)
  {
    match a
    case WriteHistory(data) => s.(written := s.written + [data])
    case Broadcast => State(s.written, s.sent + 1, map c | c in s.subs :: Offered(s.subs[c], s.written[s.sent]))
    case Register(c) => s.(subs := s.subs[c := Sub(s.sent, None, [], [], 0)])
    case Replay(c) => s.(subs := s.subs[c := s.subs[c].(hist := Some(|s.written|))])
    case Send(c) => s.(subs := s.subs[c := Sent(s.subs[c])])
    case Unregister(c) => s.(subs := s.subs - {c})
  }

  predicate ValidRun<C(==)>(s: State<C>, acts: seq<Action<C>>)
    decreases |acts|
  {
    acts == [] || (Enabled(s, acts[0]) && ValidRun(Step(s, acts[0]), acts[1..]))
  }

  function Run<C>(s: State<C>, acts: seq<Action<C>>): State<C>
    requires ValidRun(s, acts)
    decreases |acts|
  {
    if acts == [] then s else Run(Step(s, acts[0]), acts[1..])
  }

  /** A session at its start. */
  function Start<C>(): State<C> { State([], 0, map[]) }

  // ----- No gap -----

  /** xs is ys with some elements left out, in the same order. */
  ghost predicate InOrder<T>(xs: seq<T>, ys: seq<T>)
    decreases |ys|
  {
    xs == [] ||
    (ys != [] &&
      (|| (xs[|xs| - 1] == ys[|ys| - 1] && InOrder(xs[..|xs| - 1], ys[..|ys| - 1]))
       || InOrder(xs, ys[..|ys| - 1])))
  }

  lemma {:induction false} InOrderShorter<T>(xs: seq<T>, ys: seq<T>)
    requires InOrder(xs, ys)
    ensures |xs| <= |ys|
    ensures |xs| == |ys| ==> xs == ys
    decreases |ys|
  {
    if xs != [] {
      var xs', ys' := xs[..|xs| - 1], ys[..|ys| - 1];
      if InOrder(xs, ys') {
        InOrderShorter(xs, ys');
      } else {
        InOrderShorter(xs', ys');
        assert xs == xs' + [xs[|xs| - 1]] && ys == ys' + [ys[|ys| - 1]];
      }
    }
  }

  lemma InOrderSnoc<T>(xs: seq<T>, ys: seq<T>, y: T)
    requires InOrder(xs, ys)
    ensures InOrder(xs, ys + [y]) && InOrder(xs + [y], ys + [y])
  {
    assert (ys + [y])[..|ys|] == ys && (xs + [y])[..|xs|] == xs;
  }

  /** What holds of every registered client in every reachable state. */
  ghost predicate SubOk(written: seq<Chunk>, sent: nat, sub: Sub) {
    && sub.at <= sent <= |written|
    && (sub.hist.Some? ==> sub.at <= sub.hist.value <= |written|)
    && (sub.hist.None? ==> sub.got == [])
    && |sub.queue| <= QUEUE_SIZE
    && InOrder(sub.got + sub.queue, written[sub.at..sent])
    && |sub.got| + |sub.queue| + sub.dropped == sent - sub.at
  }

  ghost predicate Inv<C>(s: State<C>) {
    && s.sent <= |s.written| <= s.sent + 1
    && forall c :: c in s.subs ==> SubOk(s.written, s.sent, s.subs[c])
  }

  lemma OfferedOk(written: seq<Chunk>, sent: nat, sub: Sub)
    requires SubOk(written, sent, sub) && sent < |written|
    ensures SubOk(written, sent + 1, Offered(sub, written[sent]))
  {
    var all := sub.got + sub.queue;
    InOrderSnoc(all, written[sub.at..sent], written[sent]);
    assert written[sub.at..sent + 1] == written[sub.at..sent] + [written[sent]];
    if |sub.queue| < QUEUE_SIZE {
      assert sub.got + (sub.queue + [written[sent]]) == all + [written[sent]];
    }
  }

  lemma WrittenOk(written: seq<Chunk>, sent: nat, sub: Sub, data: Chunk)
    requires SubOk(written, sent, sub)
    ensures SubOk(written + [data], sent, sub)
  {
    assert (written + [data])[sub.at..sent] == written[sub.at..sent];
  }

  function Sent(sub: Sub): Sub
    requires sub.queue != []
  {
    sub.(queue := sub.queue[1..], got := sub.got + [sub.queue[0]])
  }

  lemma SentOk(written: seq<Chunk>, sent: nat, sub: Sub)
    requires SubOk(written, sent, sub) && sub.hist.Some? && sub.queue != []
    ensures SubOk(written, sent, Sent(sub))
  {
    assert (sub.got + [sub.queue[0]]) + sub.queue[1..] == sub.got + sub.queue;
  }

  lemma RegisteredOk(written: seq<Chunk>, sent: nat)
    requires sent <= |written|
    ensures SubOk(written, sent, Sub(sent, None, [], [], 0))
  {
  }

  lemma ReplayedOk(written: seq<Chunk>, sent: nat, sub: Sub)
    requires SubOk(written, sent, sub)
    ensures SubOk(written, sent, sub.(hist := Some(|written|)))
  {
  }

  lemma SubStep<C>(s: State<C>, a: Action<C>, c: C)
    requires Enabled(s, a) && s.sent <= |s.written| && c in Step(s, a).subs
    requires c in s.subs ==> SubOk(s.written, s.sent, s.subs[c])
    ensures SubOk(Step(s, a).written, Step(s, a).sent, Step(s, a).subs[c])
  {
    match a
    case WriteHistory(data) => WrittenOk(s.written, s.sent, s.subs[c], data);
    case Broadcast => OfferedOk(s.written, s.sent, s.subs[c]);
    case Register(n) => if c == n { RegisteredOk(s.written, s.sent); }
    case Replay(n) => if c == n { ReplayedOk(s.written, s.sent, s.subs[c]); }
    case Send(n) => if c == n { SentOk(s.written, s.sent, s.subs[c]); }
    case Unregister(_) =>
  }

  lemma StepInv<C>(s: State<C>, a: Action<C>)
    requires Inv(s) && Enabled(s, a)
    ensures Inv(Step(s, a))
  {
    var s' := Step(s, a);
    forall c | c in s'.subs ensures SubOk(s'.written, s'.sent, s'.subs[c]) {
      SubStep(s, a, c);
    }
  }

  lemma {:induction false} RunInv<C>(s: State<C>, acts: seq<Action<C>>)
    requires Inv(s) && ValidRun(s, acts)
    ensures Inv(Run(s, acts))
    decreases |acts|
  {
    if acts != [] {
      StepInv(s, acts[0]);
      RunInv(Step(s, acts[0]), acts[1..]);
    }
  }

  lemma {:induction false} FlatAppend(x: seq<Chunk>, y: seq<Chunk>)
    ensures Flat(x + y) == Flat(x) + Flat(y)
    decreases |y|
  {
    if y == [] {
      assert x + y == x;
    } else {
      assert (x + y)[..|x + y| - 1] == x + y[..|y| - 1];
      FlatAppend(x, y[..|y| - 1]);
    }
  }

  /** Where chunk number n begins in the history file. */
  function Offset(chunks: seq<Chunk>, n: nat): nat
    requires n <= |chunks|
  {
    |Flat(chunks[..n])|
  }

  lemma FlatSlice(chunks: seq<Chunk>, i: nat, j: nat)
    requires i <= j <= |chunks|
    ensures Offset(chunks, i) <= Offset(chunks, j) <= |Flat(chunks)|
    ensures Flat(chunks[..j]) == Flat(chunks)[..Offset(chunks, j)]
    ensures Flat(chunks[i..j]) == Flat(chunks)[Offset(chunks, i)..Offset(chunks, j)]
  {
    FlatAppend(chunks[..j], chunks[j..]);
    FlatAppend(chunks[..i], chunks[i..j]);
    assert chunks == chunks[..j] + chunks[j..] && chunks[..j] == chunks[..i] + chunks[i..j];
  }

  /** The bytes a client has been sent: its replay, then what its pump took from the queue. */
  function Stream<C>(s: State<C>, c: C): seq<byte>
    requires c in s.subs && s.subs[c].hist.Some? && s.subs[c].hist.value <= |s.written|
  {
    Flat(s.written[..s.subs[c].hist.value]) + Flat(s.subs[c].got)
  }

  /** The client has received H[..h] + H[a..b] with a <= h: every byte up to max(h, b), with
      H[a..min(h, b)] as the only repetition; and it is up to date once its queue is empty. */
  ghost predicate NoGap<C>(s: State<C>, c: C)
    requires c in s.subs && s.subs[c].hist.Some? && s.subs[c].hist.value <= |s.written|
  {
    var sub, H := s.subs[c], Flat(s.written);
    var at, upTo, replayed := sub.at, sub.at + |sub.got|, sub.hist.value;
    && at <= replayed && upTo <= s.sent <= |s.written|
    && var a, b, h := Offset(s.written, at), Offset(s.written, upTo), Offset(s.written, replayed);
    && a <= h <= |H| && a <= b <= |H|
    && Stream(s, c) == H[..h] + H[a..b]
    && (sub.queue == [] ==> upTo == s.sent)
  }

  lemma LosslessIsSlice(written: seq<Chunk>, sent: nat, sub: Sub)
    requires SubOk(written, sent, sub) && sub.dropped == 0
    ensures sub.at + |sub.got| <= sent && sub.got == written[sub.at..sub.at + |sub.got|]
    ensures sub.queue == [] ==> sub.at + |sub.got| == sent
  {
    var all, sliced := sub.got + sub.queue, written[sub.at..sent];
    InOrderShorter(all, sliced);
    assert all[..|sub.got|] == sub.got && sliced[..|sub.got|] == written[sub.at..sub.at + |sub.got|];
  }

  lemma LosslessHasNoGap<C>(s: State<C>, c: C)
    requires c in s.subs && SubOk(s.written, s.sent, s.subs[c])
    requires s.subs[c].hist.Some? && s.subs[c].dropped == 0
    ensures NoGap(s, c)
  {
    var sub := s.subs[c];
    LosslessIsSlice(s.written, s.sent, sub);
    FlatSlice(s.written, sub.at, sub.at + |sub.got|);
    FlatSlice(s.written, sub.at, sub.hist.value);
  }

  /** In every interleaving a client that has lost no chunk has no gap in what it received. */
  lemma AttachLeavesNoGap<C>(acts: seq<Action<C>>, c: C)
    requires ValidRun(Start(), acts) && c in Run(Start(), acts).subs
    requires Run(Start(), acts).subs[c].hist.Some? && Run(Start(), acts).subs[c].dropped == 0
    ensures Run(Start(), acts).subs[c].hist.value <= |Run(Start(), acts).written| && NoGap(Run(Start(), acts), c)
  {
    RunInv(Start(), acts);
    LosslessHasNoGap(Run(Start(), acts), c);
  }

  /** With losses the queued part is still in order and every loss is accounted for. */
  lemma LossesKeepOrder<C>(acts: seq<Action<C>>, c: C)
    requires ValidRun(Start(), acts) && c in Run(Start(), acts).subs
    ensures var s := Run(Start(), acts);
            var sub := s.subs[c];
            && sub.at <= s.sent <= |s.written|
            && InOrder(sub.got + sub.queue, s.written[sub.at..s.sent])
            && |sub.got + sub.queue| + sub.dropped == s.sent - sub.at
            && |sub.queue| <= 256
  {
    RunInv(Start(), acts);
  }

  // ----- What is lost, exactly -----

  /** The broadcasts since its latest registration at which the client had 256 chunks waiting, n before the run. */
  function FoundFull<C>(s: State<C>, acts: seq<Action<C>>, c: C, n: nat): nat
    requires ValidRun(s, acts)
    decreases |acts|
  {
    if acts == [] then n
    else FoundFull(Step(s, acts[0]), acts[1..], c, FullNow(s, acts[0], c, n))
  }

  function FullNow<C(==)>(s: State<C>, a: Action<C>, c: C, n: nat): nat {
    if a == Register(c) then 0
    else if a.Broadcast? && c in s.subs && |s.subs[c].queue| == 256 then n + 1
    else n
  }

  /** A broadcast queues the chunk behind what is waiting, unless 256 chunks are. */
  lemma BroadcastQueues<C>(s: State<C>, c: C)
    requires Enabled(s, Broadcast) && c in s.subs && SubOk(s.written, s.sent, s.subs[c])
    ensures var sub, sub' := s.subs[c], Step(s, Broadcast).subs[c];
            if |sub.queue| < 256 then sub' == sub.(queue := sub.queue + [s.written[s.sent]])
            else |sub.queue| == 256 && sub' == sub.(dropped := sub.dropped + 1)
  {
  }

  lemma {:induction false} LossesAre<C>(s: State<C>, acts: seq<Action<C>>, c: C, n: nat)
    requires Inv(s) && ValidRun(s, acts) && (c in s.subs ==> s.subs[c].dropped == n)
    ensures c in Run(s, acts).subs ==> Run(s, acts).subs[c].dropped == FoundFull(s, acts, c, n)
    decreases |acts|
  {
    if acts != [] {
      var a, s' := acts[0], Step(s, acts[0]);
      if a.Broadcast? && c in s.subs { BroadcastQueues(s, c); }
      assert c in s'.subs ==> s'.subs[c].dropped == FullNow(s, a, c, n);
      StepInv(s, a);
      LossesAre(s', acts[1..], c, FullNow(s, a, c, n));
    }
  }

  /** In every interleaving a client has lost exactly one chunk for each broadcast that found 256 chunks waiting
      for it; if there was none, what it received has no gap. */
  lemma LossesExactly<C>(acts: seq<Action<C>>, c: C)
    requires ValidRun(Start(), acts) && c in Run(Start(), acts).subs
    ensures Run(Start(), acts).subs[c].dropped == FoundFull(Start(), acts, c, 0)
    ensures FoundFull(Start(), acts, c, 0) == 0 && Run(Start(), acts).subs[c].hist.Some? ==>
              Run(Start(), acts).subs[c].hist.value <= |Run(Start(), acts).written| && NoGap(Run(Start(), acts), c)
  {
    LossesAre(Start(), acts, c, 0);
    if FoundFull(Start(), acts, c, 0) == 0 && Run(Start(), acts).subs[c].hist.Some? {
      AttachLeavesNoGap(acts, c);
    }
  }

  // ----- Slow clients do not interfere -----

  function Without<C(==)>(s: State<C>, c: C): State<C> { s.(subs := s.subs - {c}) }

  predicate Of<C(==)>(a: Action<C>, c: C) { !a.WriteHistory? && !a.Broadcast? && a.c == c }

  function ActsWithout<C(==)>(acts: seq<Action<C>>, c: C): seq<Action<C>>
    decreases |acts|
  {
    if acts == [] then [] else (if Of(acts[0], c) then [] else [acts[0]]) + ActsWithout(acts[1..], c)
  }

  lemma ClientStepErasable<C>(s: State<C>, a: Action<C>, c: C)
    requires Enabled(s, a)
    ensures if Of(a, c) then Without(Step(s, a), c) == Without(s, c)
            else Enabled(Without(s, c), a) && Step(Without(s, c), a) == Without(Step(s, a), c)
  {
  }

  lemma {:induction false} ClientIsErasable<C>(s: State<C>, acts: seq<Action<C>>, c: C)
    requires ValidRun(s, acts)
    ensures ValidRun(Without(s, c), ActsWithout(acts, c))
    ensures Run(Without(s, c), ActsWithout(acts, c)) == Without(Run(s, acts), c)
    decreases |acts|
  {
    if acts != [] {
      var a, rest := acts[0], acts[1..];
      ClientIsErasable(Step(s, a), rest, c);
      ClientStepErasable(s, a, c);
      if Of(a, c) {
        assert ActsWithout(acts, c) == ActsWithout(rest, c);
      } else {
        assert ActsWithout(acts, c)[0] == a && ActsWithout(acts, c)[1..] == ActsWithout(rest, c);
      }
    }
  }

  /** Two runs that differ only in what one client does end with the same history and the same
      queue, losses and received chunks for every other client. */
  lemma SlowClientsDoNotInterfere<C>(s: State<C>, acts: seq<Action<C>>, acts': seq<Action<C>>, slow: C)
    requires ValidRun(s, acts) && ValidRun(s, acts') && ActsWithout(acts, slow) == ActsWithout(acts', slow)
    ensures Run(s, acts).written == Run(s, acts').written && Run(s, acts).sent == Run(s, acts').sent
    ensures forall c :: c != slow ==>
              Lookup(Run(s, acts).subs, c) == Lookup(Run(s, acts').subs, c)
  {
    ClientIsErasable(s, acts, slow);
    ClientIsErasable(s, acts', slow);
    forall c | c != slow ensures Lookup(Run(s, acts).subs, c) == Lookup(Run(s, acts').subs, c) {
      assert Lookup(Without(Run(s, acts), slow).subs, c) == Lookup(Run(s, acts).subs, c);
      assert Lookup(Without(Run(s, acts'), slow).subs, c) == Lookup(Run(s, acts').subs, c);
    }
  }
}
