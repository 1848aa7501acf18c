/** Extraction of a command's output from the growing history log. */
module ExecOutput {
  import opened Bytes

  // ----- What the scan is looking for -----

  /** Where the command output begins: after the line that echoes the marker, once it is complete. */
  function ContentStart(buf: seq<byte>, m: seq<byte>): (start: nat)
    ensures start <= |buf|
  {
    var e := Index(buf, ECHO + m);
    if e < 0 then 0
    else
      var nl := Index(buf[e..], [NEWLINE]);
      if nl < 0 then 0 else e + nl + 1
  }

  function Rest(buf: seq<byte>, m: seq<byte>): seq<byte> {
    buf[ContentStart(buf, m)..]
  }

  /** The marker occurs at p as the argument of an echoed `echo`. */
  predicate Echoed(rest: seq<byte>, m: seq<byte>, p: int) {
    OccursAt(rest, m, p) && p >= 5 && rest[p - 5..p] == ECHO
  }

  /** An echoed occurrence that no earlier skipped one overlaps. */
  predicate Skipped(rest: seq<byte>, m: seq<byte>, p: int)
    decreases p
  {
    Echoed(rest, m, p) && forall q :: 0 <= q < p && p < q + |m| ==> !Skipped(rest, m, q)
  }

  /** A completion mark: an occurrence that is not echoed and does not overlap a skipped one. */
  predicate Marks(rest: seq<byte>, m: seq<byte>, p: int) {
    && OccursAt(rest, m, p) && !Echoed(rest, m, p)
    && forall q :: 0 <= q < p && p < q + |m| ==> !Skipped(rest, m, q)
  }

  predicate FirstMark(rest: seq<byte>, m: seq<byte>, p: int) {
    Marks(rest, m, p) && forall q :: 0 <= q < p ==> !Marks(rest, m, q)
  }

  /** The meaning of one extraction. */
  ghost predicate Extracts(buf: seq<byte>, m: seq<byte>, output: seq<byte>, done: bool) {
    var rest := Rest(buf, m);
    if done then exists p :: FirstMark(rest, m, p) && output == TrimRight(rest[..p])
    else (forall p :: !Marks(rest, m, p)) && output == rest
  }

  ghost predicate Complete(buf: seq<byte>, m: seq<byte>) {
    exists p :: Marks(Rest(buf, m), m, p)
  }

  /** There is exactly one answer for every buffer and marker. */
  lemma ExtractsUnique(buf: seq<byte>, m: seq<byte>, o1: seq<byte>, d1: bool, o2: seq<byte>, d2: bool)
    requires Extracts(buf, m, o1, d1) && Extracts(buf, m, o2, d2)
    ensures o1 == o2 && d1 == d2
  {
    var rest := Rest(buf, m);
    if d1 && d2 {
      var p :| FirstMark(rest, m, p) && o1 == TrimRight(rest[..p]);
      var q :| FirstMark(rest, m, q) && o2 == TrimRight(rest[..q]);
      assert p == q;
    }
  }

  /** How occurrences are read from left to right: the first one completes the command unless it follows "echo ";
      if it does, nothing up to its end counts, and the next occurrence after that is judged by itself. */
  lemma OccurrencesInTurn(rest: seq<byte>, m: seq<byte>, p: int, q: int)
    requires m != [] && OccursAt(rest, m, p) && forall j :: 0 <= j < p ==> !OccursAt(rest, m, j)
    ensures !(p >= 5 && rest[p - 5..p] == Ascii("echo ")) ==> FirstMark(rest, m, p)
    ensures p >= 5 && rest[p - 5..p] == Ascii("echo ") ==> forall j :: j < p + |m| ==> !Marks(rest, m, j)
    ensures (&& p >= 5 && rest[p - 5..p] == Ascii("echo ") && p + |m| <= q && OccursAt(rest, m, q)
             && (forall j :: p + |m| <= j < q ==> !OccursAt(rest, m, j)) && rest[q - 5..q] != Ascii("echo "))
            ==> FirstMark(rest, m, q)
  {
    assert Ascii("echo ") == ECHO;
    if p >= 5 && rest[p - 5..p] == ECHO {
      assert Skipped(rest, m, p);
      assert forall j :: 0 <= j < p ==> !Skipped(rest, m, j);
    }
  }

  // ----- The scan -----

  /** What the scan knows when it is about to look from `off` on. */
  ghost predicate ScannedTo(rest: seq<byte>, m: seq<byte>, off: int) {
    && 0 <= off <= |rest|
    && (forall q :: 0 <= q < off ==> !Marks(rest, m, q))
    && (forall q :: 0 <= q < off && Skipped(rest, m, q) ==> q + |m| <= off)
  }

  /** The next occurrence decides: echoed ones are skipped whole, any other one is the answer. */
  lemma NextOccurrence(rest: seq<byte>, m: seq<byte>, off: int, abs: int)
    requires ScannedTo(rest, m, off) && off <= abs && OccursAt(rest, m, abs)
    requires forall j :: off <= j < abs ==> !OccursAt(rest, m, j)
    ensures Echoed(rest, m, abs) ==> ScannedTo(rest, m, abs + |m|)
    ensures !Echoed(rest, m, abs) ==> FirstMark(rest, m, abs)
  {
    assert forall q :: 0 <= q < abs && abs < q + |m| ==> !Skipped(rest, m, q);
    assert forall q :: 0 <= q < abs ==> !Marks(rest, m, q);
    if Echoed(rest, m, abs) {
      assert Skipped(rest, m, abs);
      forall q | abs < q < abs + |m| ensures !Marks(rest, m, q) && !Skipped(rest, m, q) {}
    }
  }

  method ScanForMark(rest: seq<byte>, m: seq<byte>) returns (p: int)
    ensures p >= 0 ==> FirstMark(rest, m, p)
    ensures p < 0 ==> forall q :: !Marks(rest, m, q)
  {
    var off := 0;
    while off <= |rest| - |m|
      invariant ScannedTo(rest, m, off)
      invariant m == [] ==> off == 0
      decreases |rest| - off
    {
      var i := IndexFrom(rest, m, off);
      if i < 0 {
        return -1;
      }
      NextOccurrence(rest, m, off, i);
      if i >= 5 && rest[i - 5..i] == ECHO {
        off := i + |m|;
        continue;
      }
      return i;
    }
    return -1;
  }

  /** Strip the echoed command line so it is not returned as output. */
  method StripEcho(buf: seq<byte>, m: seq<byte>) returns (rest: seq<byte>)
    ensures rest == Rest(buf, m)
  {
    var contentStart := 0;
    var echoIdx := Index(buf, ECHO + m);
    if echoIdx >= 0 {
      var nl := Index(buf[echoIdx..], [NEWLINE]);
      if nl >= 0 {
        contentStart := echoIdx + nl + 1;
      }
    }
    rest := buf[contentStart..];
  }

  method ExtractExecOutput(buf: seq<byte>, m: seq<byte>) returns (output: seq<byte>, done: bool)
    ensures Extracts(buf, m, output, done)
    ensures done <==> Complete(buf, m)
  {
    var rest := StripEcho(buf, m);
    var abs := ScanForMark(rest, m);
    if abs >= 0 {
      return TrimRight(rest[..abs]), true;
    }
    return rest, false;
  }

  // ----- Polling -----

  /** One turn of the polling loop: the chunks drained from the log, and whether the deadline has passed. */
  datatype Poll = Poll(chunks: seq<seq<byte>>, expired: bool)

  /** Everything read in the first n turns. */
  function Gathered(polls: seq<Poll>, n: nat): seq<byte>
    requires n <= |polls|
  {
    if n == 0 then [] else Gathered(polls, n - 1) + Flat(polls[n - 1].chunks)
  }

  /** None of the first n turns sees a mark or the deadline. */
  ghost predicate GoesOn(polls: seq<Poll>, m: seq<byte>, n: nat)
    requires n <= |polls|
  {
    n == 0 || (GoesOn(polls, m, n - 1) && !Complete(Gathered(polls, n), m) && !polls[n - 1].expired)
  }

  lemma {:induction false} GoesOnAt(polls: seq<Poll>, m: seq<byte>, n: nat, j: nat)
    requires 1 <= j <= n <= |polls| && GoesOn(polls, m, n)
    ensures !Complete(Gathered(polls, j), m) && !polls[j - 1].expired
    decreases n
  {
    if j < n {
      GoesOnAt(polls, m, n - 1, j);
    }
  }

  /** The turn at which polling ends: the first that sees a mark or the deadline. */
  ghost predicate StopsAt(polls: seq<Poll>, m: seq<byte>, i: int) {
    && 0 <= i < |polls|
    && (Complete(Gathered(polls, i + 1), m) || polls[i].expired)
    && GoesOn(polls, m, i)
  }

  /** Drain everything currently available. */
  method Drain(buf: seq<byte>, chunks: seq<seq<byte>>) returns (buf': seq<byte>)
    ensures buf' == buf + Flat(chunks)
  {
    buf' := buf;
    var k := 0;
    while k < |chunks|
      invariant 0 <= k <= |chunks|
      invariant buf' == buf + Flat(chunks[..k])
    {
      buf' := buf' + chunks[k];
      assert chunks[..k + 1][..k] == chunks[..k];
      k := k + 1;
    }
    assert chunks[..k] == chunks;
  }

  method PollExecOutput(polls: seq<Poll>, m: seq<byte>) returns (output: seq<byte>, timedOut: bool)
    requires polls != [] && polls[|polls| - 1].expired
    ensures exists i :: StopsAt(polls, m, i) && Extracts(Gathered(polls, i + 1), m, output, !timedOut)
  {
    var buf := [];
    var i := 0;
    while true
      invariant 0 <= i < |polls|
      invariant buf == Gathered(polls, i)
      invariant GoesOn(polls, m, i)
      decreases |polls| - i
    {
      buf := Drain(buf, polls[i].chunks);
      var out, done := ExtractExecOutput(buf, m);
      assert buf == Gathered(polls, i + 1);
      if done || polls[i].expired {
        assert StopsAt(polls, m, i);
        return out, !done;
      }
      i := i + 1;
    }
  }

  // ----- The shape of an execution's log -----

  /** The log from the seek offset: the echoed command line, the output, the marker, anything after. */
  datatype Log = Log(pre: seq<byte>, eol: seq<byte>, out: seq<byte>, post: seq<byte>) {
    function EchoedLine(m: seq<byte>): seq<byte> { pre + ECHO + m + eol }

    function Whole(m: seq<byte>): seq<byte> { EchoedLine(m) + [NEWLINE] + (out + m + post) }

    /** How many bytes must have been read before the command is known to be done. */
    function DoneAfter(m: seq<byte>): nat { |EchoedLine(m)| + 1 + |out| + |m| }

    /** The marker is fresh: it occurs in the echoed line only as echoed, it ends the output where it
        first occurs there, and the output itself does not end in "echo ". */
    ghost predicate Fresh(m: seq<byte>) {
      && NEWLINE !in m && NEWLINE !in eol
      && (forall p :: OccursAt(EchoedLine(m), m, p) ==> p == |pre| + 5)
      && (forall p :: 0 <= p < |out| ==> !OccursAt(out + m, m, p))
      && !(|out| >= 5 && out[|out| - 5..] == ECHO)
    }
  }

  lemma SliceOfPrefix(s: seq<byte>, n: nat, lo: nat, hi: nat)
    requires lo <= hi <= n <= |s|
    ensures s[..n][lo..hi] == s[lo..hi]
  {
  }

  lemma PrefixOfPiece(whole: seq<byte>, n: nat, lo: nat, p: seq<byte>, i: int)
    requires lo <= n <= |whole|
    requires OccursAt(whole[..n][lo..], p, i)
    ensures OccursAt(whole, p, lo + i) && lo + i + |p| <= n
  {
    OccursWithin(whole, p, lo + i, lo, n);
    assert whole[..n][lo..] == whole[lo..n];
  }

  lemma OnlyEchoed(log: Log, m: seq<byte>, n: nat, p: int)
    requires log.Fresh(m) && n <= |log.EchoedLine(m)| && OccursAt(log.EchoedLine(m)[..n], m, p)
    ensures p == |log.pre| + 5 && Echoed(log.EchoedLine(m)[..n], m, p)
  {
    var line, buf := log.EchoedLine(m), log.EchoedLine(m)[..n];
    assert buf[0..] == buf;
    PrefixOfPiece(line, n, 0, m, p);
    assert line[p - 5..p] == ECHO;
    assert buf[p - 5..p] == line[p - 5..p];
  }

  lemma NothingStrippedYet(log: Log, m: seq<byte>, n: nat)
    requires log.Fresh(m) && n <= |log.EchoedLine(m)|
    ensures ContentStart(log.EchoedLine(m)[..n], m) == 0
  {
    var buf := log.EchoedLine(m)[..n];
    var e := Index(buf, ECHO + m);
    if e >= 0 {
      TagHoldsMarker(buf, m, e);
      OnlyEchoed(log, m, n, e + 5);
      assert buf[e..] == (ECHO + m + log.eol)[..n - e];
      FirstNewline(buf[e..], n - e);
    }
  }

  /** While the echoed line is incomplete nothing is stripped and nothing counts as done. */
  lemma BeforeNewline(log: Log, m: seq<byte>, n: nat)
    requires log.Fresh(m) && n <= |log.EchoedLine(m)|
    ensures var buf := log.Whole(m)[..n];
            ContentStart(buf, m) == 0 && !Complete(buf, m)
  {
    var buf := log.Whole(m)[..n];
    assert buf == log.EchoedLine(m)[..n];
    forall p | OccursAt(buf, m, p) ensures Echoed(buf, m, p) {
      OnlyEchoed(log, m, n, p);
    }
    NothingStrippedYet(log, m, n);
    assert Rest(buf, m) == buf;
  }

  lemma FirstNewline(s: seq<byte>, len: nat)
    requires len <= |s| && NEWLINE !in s[..len]
    ensures Index(s, [NEWLINE]) == (if len < |s| && s[len] == NEWLINE then len else Index(s, [NEWLINE]))
    ensures len == |s| ==> Index(s, [NEWLINE]) == -1
  {
    forall j | 0 <= j < len ensures !OccursAt(s, [NEWLINE], j) {
      assert s[j] == s[..len][j];
      assert s[j..j + 1] == [s[j]];
    }
    if len < |s| {
      assert s[len..len + 1] == [s[len]];
      assert s[len] == NEWLINE ==> OccursAt(s, [NEWLINE], len);
    }
  }

  lemma TagHoldsMarker(buf: seq<byte>, m: seq<byte>, e: int)
    requires OccursAt(buf, ECHO + m, e)
    ensures OccursAt(buf, m, e + 5)
  {
    assert buf[e + 5..e + 5 + |m|] == buf[e..e + 5 + |m|][5..] == (ECHO + m)[5..] == m;
  }

  lemma EchoIsThere(log: Log, m: seq<byte>, n: nat)
    requires |log.EchoedLine(m)| < n <= |log.Whole(m)|
    ensures var line, buf := log.EchoedLine(m), log.Whole(m)[..n];
            && buf[..|line|] == line && buf[|line|] == NEWLINE
            && line[|log.pre|..] == ECHO + m + log.eol && OccursAt(buf, ECHO + m, |log.pre|)
  {
    var line, buf, at := log.EchoedLine(m), log.Whole(m)[..n], |log.pre|;
    assert line == log.pre + (ECHO + m + log.eol);
    assert line == log.pre + (ECHO + m) + log.eol;
    assert line[at..at + 5 + |m|] == ECHO + m;
    SliceOfPrefix(buf, |line|, at, at + 5 + |m|);
  }

  /** Once the echoed line is complete it is stripped exactly. */
  lemma AfterNewline(log: Log, m: seq<byte>, n: nat)
    requires log.Fresh(m) && |log.EchoedLine(m)| < n <= |log.Whole(m)|
    ensures ContentStart(log.Whole(m)[..n], m) == |log.EchoedLine(m)| + 1
  {
    var line, buf, at := log.EchoedLine(m), log.Whole(m)[..n], |log.pre|;
    EchoIsThere(log, m, n);
    forall e | OccursAt(buf, ECHO + m, e) && e + 5 + |m| <= |line| ensures e == at {
      TagHoldsMarker(buf, m, e);
      OccursWithin(buf, m, e + 5, 0, |line|);
      assert buf[0..|line|] == line;
    }
    assert Index(buf, ECHO + m) == at;
    FirstNewlineIn(buf, line, at);
  }

  lemma FirstNewlineIn(buf: seq<byte>, line: seq<byte>, at: nat)
    requires at <= |line| < |buf| && buf[..|line|] == line && buf[|line|] == NEWLINE && NEWLINE !in line[at..]
    ensures Index(buf[at..], [NEWLINE]) == |line| - at
  {
    var tail, len := buf[at..], |line| - at;
    assert tail[..len] == line[at..] && tail[len] == NEWLINE;
    FirstNewline(tail, len);
  }

  /** Past the echoed line the only mark is the one that ends the output, and it shows only when whole. */
  lemma MarkInOutput(log: Log, m: seq<byte>, n: nat)
    requires log.Fresh(m) && |log.EchoedLine(m)| < n <= |log.Whole(m)|
    ensures var rest := log.Whole(m)[..n][|log.EchoedLine(m)| + 1..];
            && rest == (log.out + m + log.post)[..n - |log.EchoedLine(m)| - 1]
            && (n >= log.DoneAfter(m) ==> FirstMark(rest, m, |log.out|) && rest[..|log.out|] == log.out)
            && (n < log.DoneAfter(m) ==> forall p :: !Marks(rest, m, p))
  {
    var h := |log.EchoedLine(m)| + 1;
    var body, rest := log.out + m + log.post, log.Whole(m)[..n][h..];
    assert rest == body[..n - h];
    forall p | OccursAt(rest, m, p) ensures p >= |log.out| {
      OccursWithin(body, m, p, 0, n - h);
      assert body[0..n - h] == rest && body[0..|log.out| + |m|] == log.out + m;
      OccursWithin(body, m, p, 0, |log.out| + |m|);
    }
    if n >= log.DoneAfter(m) {
      assert body[|log.out|..|log.out| + |m|] == m;
      assert rest[|log.out|..|log.out| + |m|] == body[|log.out|..|log.out| + |m|];
      assert rest[..|log.out|] == log.out;
      if |log.out| >= 5 {
        assert rest[|log.out| - 5..|log.out|] == log.out[|log.out| - 5..];
      }
      assert Marks(rest, m, |log.out|);
    }
  }

  lemma CompletePrefix(log: Log, m: seq<byte>, n: nat)
    requires log.Fresh(m) && log.DoneAfter(m) <= n <= |log.Whole(m)|
    ensures var buf := log.Whole(m)[..n];
            Complete(buf, m) && Extracts(buf, m, TrimRight(log.out), true)
  {
    var buf := log.Whole(m)[..n];
    AfterNewline(log, m, n);
    MarkInOutput(log, m, n);
    assert FirstMark(Rest(buf, m), m, |log.out|);
  }

  lemma IncompletePrefix(log: Log, m: seq<byte>, n: nat)
    requires log.Fresh(m) && |log.EchoedLine(m)| < n < log.DoneAfter(m) && n <= |log.Whole(m)|
    ensures var buf := log.Whole(m)[..n];
            !Complete(buf, m) && Extracts(buf, m, (log.out + m)[..n - |log.EchoedLine(m)| - 1], false)
  {
    var h := |log.EchoedLine(m)| + 1;
    AfterNewline(log, m, n);
    MarkInOutput(log, m, n);
    assert (log.out + m + log.post)[..n - h] == (log.out + m)[..n - h];
  }

  /** What any prefix of such a log is worth. */
  lemma PrefixExtracts(log: Log, m: seq<byte>, n: nat)
    requires log.Fresh(m) && n <= |log.Whole(m)|
    ensures var buf := log.Whole(m)[..n];
            && (Complete(buf, m) <==> n >= log.DoneAfter(m))
            && (n >= log.DoneAfter(m) ==> Extracts(buf, m, TrimRight(log.out), true))
            && (n <= |log.EchoedLine(m)| ==> Extracts(buf, m, buf, false))
            && (|log.EchoedLine(m)| < n < log.DoneAfter(m) ==>
                  Extracts(buf, m, (log.out + m)[..n - |log.EchoedLine(m)| - 1], false))
  {
    if n <= |log.EchoedLine(m)| {
      BeforeNewline(log, m, n);
    } else if n >= log.DoneAfter(m) {
      CompletePrefix(log, m, n);
    } else {
      IncompletePrefix(log, m, n);
    }
  }

  /** The turns read a growing log from the seek offset on, in whatever pieces. */
  ghost predicate Tails(polls: seq<Poll>, bytes: seq<byte>) {
    forall i :: 0 <= i <= |polls| ==> Gathered(polls, i) <= bytes
  }

  lemma CompleteWhenRead(log: Log, m: seq<byte>, polls: seq<Poll>, k: nat)
    requires log.Fresh(m) && Tails(polls, log.Whole(m)) && k <= |polls|
    ensures Complete(Gathered(polls, k), m) <==> |Gathered(polls, k)| >= log.DoneAfter(m)
  {
    var n := |Gathered(polls, k)|;
    assert Gathered(polls, k) == log.Whole(m)[..n];
    PrefixExtracts(log, m, n);
  }

  /** However reads and turns split the log, the answer is the trimmed output as soon as the second
      marker has been read, and a timeout with what has been seen of the output before that. */
  lemma ChunkingIndependent(log: Log, m: seq<byte>, polls: seq<Poll>, i: int, output: seq<byte>, timedOut: bool)
    requires log.Fresh(m) && Tails(polls, log.Whole(m))
    requires StopsAt(polls, m, i) && Extracts(Gathered(polls, i + 1), m, output, !timedOut)
    ensures timedOut <==> |Gathered(polls, i + 1)| < log.DoneAfter(m)
    ensures !timedOut ==> output == TrimRight(log.out)
    ensures timedOut && |Gathered(polls, i + 1)| > |log.EchoedLine(m)| ==>
              output == (log.out + m)[..|Gathered(polls, i + 1)| - |log.EchoedLine(m)| - 1]
    ensures forall j :: 1 <= j <= i ==> |Gathered(polls, j)| < log.DoneAfter(m)
  {
    var whole := log.Whole(m);
    var n := |Gathered(polls, i + 1)|;
    assert Gathered(polls, i + 1) == whole[..n];
    PrefixExtracts(log, m, n);
    if n >= log.DoneAfter(m) {
      ExtractsUnique(whole[..n], m, output, !timedOut, TrimRight(log.out), true);
    } else if n > |log.EchoedLine(m)| {
      ExtractsUnique(whole[..n], m, output, !timedOut, (log.out + m)[..n - |log.EchoedLine(m)| - 1], false);
    } else {
      ExtractsUnique(whole[..n], m, output, !timedOut, whole[..n], false);
    }
    forall j | 1 <= j <= i ensures |Gathered(polls, j)| < log.DoneAfter(m) {
      GoesOnAt(polls, m, i, j);
      CompleteWhenRead(log, m, polls, j);
    }
  }

  // ----- The endpoint -----

  const MAX_EXEC_OUTPUT := 500 * 1024

  /** "__HERMES_DONE_" and "__" */
  const MARKER_HEAD: seq<byte> := [95, 95, 72, 69, 82, 77, 69, 83, 95, 68, 79, 78, 69, 95]
  const MARKER_TAIL: seq<byte> := [95, 95]

  function Marker(nonce: seq<byte>): seq<byte> {
    MARKER_HEAD + nonce + MARKER_TAIL
  }

  datatype ExecResponse = ExecResponse(output: seq<byte>, timeout: bool, truncated: nat)

  /** The response is what one polling run extracted, cut to the limit with the rest accounted for. */
  ghost predicate AnswersPolls(polls: seq<Poll>, m: seq<byte>, resp: ExecResponse) {
    exists i, full: seq<byte> ::
      && StopsAt(polls, m, i) && Extracts(Gathered(polls, i + 1), m, full, !resp.timeout)
      && CutTo(full, resp)
  }

  predicate CutTo(full: seq<byte>, resp: ExecResponse) {
    && resp.output <= full && |resp.output| + resp.truncated == |full|
    && |resp.output| <= MAX_EXEC_OUTPUT && (resp.truncated > 0 ==> |resp.output| == MAX_EXEC_OUTPUT)
  }

  /** "; " */
  const SEPARATOR: seq<byte> := [59, 32]

  /** The constants spell what the endpoint types. */
  lemma Literals(command: seq<byte>, nonce: seq<byte>)
    ensures [NEWLINE] + (command + (SEPARATOR + ECHO) + Marker(nonce) + [NEWLINE])
            == Ascii("\n") + command + Ascii("; echo __HERMES_DONE_") + nonce + Ascii("__\n")
  {
    SpelledOut();
    var head, tail := SEPARATOR + ECHO + MARKER_HEAD, MARKER_TAIL + [NEWLINE];
    assert command + (SEPARATOR + ECHO) + Marker(nonce) + [NEWLINE] == command + head + nonce + tail;
  }

  lemma SpelledOut()
    ensures Ascii("\n") == [NEWLINE]
    ensures Ascii("; echo __HERMES_DONE_") == SEPARATOR + ECHO + MARKER_HEAD
    ensures Ascii("__\n") == MARKER_TAIL + [NEWLINE]
  {
  }

  /** What is typed into the shell: a newline to clear partial input, then the line that runs the command and
      emits the marker. */
  method HandleExecCommand(command: seq<byte>, nonce: seq<byte>, polls: seq<Poll>)
    returns (input: seq<byte>, resp: ExecResponse)
    requires polls != [] && polls[|polls| - 1].expired
    ensures input == Ascii("\n") + command + Ascii("; echo __HERMES_DONE_") + nonce + Ascii("__\n")
    ensures input == [NEWLINE] + Log(command + SEPARATOR, [], [], []).EchoedLine(Marker(nonce)) + [NEWLINE]
    ensures AnswersPolls(polls, Marker(nonce), resp)
    ensures |resp.output| <= 512_000 && (resp.truncated > 0 ==> |resp.output| == 512_000)
  {
    var marker := Marker(nonce);
    input := [NEWLINE];
    input := input + (command + (SEPARATOR + ECHO) + marker + [NEWLINE]);
    Literals(command, nonce);
    var full, timedOut := PollExecOutput(polls, marker);
    var output, truncated := full, 0;
    if |output| > MAX_EXEC_OUTPUT {
      truncated := |output| - MAX_EXEC_OUTPUT;
      output := output[..MAX_EXEC_OUTPUT];
    }
    resp := ExecResponse(output, timedOut, truncated);
    assert CutTo(full, resp);
  }

  /** The second marker has been read by turn k, before which the deadline has not passed. */
  ghost predicate EndReadBy(polls: seq<Poll>, need: nat, k: int) {
    && 1 <= k <= |polls| && |Gathered(polls, k)| >= need
    && forall j :: 0 <= j < k - 1 ==> !polls[j].expired
  }

  lemma {:induction false} GatheredGrows(polls: seq<Poll>, j: nat, k: nat)
    requires j <= k <= |polls|
    ensures |Gathered(polls, j)| <= |Gathered(polls, k)|
    decreases k
  {
    if j < k {
      GatheredGrows(polls, j, k - 1);
    }
  }

  /** Polling that stops with the second marker read has read it in time. */
  lemma StopInTime(polls: seq<Poll>, m: seq<byte>, i: int, need: nat)
    requires StopsAt(polls, m, i) && |Gathered(polls, i + 1)| >= need
    ensures EndReadBy(polls, need, i + 1)
  {
    forall j | 0 <= j < i ensures !polls[j].expired {
      GoesOnAt(polls, m, i, j + 1);
    }
  }

  /** Polling that stops short of the second marker was cut off by the deadline. */
  lemma StopTooLate(polls: seq<Poll>, i: int, need: nat, k: int)
    requires 0 <= i < |polls| && polls[i].expired && |Gathered(polls, i + 1)| < need
    ensures !EndReadBy(polls, need, k)
  {
    if 1 <= k <= i + 1 {
      GatheredGrows(polls, k, i + 1);
    }
  }

  /** An execution whose second marker is read in time answers with its trimmed output, cut to the limit,
      however the log was split; any other one reports a timeout. */
  lemma ExecAnswer(log: Log, m: seq<byte>, polls: seq<Poll>, resp: ExecResponse)
    requires log.Fresh(m) && Tails(polls, log.Whole(m)) && AnswersPolls(polls, m, resp)
    ensures !resp.timeout <==> exists k :: EndReadBy(polls, log.DoneAfter(m), k)
    ensures !resp.timeout ==> CutTo(TrimRight(log.out), resp)
    ensures !resp.timeout ==>
              var full := TrimRight(log.out);
              if |full| <= 512_000 then resp.output == full && resp.truncated == 0
              else resp.output == full[..512_000] && resp.truncated == |full| - 512_000
  {
    var i, full: seq<byte> :| StopsAt(polls, m, i) && Extracts(Gathered(polls, i + 1), m, full, !resp.timeout)
                              && CutTo(full, resp);
    ChunkingIndependent(log, m, polls, i, full, resp.timeout);
    if !resp.timeout {
      CutIs(full, resp);
      StopInTime(polls, m, i, log.DoneAfter(m));
    } else {
      CompleteWhenRead(log, m, polls, i + 1);
      forall k ensures !EndReadBy(polls, log.DoneAfter(m), k) {
        StopTooLate(polls, i, log.DoneAfter(m), k);
      }
    }
  }

  /** Two different splits of the same log never give different finished answers. */
  lemma SplitsAgree(log: Log, m: seq<byte>, polls: seq<Poll>, resp: ExecResponse,
                    polls': seq<Poll>, resp': ExecResponse)
    requires log.Fresh(m) && Tails(polls, log.Whole(m)) && Tails(polls', log.Whole(m))
    requires AnswersPolls(polls, m, resp) && AnswersPolls(polls', m, resp')
    requires !resp.timeout && !resp'.timeout
    ensures resp == resp'
  {
    ExecAnswer(log, m, polls, resp);
    ExecAnswer(log, m, polls', resp');
    CutOnce(TrimRight(log.out), resp, resp');
  }

  lemma CutIs(full: seq<byte>, resp: ExecResponse)
    requires CutTo(full, resp)
    ensures if |full| <= 512_000 then resp.output == full && resp.truncated == 0
            else resp.output == full[..512_000] && resp.truncated == |full| - 512_000
  {
    assert resp.output == full[..|resp.output|];
  }

  lemma CutOnce(full: seq<byte>, x: ExecResponse, y: ExecResponse)
    requires CutTo(full, x) && CutTo(full, y) && x.timeout == y.timeout
    ensures x == y
  {
    assert x.output == full[..|x.output|] && y.output == full[..|y.output|];
  }
}
