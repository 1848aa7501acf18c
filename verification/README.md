# Verified model of the terminal session server

The server keeps shells alive behind a web front end. One fact, "this session is running", lives in several
places that are updated at different moments: the manager's map, a row of the metadata table, the idle clock of
the session, its history log and one bounded queue per attached browser. This project models the code that keeps
those copies together, the login limiter and token store in front of it, and the endpoint that runs a command
and finds its output in the log, and proves what they guarantee over every run.

`dafny verify dfyconfig.toml` checks everything.

## How it is organised

| files | contents |
|---|---|
| `Protocol`, `Agreement`, `ManagerSafety`, `AgreementRuns`, `NameAgreement`, `FlushErasure`, `SessionCap` | The session manager as a step system: every region under its mutex and every store call is one step, every operation in flight a program counter. Safety over every interleaving, crashes and restarts included. |
| `Manager`, `ManagerCalls`, `SoloRuns`, `MetaStore`, `Listing`, `Sorting` | The manager and the store as objects with their loops; what each call leaves in map and table; why any series of calls is one run of the step system. |
| `Session`, `Fanout`, `Idle`, `DisconnectColumn`, `Connections` | A session and its clients as objects; output fan-out and attach as a step system; the idle clock and the column it writes; the end of connections. |
| `RateLimiter`, `Lockout`, `Int64`, `LimiterRuns`, `LimiterExact`, `LimiterCleanup`, `Login`, `LoginRuns`, `TokenStore` | The login limiter with its wrapping 64-bit shift, its rate and escalation bounds, the exact moment and length of its lockouts, the login endpoint with any number of requests in flight, and the token store. |
| `ExecOutput`, `Bytes` | Tailing the log for the done-marker. |

Times are unbounded integers in nanoseconds counted from Go's zero time (0 is `time.Time{}`), columns of the table
are in seconds. Where the width matters, in the limiter's shift and in its cap, two's-complement 64-bit arithmetic
is written out. Clocks, the password check, fresh identifiers and what the terminal produces are parameters.

The store's one-row statements (`SetActivity`, `SetSize`, `Delete` and the like), `Manager.Get` and
`SessionStore.Remove` have no row below: their contracts are the new state, written out, and what they are for is
in the theorems about whole runs.

## What the code turns out not to guarantee

Each of these has an input for which it fails and the exact condition under which it holds.

* **A running row without a session.** `Create` inserts into the map before it upserts the row. If the shell
  exits, or the session is deleted, and the remover's write reaches the store before that Upsert, the row says
  "running" for ever (`ManagerSafety.ExitInGapLeavesOrphan`). It is not enough that the Upsert is executed while
  the session is still in the map: `CloseAll` marks the row before it drops the session
  (`ManagerSafety.UpsertDuringCloseAllLeavesOrphan`). Exact condition, on the order of writes alone:
  `AgreementRuns.AgreementOverRuns`. A restart repairs the rest.
* **A row that keeps an old name.** A rename that runs between the creator's look at the name and its Upsert is
  lost on the row (`NameAgreement.RenameDuringCreateIsLost`); exact condition: `NameAgreement.NamesAgreeExactly`.
* **A wrong disconnect column.** A client that attaches between map insertion and Upsert leaves the row with a
  disconnect time while it is attached (`Idle.EarlyAttachMisleads`); exact condition, on the
  table itself: `DisconnectColumn.RowTellsExactly`.
* **Closing a session that is being watched ends the server.** `Close` closes the channel of every attached
  client; the write pump then drops the connection, and the read pump's deferred `RemoveClient` closes the same
  channel again, which panics. It happens for exactly the connections attached when `Close` ran
  (`Connections.WatchedCloseEndsServer`, `Connections.LeavePanicsExactly`, `Managers.Manager.Disconnect`).
* **Lockouts that wrap.** For a base with too few trailing zero bits the shift can wrap to a small positive
  number that the overflow guard does not see (`Lockout.WrapCounterexample`); exact condition:
  `Lockout.AllLevelsExact`. The default of one minute is safe.
* **Uncounted guesses.** Login requests in flight together can all be rejected while only the first maxAttempts
  of them are counted (`LoginRuns.RushEscapes`); a rejection escapes exactly when another one opened a lockout
  that still stands (`LoginRuns.UncountedExactly`). One request at a time all are counted, and j in flight get at
  most j - 1 past each lockout (`LoginRuns.GuessBound`).
* **Renaming an unknown id is answered with success.** With a store the UPDATE of no row is not an error, so the
  not-found answer that the endpoint is prepared for (`api/handlers.go:125-128`) cannot occur. The answer is right
  exactly for ids that are live or in the table (`Managers.Manager.Rename`).

## Model

| member | source | states |
|---|---|---|
| `Agreement.StepInv` | internal/session/manager.go:62-125 | Every step of every operation, in any interleaving, keeps the invariant that ties map, rows and operations in flight together |
| `Agreement.RunInv` | internal/session/manager.go:62-301 | The invariant holds in every reachable state, over any number of restarts |
| `ManagerSafety.AgreementExact` | internal/session/manager.go:79-122 | Once nothing is in flight for an id, it is live iff its row says running, exactly when the row does not stem from an Upsert executed after its remover's write; a removed one is dead after an exit, detached after a shutdown, absent after a delete |
| `AgreementRuns.AgreementOverRuns` | internal/session/manager.go:79-122 | The same told by the run alone: once nothing is in flight for an id, map and table agree about it iff no Upsert of it came after its remover's write without the row being erased, or the server restarted, since |
| `AgreementRuns.LateOverRuns` | internal/session/manager.go:79-122 | The bookkeeping bit of the row above is exactly that order of writes, from any reachable state on |
| `ManagerSafety.LandedInTimeAgrees` | internal/session/manager.go:107-122 | A session whose Upsert precedes its remover's write agrees with its row in every later settled state of the process |
| `ManagerSafety.LandedWhileLiveAgrees` | internal/session/manager.go:107-122 | In particular when the Upsert is executed while the session is in the map and no shutdown is under way |
| `ManagerSafety.RecordsWrites` | internal/session/manager.go:79-122 | What the bookkeeping about a session means: its Upsert has been executed, its remover's write has been executed |
| `ManagerSafety.LateIsUpsertAfterWrite` | internal/session/manager.go:107-122 | The exception arises with an Upsert executed after the remover's write and in no other way, and ends with the row's deletion or a restart |
| `ManagerSafety.LeavesOnce` | internal/session/manager.go:79-90 | Over any run, restarts included, a session leaves the live map at most once and never comes back |
| `ManagerSafety.ClosedAtMostOnce` | internal/session/manager.go:248-301 | Over any run `Close` is called at most once on a session |
| `ManagerSafety.EndsOnce` | internal/session/manager.go:248-301 | Both, from the start of the server on any table |
| `ManagerSafety.ClosedOnce` | internal/session/manager.go:248-301 | Only the Delete or CloseAll that took the session out calls `Close`, never anyone after an exit, and it has done so once the operation is over |
| `ManagerSafety.DeletedStaysDeleted` | internal/store/store.go:104-147 | A row deleted after its Upsert never reappears, whatever else runs and however often the server restarts |
| `ManagerSafety.RestartRepairs` | internal/session/manager.go:40-60 | After a crash at any step and a restart nothing is live or running, rows and all columns but status are unchanged, dead rows stay dead, and map and table agree about every id |
| `ManagerSafety.RestartSettlesThePast` | internal/session/manager.go:40-60 | Whatever runs after that, over any number of restarts, no session of before the crash is live or running again and its row keeps status and creation time |
| `ManagerSafety.ExitInGapLeavesOrphan` | internal/session/manager.go:107-122 | An exit between map insertion and Upsert leaves a running row with no live session |
| `ManagerSafety.UpsertDuringCloseAllLeavesOrphan` | internal/session/manager.go:294-300 | An Upsert between the shutdown's status write and its map deletion leaves such a row too, although the session was still in the map |
| `NameAgreement.NamesAgreeExactly` | internal/session/manager.go:107-244 | In every reachable state a live session and its row have the same name if the row was last written on behalf of the latest naming, and, when no name is given twice, only if |
| `NameAgreement.CreationNames` | internal/session/session.go:48-51 | A created session goes by the name it is given, or by its id if that is empty, and so does the row built from it |
| `NameAgreement.RenameDuringCreateIsLost` | internal/session/manager.go:111-122 | A rename completed between the creator's read of the name and its Upsert leaves the old name on the row |
| `FlushErasure.FlushIsErasable` | internal/session/manager.go:376-399 | Taking every flush step out of any interleaved run changes neither the live map, nor the row set, nor any column but activity and size |
| `SessionCap.CapHolds` | internal/session/manager.go:62-70 | With at most k creators between check and insertion, live plus waiting never exceeds the limit plus k - 1; with one creator at a time the limit is exact |
| `SessionCap.BoundIsReached` | internal/session/manager.go:62-109 | For every limit and every k some run ends with limit + k - 1 live sessions |
| `ManagerCalls.CallIsRun` | internal/session/manager.go:62-399 | The effect of a manager call that has the manager to itself is a run of the step system from one resting state to another |
| `ManagerCalls.SeriesIsRun` | internal/session/manager.go:62-399 | A series of calls is one run of the step system and leaves the running rows equal to the live sessions, under the same names |
| `ManagerCalls.ServedSeries` | internal/session/manager.go:40-60 | The same from the start of the server on any table |
| `ManagerCalls.EffectsAre` | internal/session/manager.go:62-282 | What each call that concerns single sessions does to names and table, written out, the limit included |
| `ManagerCalls.LoopEffectsAre` | internal/session/manager.go:284-399 | What a flush and a shutdown do to every row |
| `SoloRuns.FlushedRowIs` | internal/session/manager.go:390-397 | A flushed row has the reported activity, and the reported columns and rows when both are positive; the other columns stay |
| `Managers.Manager.constructor` | internal/session/manager.go:40-60 | The map is empty and no row is running |
| `Managers.Manager.Create` | internal/session/manager.go:62-125 | Fails without effect at the limit or when the shell does not start; otherwise map and table gain exactly the new session, clientless, under the given name or else its id, and its row, running, with the time of creation in seconds as creation, activity and disconnect time, replacing whatever had the identifier but for the creation time of a row |
| `Managers.Manager.Admit` | internal/session/manager.go:107-122 | The insertion and the Upsert together |
| `Managers.Manager.List` | internal/session/manager.go:149-205 | The union of rows and live sessions, each id once, live name, activity and status first, sorted |
| `Managers.Manager.LiveInfos` | internal/session/manager.go:161-166 | Name, creation second and activity of every live session |
| `Managers.Manager.Rename` | internal/session/manager.go:224-244 | Session and row take the name and everything else is unchanged; the answer is right iff the id is live or in the table, and an unknown id changes nothing |
| `Managers.Manager.Delete` | internal/session/manager.go:248-282 | Not found iff neither live nor persisted; otherwise session and row are gone, its clients closed, all other sessions untouched |
| `Managers.Manager.Take` | internal/session/manager.go:249-254 | The session leaves the map and is handed to whoever has to finish it |
| `Managers.Manager.Persisted` | internal/session/manager.go:256-266 | Whether the table has a row for the id |
| `Managers.Manager.OnProcessExit` | internal/session/manager.go:79-90 | Removes the session and marks its row dead only if it was still in the map |
| `Managers.Manager.Snapshot` | internal/session/manager.go:380-385 | The live sessions, each once |
| `Managers.Manager.FlushOne` | internal/session/manager.go:387-397 | One session's row takes its activity, and its size when it is known |
| `Managers.Manager.Flush` | internal/session/manager.go:376-399 | Exactly the rows of live sessions take the reported activity, and the size when it is known |
| `Managers.Manager.CloseOne` | internal/session/manager.go:296-300 | One session is closed, marked detached and dropped, the others stay as they are |
| `Managers.Manager.CloseEach` | internal/session/manager.go:294-300 | The loop under the mutex: every session closed and dropped, exactly their rows marked detached |
| `Managers.Manager.CloseAll` | internal/session/manager.go:284-301 | All sessions are flushed, closed, marked detached and dropped; no other row changes |
| `Managers.Manager.Overdue` | internal/session/manager.go:359-366 | The ids chosen are exactly those whose idle clock exceeds the timeout |
| `Managers.Manager.DeleteEach` | internal/session/manager.go:368-373 | Exactly the given ids leave map and table |
| `Managers.Manager.ReapOnce` | internal/session/manager.go:356-374 | Exactly the overdue sessions are deleted, map and table alike |
| `Managers.Manager.Connect` | internal/ws/handler.go:26-56 | Unknown ids are turned away without effect; otherwise a new client is attached and given the history, and the first one clears the row's disconnect time |
| `Managers.Manager.Disconnect` | internal/ws/handler.go:58-63 | Whether or not the session is still in the map: panics iff the session has closed the client's channel already, otherwise the client is detached and the last one stamps the row |
| `MetaStore.Store.Upsert` | internal/store/store.go:86-102 | Inserts, or overwrites all columns but created_at |
| `MetaStore.Store.SetName` | internal/store/store.go:104-108 | Changes the name of an existing row and nothing else, and succeeds without one |
| `MetaStore.Store.MarkAllDetached` | internal/store/store.go:134-141 | Running rows become detached, everything else is unchanged |
| `MetaStore.Store.List` | internal/store/store.go:149-171 | Each row exactly once with its id, ordered by creation time |
| `MetaStore.EachWritesItsColumn` | internal/store/store.go:104-132 | Each one-purpose write changes its own columns of the row with the id and nothing else, and a missing row stays missing |
| `Listing.Merge` | internal/session/manager.go:168-204 | Against fixed snapshots: the union of ids without duplicates, live state over stored columns, a permutation sorted by the formatted creation time |
| `Listing.RowEntries` | internal/session/manager.go:168-188 | The persisted part of the list, each row once |
| `Listing.WhatIsListed` | internal/session/manager.go:168-201 | Such a list has one entry for each id, with live name, activity and status for a live session, the row's otherwise, and creation time, disconnect time and size from the row if there is one |
| `Listing.StringLeIsLexicographic` | internal/session/manager.go:203 | The order it is sorted by: prefix, or smaller at the first difference |
| `Sessions.Session.constructor` | internal/session/session.go:48-85 | A new session is named, empty and idle from birth |
| `Sessions.Session.Register` | internal/session/session.go:139-142 | The part of AddClient under the lock: one more client, and whether it is the first |
| `Sessions.Session.AddClient` | internal/session/session.go:134-151 | The register step of the fan-out and the attach event of the idle clock, with its table write on the first client only |
| `Sessions.Session.RemoveClient` | internal/session/session.go:154-167 | For any client the session ever had: panics, changing nothing, iff its channel is closed; otherwise the unregister step and the detach event, with its table write when the last client goes |
| `Sessions.Session.IdleDuration` | internal/session/session.go:171-177 | The idle time, or -1 while a client is attached |
| `Sessions.Session.WriteHistory` | internal/session/session.go:95-103 | The reader's history step |
| `Sessions.Session.Broadcast` | internal/session/session.go:105-114 | Every client with fewer than 256 chunks waiting has the chunk queued behind them, every other one is left as it is |
| `Sessions.Session.ReadTurn` | internal/session/session.go:89-115 | One read: the history step and then the broadcast step |
| `Sessions.Session.ReadPTY` | internal/session/session.go:87-116 | Whatever the terminal produces is appended to the history in order and broadcast chunk by chunk, the last read's clock is the activity |
| `Sessions.Session.ReplayHistory` | internal/session/history.go:16-19 | The replay step: the client is handed the history as it is now |
| `Sessions.Session.WritePump` | internal/ws/handler.go:115-138 | One turn for each thing the select can find ready: the oldest chunk leaves the queue for the client, a closed channel stops the pump, a ping changes nothing |
| `Sessions.Session.HandleWebSocket` | internal/ws/handler.go:41-54 | A connection is registered before the history is read, and its pump starts after the replay |
| `Sessions.Session.Close` | internal/session/session.go:229-248 | Every registered client is closed and forgotten |
| `Connections.LeavePanicsExactly` | internal/session/session.go:154-248 | In every history a connection that has not left yet panics by leaving iff the session was closed after it attached |
| `Connections.WatchedCloseEndsServer` | internal/session/session.go:154-248 | A client attaches, the session is closed: the client's leaving panics |
| `Fanout.AttachLeavesNoGap` | internal/session/session.go:87-142 | In every interleaving a client that lost no chunk has received H[0..h] + H[a..b] with a <= h, up to the last broadcast once its queue is empty |
| `Fanout.LossesKeepOrder` | internal/session/session.go:105-114 | With losses, received plus queued is an in-order subsequence of what was broadcast since AddClient, every loss is accounted for and no queue exceeds 256 |
| `Fanout.LossesExactly` | internal/session/session.go:105-114 | In every interleaving a client has lost exactly one chunk for each broadcast that found 256 chunks waiting for it; if none did, it has no gap |
| `Fanout.SlowClientsDoNotInterfere` | internal/session/session.go:100-114 | Two runs that differ only in what one client does give the same history and the same queues, losses and received chunks to all others |
| `Fanout.ClientIsErasable` | internal/session/session.go:100-142 | Taking one client's steps out of a run takes that client out of every state and changes nothing else |
| `Idle.ClockTells` | internal/session/session.go:134-177 | In every reachable state clientGoneAt is non-zero iff there is no client, and shows the last moment one was attached, or the birth |
| `Idle.ReapedIffIdle` | internal/session/manager.go:356-366 | The reaper's test holds exactly when the session is older than the timeout and no client was attached at any moment of it |
| `Idle.ColumnExact` | internal/session/manager.go:91-117 | The row's disconnect column is 0 exactly while a client is attached, unless one attached before the Upsert and the session has not been empty since: then and only then it is wrong |
| `Idle.EarlyAttachMisleads` | internal/session/manager.go:98-117 | A client that attaches before the Upsert, at any time, leaves a non-zero column while it is attached |
| `DisconnectColumn.RowHoldsColumn` | internal/session/manager.go:91-120 | In every history of attaching, detaching and Upsert the row in the table is the upserted one with the tracked column as its disconnect time, and no other row changes |
| `DisconnectColumn.RowTellsExactly` | internal/session/manager.go:91-120 | So the row's disconnect time is 0 exactly while a client is attached, unless one attached before the Upsert and the session has not been empty since |
| `DisconnectColumn.ColumnShowsClock` | internal/session/manager.go:91-120 | Without a client it is the second in which the last one left, or of the birth right after the Upsert |
| `Lockout.DurationExact` | internal/auth/ratelimit.go:99-105 | The lockout at a level is min(base * 2^(level-1), 16 * base) iff the wrapped product does not slip past the guard |
| `Lockout.AllLevelsExact` | internal/auth/ratelimit.go:99-105 | All levels are right iff no shift count below 64 slips through |
| `Lockout.DurationBounds` | internal/auth/ratelimit.go:99-105 | Whatever wraps, a lockout is positive and at most the cap |
| `Lockout.DocumentedIsMin` | internal/auth/ratelimit.go:10-13 | The documented length is the smaller of base * 2^(level-1) and 16 * base |
| `Lockout.EnoughTrailingZeros` | internal/auth/ratelimit.go:99-105 | Enough trailing zero bits in the base make every level right |
| `Lockout.OneMinuteSaturates` | config/config.go:45 | The default base of one minute is right at every level |
| `Lockout.WrapCounterexample` | internal/auth/ratelimit.go:99-105 | With base 2^40 + 1 the 25th lockout lasts 2^24 ns |
| `RateLimiter.RlEntry.Fail` | internal/auth/ratelimit.go:86-110 | In place: a locked record only notes the time; otherwise the failure counts in the open window or starts one, and the one that reaches maxAttempts raises the level, starts the lockout of that level and clears the window |
| `RateLimiter.RateLimiter.constructor` | internal/auth/ratelimit.go:36-49 | An empty limiter with the given settings |
| `RateLimiter.RateLimiter.Allowed` | internal/auth/ratelimit.go:55-70 | Refuses exactly locked keys of an enabled limiter and reports the remaining time |
| `RateLimiter.RateLimiter.RecordFailure` | internal/auth/ratelimit.go:74-111 | Updates the key's record, or creates it, and no other |
| `RateLimiter.RateLimiter.Reset` | internal/auth/ratelimit.go:114-121 | Forgets the key and no other |
| `RateLimiter.RateLimiter.Cleanup` | internal/auth/ratelimit.go:129-140 | Forgets exactly the records that are unlocked and past the retention |
| `RateLimiter.RemovableIffIdle` | internal/auth/ratelimit.go:131-136 | That is: unlocked and not seen for longer than both the window and 16 * base |
| `LimiterRuns.Reachable` | internal/auth/ratelimit.go:74-142 | In every reachable state a lockout ends within 16 * base of the last attempt and an open window began no later than it |
| `LimiterRuns.RateBound` | internal/auth/ratelimit.go:74-142 | Whatever cleanup does, any stretch of length T without a reset holds at most maxAttempts * (T / min(window, base) + 2) counted failures |
| `LimiterRuns.EscalationCost` | internal/auth/ratelimit.go:88-110 | While the record is not thrown away, lockout n + 1 starts at least base * (2^n - 1) (n <= 5), base * (16n - 49) (from there on) after the first |
| `LimiterExact.NthLockoutLength` | internal/auth/ratelimit.go:99-105 | Over every run of a key whose record is not thrown away, lockout number n (from 0) lasts exactly min(base * 2^n, 16 * base) |
| `LimiterExact.LockoutLastsExactly` | internal/auth/ratelimit.go:88-105 | From the failure that opens it the key is refused until that much time has passed, whatever it and the cleanup do meanwhile, and admitted then |
| `LimiterExact.LocksAtMaxAttempts` | internal/auth/ratelimit.go:93-110 | A failure on a clear key opens a window; within it the key is locked out at failure number maxAttempts and not before, with checks and cleanup interleaved in any way |
| `LimiterExact.LateFailureStartsOver` | internal/auth/ratelimit.go:93-96 | A failure after the window has run out counts as the first of a new one |
| `LimiterCleanup.CleanupUnseen` | internal/auth/ratelimit.go:125-142 | Until the next lockout, runs with and without cleanup give the same answers, counts and windows |
| `LimiterCleanup.CleanupLosesOnlyLevel` | internal/auth/ratelimit.go:125-142 | They lock out at the same failure, and the run with cleanup never for longer |
| `LimiterCleanup.KeysAreIsolated` | internal/auth/ratelimit.go:55-142 | A key's record after any run depends on that key's events and the cleanup ticks alone |
| `Login.HandleLogin` | api/handlers.go:35-86 | Which answer is given when, in terms of lock, body, password and token; a right password with a token stores it and is answered with it, good for exactly the session timeout; a wrong one is recorded, a right one resets |
| `LoginRuns.LoginIsTwoMoves` | api/handlers.go:35-86 | One login request is a check on arrival and one move when it is decided, with the effect of the handler's contract |
| `LoginRuns.LockedExactly` | internal/auth/ratelimit.go:74-142 | After any series of events a key is locked at moment d iff an initial lockout lasts past d with no reset, or some event opened one that does with no reset after it |
| `LoginRuns.UncountedExactly` | api/handlers.go:39-61 | Whatever happens to the client meanwhile, an admitted request's rejection goes uncounted iff another rejection since its arrival opened a lockout lasting past it, with no right password after that |
| `LoginRuns.CountedOrEscaped` | api/handlers.go:56-57 | The rejections of any run are the counted ones and the escaped ones |
| `LoginRuns.SerialRejectionsAreCounted` | api/handlers.go:39-65 | With one request in flight at a time, right passwords included, the limiter counts exactly the rejected ones |
| `LoginRuns.EscapesBound` | internal/auth/ratelimit.go:88-105 | With at most j in flight and no right password, at most (j - 1) * (T / base + 2) rejections escape in any stretch T |
| `LoginRuns.GuessBound` | api/handlers.go:39-65 | With at most j in flight a client that never sends the right password gets at most maxAttempts * (T / min(window, base) + 2) + (j - 1) * (T / base + 2) passwords checked in any stretch T; one request at a time only the first part |
| `LoginRuns.RushEscapes` | api/handlers.go:39-61 | For every maxAttempts and j, j requests in flight together are all rejected and only the first maxAttempts are counted |
| `Login.RetryAfterSuffices` | api/handlers.go:40-42 | Waiting as long as Retry-After says is enough however often the client tries meanwhile, and at most a second too long |
| `TokenStore.SessionStore.Add` | internal/auth/middleware.go:53-57 | The token is granted until now plus duration |
| `TokenStore.SessionStore.Validate` | internal/auth/middleware.go:59-64 | Accepts exactly stored tokens before their expiry |
| `TokenStore.SessionStore.Cleanup` | internal/auth/middleware.go:76-83 | Exactly the tokens past their expiry are dropped |
| `TokenStore.CleanupInvisible` | internal/auth/middleware.go:53-85 | Cleanup passes anywhere leave every Validate answer of a run the same |
| `TokenStore.AcceptedIffGranted` | internal/auth/middleware.go:53-85 | A token is accepted exactly while its latest unrevoked grant lasts |
| `TokenStore.GrantedForItsDuration` | internal/auth/middleware.go:53-85 | A token granted at t is accepted for exactly its duration, and a revoked one never, whatever else is granted, revoked, asked or swept |
| `ExecOutput.ScanForMark` | api/handlers.go:291-304 | The leftmost marker occurrence that is neither echoed nor overlaps a skipped echo, if there is one |
| `ExecOutput.OccurrencesInTurn` | api/handlers.go:291-304 | From left to right: the first occurrence completes the command unless it follows "echo "; then nothing up to its end counts, and the next occurrence is judged by itself |
| `ExecOutput.StripEcho` | api/handlers.go:283-289 | What remains after the line that echoes the marker |
| `ExecOutput.ExtractExecOutput` | api/handlers.go:279-309 | Done exactly when such a mark exists; the output is what precedes it, trimmed, otherwise everything after the echoed line |
| `ExecOutput.ExtractsUnique` | api/handlers.go:279-309 | The specification has exactly one answer for each buffer |
| `ExecOutput.Drain` | api/handlers.go:244-253 | The buffer grows by all chunks available |
| `ExecOutput.PollExecOutput` | api/handlers.go:240-271 | Stops at the first turn that sees a mark or the deadline and answers with the extraction of everything read by then |
| `ExecOutput.PrefixExtracts` | api/handlers.go:279-309 | What every prefix of a well-formed log is worth: not done before the second marker is complete, the same output ever after |
| `ExecOutput.ChunkingIndependent` | api/handlers.go:240-271 | However reads and turns split the log, the answer is the trimmed output once the second marker is read, and a timeout before |
| `ExecOutput.HandleExecCommand` | api/handlers.go:182-232 | A newline and then the command followed by "; echo __HERMES_DONE_", the nonce and "__" are typed, the line whose echo the extraction skips; the response is the polling result cut to 512000 bytes, with the rest counted |
| `ExecOutput.ExecAnswer` | api/handlers.go:149-271 | Timeout exactly when the second marker is not read before the deadline; otherwise the trimmed output, cut to the limit |
| `ExecOutput.SplitsAgree` | api/handlers.go:240-271 | Two different splits of the same log never give different finished answers |

## Left out

- Web client, templates, routing, CORS, cookies, JSON and base64: messages are the bytes they carry.
- The create, rename, delete and list endpoints around the manager: they only map its results to status codes.
- SQL errors and a missing store: statements are atomic and succeed, so the live-only listing and the manager without a store are not modelled.
- PTY allocation, process control, image paste, configuration, tailing for the history endpoint and the client address: plumbing.
- Password hashing, random tokens and identifiers: a verdict, an optional token and a fresh identifier are parameters.
- History file errors: writes and reads of the log are atomic and succeed; removing the file is a step without effect on the modelled state.
- ManagerCalls.CallIsRun: a new session's identifier is one that was never seen; the code draws 32 random bits, and a collision is covered by the contract of `Managers.Manager.Create` only.
- Managers.Manager.Delete: the removal of the history file is not part of the object's state.
- Managers.Manager.List: the snapshot of the map and the rows are taken at one moment here; the merge itself is proved for any two snapshots.
- Managers.Manager.Flush: a session closed while the flush runs is covered by the step system, where the values written are arbitrary.
- Sessions.Session.RemoveClient: nothing is said about what follows a panic, because the process ends.
- Sessions.Session.AddClient: the clock field and the callback are written with the client set, as one event; in the code they follow after the lock is released.
- Sessions.Session.Close: closing the PTY, killing the process and closing the log are not modelled, and fan-out runs end there.
- Sessions.Session.WritePump: a failed write ends the connection; the chunk counts as sent here.
- Fanout.AttachLeavesNoGap: speaks of clients still registered; what a client had received when it left is its state before that step.
- Idle.ReapedIffIdle: the moment of the test is one clock reading; a client attaching between test and deletion is deleted with its session, as in the code.
- LimiterRuns.RateBound: assumes a non-decreasing clock, a positive window and base, 16 * base below 2^63 and a base whose lockouts do not wrap; time differences do not saturate.
- Login.RetryAfterSuffices: seconds are computed in integers, the code goes through a float64.
- ExecOutput.ChunkingIndependent: the log has the shape the shell echoes, with the command line on one line; a terminal that wraps the echo inside the marker is outside it.
- ExecOutput.HandleExecCommand: the request checks, the timeout's bounds and I/O failures are left out; the polling context always expires in the end.
- Sorting is insertion sort: the code's sort is any sort, and the contracts only say sorted permutation.
