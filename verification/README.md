# Shield: a verified model of the game-server core

This project models the parts of the Shield game server whose correctness is hardest to see by
reading them, and proves what they promise for every input, every interleaving or every run.

| file | what it models |
|---|---|
| `Matchmaking.dfy` | the ELO matchmaker: queue, greedy grouping, match ids |
| `ConnectionPool.dfy` | the MySQL and PostgreSQL connection pools as one protocol over threads, with two wait predicates |
| `ServiceRegistry.dfy` | names and lifetime of Lua services: register, unregister, spawn, exit, shutdown |
| `Scheduling.dfy` | forked tasks and actor timers with their per-service indexes |
| `SuspendedCalls.dfy` | coroutine calls, blocking calls and their timeouts |
| `ServiceManager.dfy` | the three above as one state machine, and what holds over all its runs |
| `ServiceLifetimes.dfy` | tasks and timers of a service followed through runs: what an exit or a failed `on_init` leaves behind |
| `ServiceTables.dfy` | the imperative methods on the tables, each proved equal to a step of the state machine |
| `LuaPack.dfy` | the binary codec for Lua values |
| `Composite.dfy` | composite leaderboard scores, down to the rounding of 64-bit integers to doubles |
| `Base64Url.dfy`, `JwtClaims.dfy`, `Jwt.dfy` | base64url, reading claims by text search, creating and verifying tokens |
| `SqlMapper.dfy` | named SQL parameters to positional ones, and PostgreSQL's numbered ones |
| `ConfigTree.dfy` | merging YAML trees and the flat index of dotted keys |
| `ScriptCache.dfy` | the Lua script cache against a changing file system |
| `Listener.dfy` | connection limits and per-IP counters of the TCP listener |
| `Collections.dfy`, `Arithmetic.dfy`, `Decimal.dfy` | finite sets and sequences, splitting at dots, powers of two and bits, decimal text |

A stateful component is modelled twice: as a pure step function, about which the invariants and
run-level theorems are proved, and as a class or method with the source's loops and in-place updates,
proved equal to that function. Critical sections are atomic steps; what happens between two of them
is left to any interleaving.

Some properties one would expect turn out not to hold of the code. Each comes with a lemma that shows
the failure and one that says exactly when the property does hold:

* PostgreSQL's pool can leave a thread asleep beside a free slot. With n threads it never does exactly
  when there is a slot for each of them, or no capacity at all, which the plugin's configuration rules
  out (`PgLosesWakeup`, `PgNoLostWakeupExactly`). MySQL's never does.
* Suspended calls and blocking calls count their sessions separately, but answers and timeouts carry
  the number only. A live blocking call takes what is meant for the suspended call of its number, and
  the late answer to a blocking call that gave up goes to a suspended one (`AnswerGoesAstray`,
  `LateAnswerGoesAstray`). In every run each call gets only its own outcomes if and only if no step
  ends a call while another waiting call has its number (`OwnAnswersExactly`, `RefinesIdealExactly`).
* A timer half scheduled when its service exits survives, and so does one scheduled, or a task sent,
  between two critical sections of the exit (`InterleavedExitExactly`, `ExitSilencesExactly`,
  `TimerScheduledDuringExit`). A failed `on_init` leaves the tasks and timers it started
  (`FailedInitExactly`, `FailedInitLeavesTask`, `FailedInitLeavesTimer`).
* A Lua table with two or more entries whose first visited key is a string does not survive LuaPack:
  the scan that counts entries stops at the first key that is not a positive integer
  (`NamedFieldsAreLost`, `RoundTripExactly`).
* Composite scores above 53 bits do not keep the order of their fields, although the file's header
  allows 64 (`OrderIsomorphicExactly`); with default widths that is any board of four or more fields.
* A token is refused when the user is called `exp`, or, with an issuer or audience configured, `iss` or
  `aud`, or when the part of the name after its last double quote is; control characters do not come
  back either (`UserNamedExp`, `TokenAcceptedExactly`).
* A named parameter inside quotes or a comment is text to the database (`QuotedParameterIsLost`). For
  PostgreSQL every literal `?`, quoted or not, is rewritten into a parameter; MySQL takes one only
  outside quotes and comments (`QuotedQuestionMark`). For PostgreSQL a digit right after a placeholder
  or a free dollar sign also changes the number, and a placeholder right after a word becomes part of it
  (`PgReadsExactly`, `MyMeaningExactly`).
* Merging configuration trees is not associative when something that is no map comes between two maps
  (`AssociativeExactly`, `ScalarInBetween`).
* With a dot in a configuration key the index and the tree disagree (`DottedKeyDisagrees`,
  `AgreesExactly`).
* A script whose modification time does not tell two contents apart is loaded stale (`SameTimeIsStale`,
  `CurrentExactly`).

## Model

| member | source | states |
|---|---|---|
| Matchmaking.StartsAreSpaced | plugins/matchmaking_elo/shield_matchmaking_elo.cpp:166-184 | the greedy blocks start in order, do not overlap, and each is within the tolerance |
| Matchmaking.LowestGroup | plugins/matchmaking_elo/shield_matchmaking_elo.cpp:166-184 | in any family of groups, one reaches no further up the ratings than any other |
| Matchmaking.Swap | plugins/matchmaking_elo/shield_matchmaking_elo.cpp:166-184 | replacing a member by a higher-rated player within the group's reach leaves a legal group |
| Matchmaking.ClearBlock | plugins/matchmaking_elo/shield_matchmaking_elo.cpp:166-184 | a family can be moved out of the greedy block, one exchange at a time, without losing a group |
| Matchmaking.Exchange | plugins/matchmaking_elo/shield_matchmaking_elo.cpp:166-184 | giving up one group frees the whole greedy block |
| Matchmaking.SkippedIsUseless | plugins/matchmaking_elo/shield_matchmaking_elo.cpp:178-183 | a player the greedy loop skips is in no legal group of the remaining players |
| Matchmaking.NoFamilyIsLarger | plugins/matchmaking_elo/shield_matchmaking_elo.cpp:166-184 | from every position on, no family of disjoint groups is larger than the greedy one |
| Matchmaking.GreedyIsMaximum | plugins/matchmaking_elo/shield_matchmaking_elo.cpp:156-184 | no choice of disjoint groups of k queued players within the tolerance has more groups than the greedy rule finds |
| Matchmaking.GreedyMatchesAreBlocks | plugins/matchmaking_elo/shield_matchmaking_elo.cpp:166-184 | every match is the block of k players at a greedy start position |
| Matchmaking.BlockIsGroup | plugins/matchmaking_elo/shield_matchmaking_elo.cpp:172-177 | comparing each player with the first of the group only still bounds every pair by the tolerance |
| Matchmaking.NthIsGroup | plugins/matchmaking_elo/shield_matchmaking_elo.cpp:166-184 | every match has exactly k players, all from the queue, pairwise within the tolerance |
| Matchmaking.NthAndLaterDisjoint | plugins/matchmaking_elo/shield_matchmaking_elo.cpp:166-184 | no player is in two matches |
| Matchmaking.MatchedWell | plugins/matchmaking_elo/shield_matchmaking_elo.cpp:156-184 | the matches of a round are legal, disjoint and as many as possible |
| Matchmaking.NothingLeftToMatch | plugins/matchmaking_elo/shield_matchmaking_elo.cpp:150-219 | what a maximum round leaves behind holds no legal group |
| Matchmaking.SecondRoundFindsNothing | plugins/matchmaking_elo/shield_matchmaking_elo.cpp:150-219 | a second round without a change in between makes no match |
| Matchmaking.SortByRating | plugins/matchmaking_elo/shield_matchmaking_elo.cpp:156-162 | every queued player is listed once, in ascending order of rating |
| Matchmaking.GroupGreedily | plugins/matchmaking_elo/shield_matchmaking_elo.cpp:165-184 | the nested loops build exactly the greedy matches |
| Matchmaking.GroupFrom | plugins/matchmaking_elo/shield_matchmaking_elo.cpp:169-177 | the inner loop collects the longest prefix of compatible players up to k, and reaches k exactly when the block fits |
| Matchmaking.RemovePlayers | plugins/matchmaking_elo/shield_matchmaking_elo.cpp:216-217 | matched players leave the queue and nobody else does |
| Matchmaking.IdsDistinctExactly | plugins/matchmaking_elo/shield_matchmaking_elo.cpp:53 | over a whole run match ids are distinct if and only if at most 2^64 have been handed out |
| Matchmaking.Matchmaker.constructor | plugins/matchmaking_elo/shield_matchmaking_elo.cpp:53 | an empty queue, and the first id is number 1 |
| Matchmaking.Matchmaker.Enqueue | plugins/matchmaking_elo/shield_matchmaking_elo.cpp:120-132 | the player is queued under the own id, replacing an earlier entry |
| Matchmaking.Matchmaker.Dequeue | plugins/matchmaking_elo/shield_matchmaking_elo.cpp:134-140 | exactly this player leaves; tells whether the player was queued |
| Matchmaking.Matchmaker.UpdateRating | plugins/matchmaking_elo/shield_matchmaking_elo.cpp:222-231 | only this player's rating changes, and only if the player is queued |
| Matchmaking.Matchmaker.TryMatch | plugins/matchmaking_elo/shield_matchmaking_elo.cpp:150-220 | a maximum set of matches; old queue = new queue plus matched players; no group remains; without memory for the result nothing changes; no match for k <= 0 |
| Matchmaking.Matchmaker.Report | plugins/matchmaking_elo/shield_matchmaking_elo.cpp:200-218 | each match gets the next id, its players leave the queue |
| ConnectionPool.NotifyCounts | plugins/mysql/shield_db_mysql.cpp:416-429 | a notification moves one blocked thread to the woken ones, if there is one, and touches no connection |
| ConnectionPool.ObtainKeepsInv | plugins/mysql/shield_db_mysql.cpp:466-544 | taking a connection or reserving a slot keeps conservation, single ownership and wake-up cover |
| ConnectionPool.GiveBackKeepsInv | plugins/mysql/shield_db_mysql.cpp:416-429 | giving back a slot, after a failed connect or for a broken connection, keeps the invariant and finds the size positive |
| ConnectionPool.ReleaseKeepsInv | plugins/mysql/shield_db_mysql.cpp:416-429 | returning a good connection keeps the invariant |
| ConnectionPool.LookKeepsInv | plugins/mysql/shield_db_mysql.cpp:466-544 | evaluating the wait predicate keeps the invariant whether it holds, blocks again or gives up |
| ConnectionPool.StepKeepsInv | plugins/mysql/shield_db_mysql.cpp:407-544 | every step of the protocol keeps the invariant, for both drivers, including spurious wake-ups and timeouts |
| ConnectionPool.RunKeepsInv | plugins/mysql/shield_db_mysql.cpp:407-544 | every interleaving does |
| ConnectionPool.PoolConservation | plugins/postgresql/shield_db_pgsql.cpp:519-612 | in every interleaving the current size is free + checked out + being opened and within the limit, and no connection has two owners |
| ConnectionPool.DecrementIsNeverSkipped | plugins/postgresql/shield_db_pgsql.cpp:519-612 | PostgreSQL's test before each decrement is never false |
| ConnectionPool.MySqlNoLostWakeup | plugins/mysql/shield_db_mysql.cpp:416-544 | in every interleaving the woken threads are at least min(free connections + unreserved slots, waiting threads) |
| ConnectionPool.MySqlBlockedMeansServed | plugins/mysql/shield_db_mysql.cpp:466-544 | while a thread is blocked and something is available, some woken thread gets it as soon as it runs |
| ConnectionPool.PgLosesWakeup | plugins/postgresql/shield_db_pgsql.cpp:548-612 | for every positive pool size and every larger number of threads a run that leaves a thread asleep beside a free slot |
| ConnectionPool.NobodyEverWaits | plugins/postgresql/shield_db_pgsql.cpp:548-612 | with a slot for every thread no run ever makes a thread wait |
| ConnectionPool.PgNoLostWakeupExactly | plugins/postgresql/shield_db_pgsql.cpp:548-612 | with n threads PostgreSQL loses a wake-up in no run if and only if n is at most the pool size or the pool has no capacity |
| ConnectionPool.PgCoversFreeConnections | plugins/postgresql/shield_db_pgsql.cpp:519-612 | it does not lose the wake-ups for connections that come back |
| ConnectionPool.PoolInstance.constructor | plugins/mysql/shield_db_mysql.cpp:299-306 | the empty pool, which satisfies the invariant |
| ConnectionPool.PoolInstance.BeginAcquire | plugins/mysql/shield_db_mysql.cpp:466-490 | the first critical section is the protocol's probe |
| ConnectionPool.PoolInstance.EvaluateWait | plugins/mysql/shield_db_mysql.cpp:511-532 | waking, entering the wait and timing out evaluate the predicate and take, block or give up as the protocol says |
| ConnectionPool.PoolInstance.NotifyOne | plugins/mysql/shield_db_mysql.cpp:416-429 | wakes one blocked thread if there is one and nothing else |
| ConnectionPool.PoolInstance.FinishOpen | plugins/mysql/shield_db_mysql.cpp:496-509 | a successful connect hands out a new connection, a failed one gives the slot back and notifies |
| ConnectionPool.PoolInstance.DestroyGuard | plugins/mysql/shield_db_mysql.cpp:416-429 | a good connection goes back to the free list, a broken one frees its slot; both notify one thread |
| ConnectionPool.PoolInstance.Drain | plugins/mysql/shield_db_mysql.cpp:548-556 | with nothing checked out, draining leaves an empty pool |
| ServiceRegistry.RenameKeepsInv | src/lua/lua_service.cpp:1208-1279 | registering and unregistering keep the two name tables inverse to each other and touch no other owner's names |
| ServiceRegistry.CommitKeepsInv | src/lua/lua_service.cpp:734-746 | so does the end of a spawn, which also appends to the spawn order |
| ServiceRegistry.DropNamesKeepsInv | src/lua/lua_service.cpp:714-727 | dropping an owner's names leaves none of its names and all others |
| ServiceRegistry.UnlistKeepsInv | src/lua/lua_service.cpp:1098-1121 | the last critical section of exit keeps the tables consistent and all other names, in any state |
| ServiceRegistry.ExitKeepsInv | src/lua/lua_service.cpp:1098-1121 | exit removes the service from every table whatever its hook registered, and keeps all other names |
| ServiceRegistry.NeverTakesOver | src/lua/lua_service.cpp:1208-1279 | no operation of one owner changes who another owner's name belongs to, and an attempt is refused |
| ServiceRegistry.UnregisterUndoesRegister | src/lua/lua_service.cpp:1208-1279 | unregistering a name just registered restores the published names and the owner's names |
| ServiceRegistry.ShutdownSpec | src/lua/lua_service.cpp:1124-1146 | exiting backwards calls on_exit once per service, the i-th spawned i-th from the end, and leaves no service and none of their names |
| ServiceTables.NameTable.constructor | src/lua/lua_service.cpp:734-746 | empty tables |
| ServiceTables.NameTable.RegisterName | src/lua/lua_service.cpp:1208-1245 | accepts a valid name that is free or already the caller's, and records it in both tables |
| ServiceTables.NameTable.UnregisterName | src/lua/lua_service.cpp:1247-1279 | only the owner can take a name back, and then it is free in both tables |
| ServiceTables.NameTable.CommitSpawn | src/lua/lua_service.cpp:734-746 | succeeds exactly when neither a service nor a name of this id exists; otherwise only the actor is dropped |
| ServiceTables.NameTable.EraseNames | src/lua/lua_service.cpp:1098-1121 | the loop erases exactly the owner's names |
| ServiceTables.NameTable.EraseFromOrder | src/lua/lua_service.cpp:1098-1121 | erase-remove keeps everything else in order |
| ServiceTables.NameTable.CallOnExit | src/lua/lua_service.cpp:1098-1121 | the hook's registrations happen in order on behalf of the service |
| ServiceTables.NameTable.ExitService | src/lua/lua_service.cpp:1098-1121 | is the exit step, and does nothing for an unknown service |
| ServiceTables.NameTable.ShutdownAll | src/lua/lua_service.cpp:1124-1146 | the loop over the snapshot calls on_exit once per service in reverse spawn order and ends with no services |
| Scheduling.EnqueueKeepsInv | src/lua/lua_service.cpp:1300-1344 | enqueueing keeps queue and index in agreement and every id in exactly one state |
| Scheduling.RouteKeepsInv | src/lua/lua_service.cpp:1300-1344 | sending the id, or rolling the task back when the actor is gone, does too |
| Scheduling.RunTaskKeepsInv | src/lua/lua_service.cpp:292-318 | running a task does too |
| Scheduling.CancelTasksKeepsInv | src/lua/lua_service.cpp:1346-1365 | cancelling takes exactly the service's tasks out of the queue |
| Scheduling.TaskStepKeepsInv | src/lua/lua_service.cpp:292-318 | all task steps keep: index = queue, each id is exactly one of pending, run, cancelled, rolled back, and runs at most once |
| Scheduling.FireKeepsInv | src/lua/lua_service.cpp:340-365 | firing keeps the timer table and its index in agreement and a one-shot timer fires once |
| Scheduling.CancelTimersKeepsInv | src/lua/lua_service.cpp:1065-1076 | cancelling a service's timers removes exactly those whose scheduling is complete |
| Scheduling.TimerStepKeepsInv | src/lua/lua_service.cpp:1619-1807 | all timer steps keep: the index lists the scheduled timers, each id is exactly one of live, fired, cancelled, failed |
| ServiceTables.ForkQueue.constructor | src/lua/lua_service.cpp:98-102 | an empty queue |
| ServiceTables.ForkQueue.RemoveIf | src/lua/lua_service.cpp:1346-1365 | the erase-remove loop drops exactly the given ids, in order |
| ServiceTables.ForkQueue.EraseFromIndex | src/lua/lua_service.cpp:292-318 | one id leaves the index, and an entry that becomes empty goes too |
| ServiceTables.ForkQueue.EnqueueForkedTask | src/lua/lua_service.cpp:1300-1313 | first half: queue and index get the new id; nothing for a caller without service |
| ServiceTables.ForkQueue.RouteForkedTask | src/lua/lua_service.cpp:1320-1344 | second half: sent if the actor exists, otherwise taken back from queue and index |
| ServiceTables.ForkQueue.RunReadyForkTask | src/lua/lua_service.cpp:292-318 | finds the task, takes it out and runs it; nothing if it was cancelled |
| ServiceTables.ForkQueue.CancelForService | src/lua/lua_service.cpp:1346-1365 | is the cancel step |
| ServiceTables.TimerTable.constructor | src/lua/lua_service.cpp:153-156 | an empty table |
| ServiceTables.TimerTable.FireTimer | src/lua/lua_service.cpp:340-365 | a one-shot timer leaves the table before its callback; a repeating one stays |
| ServiceTables.TimerTable.Cancel | src/lua/lua_service.cpp:1788-1807 | succeeds exactly for a live timer, which leaves table and index |
| ServiceTables.TimerTable.CancelForService | src/lua/lua_service.cpp:1065-1076 | the loop over the indexed ids is the cancel step |
| SuspendedCalls.ResumeKeepsInv | src/lua/lua_service.cpp:1459-1524 | resuming keeps: each session is pending or resumed, never both, resumed at most once and for the coroutine suspended under it |
| SuspendedCalls.CallStepKeepsInv | src/lua/lua_service.cpp:1412-1545 | so do suspend, tag, complete, timeout, blocking calls and exit, and timeout drivers stay within the pending calls |
| SuspendedCalls.RoutesExactly | src/lua/lua_service.cpp:1445-1524 | a step delivers its outcome to the call it belongs to, if that still waits, and to nobody else, if and only if no other waiting call has the number |
| SuspendedCalls.OwnOutcomesExactly | src/lua/lua_service.cpp:1412-1545 | over every run each suspended and each blocking call gets only outcomes of its own handler or timeout if and only if no step ends a call while another waiting call has its number |
| SuspendedCalls.RefinesIdealExactly | src/lua/lua_service.cpp:1412-1545 | under the same condition, and only then, the code does over the whole run what a router by call identity does |
| SuspendedCalls.OnlySuspendedNeverCrosses | src/lua/lua_service.cpp:1412-1545 | runs without blocking calls meet the condition |
| SuspendedCalls.TimeoutEndsExactly | src/lua/lua_service.cpp:665-674 | after its timeout the session is no longer pending if and only if no live blocking call has its number |
| SuspendedCalls.AnswerGoesAstray | src/lua/lua_service.cpp:988-1027 | the run in which a blocking call receives the answer to the first suspended call |
| SuspendedCalls.LateAnswerGoesAstray | src/lua/lua_service.cpp:1013-1027 | the run in which a suspended coroutine receives the late answer to a blocking call that gave up |
| ServiceTables.CallTable.constructor | src/lua/lua_service.cpp:114-180 | no calls, both counters at 1 |
| ServiceTables.CallTable.SuspendForCall | src/lua/lua_service.cpp:1412-1436 | records the caller under a new session, with a timeout driver if the service has an actor |
| ServiceTables.CallTable.ResumeCaller | src/lua/lua_service.cpp:1459-1524 | blocking call first, then the suspended one, otherwise nothing |
| ServiceTables.CallTable.OnHandlerCompleted | src/lua/lua_service.cpp:1445-1457 | an untagged coroutine answers nothing; a tagged one answers once |
| ServiceTables.CallTable.CheckCallTimeouts | src/lua/lua_service.cpp:1526-1545 | each expired call is resumed once with a timeout error, or uses up the blocking call of its number; nothing else changes, and what stays pending has not expired or was shadowed |
| ServiceManager.StepKeepsInv | src/lua/lua_service.cpp:734-1545 | every step of names, spawns, exits, tasks, timers and calls keeps all invariants together |
| ServiceManager.EveryRunKeepsInv | src/lua/lua_service.cpp:734-1807 | every reachable state satisfies them |
| ServiceManager.AnsweredAtMostOnce | src/lua/lua_service.cpp:1412-1545 | over every run no session is resumed twice |
| ServiceManager.AnsweredIsOver | src/lua/lua_service.cpp:1459-1524 | a resumed session is neither pending nor timed, and the coroutine suspended under its number was resumed |
| ServiceManager.OwnAnswersExactly | src/lua/lua_service.cpp:1412-1545 | over every run of the whole manager each call gets only its own outcomes if and only if no step ends a call while another waiting call has its number |
| ServiceManager.FiresOrCancels | src/lua/lua_service.cpp:340-365 | over every run a one-shot timer fires at most once and never both fires and is cancelled |
| ServiceManager.RunsAtMostOnce | src/lua/lua_service.cpp:292-318 | over every run a forked task runs at most once, and a task that ran is not pending, cancelled or rolled back |
| ServiceManager.ExitKeepsOthers | src/lua/lua_service.cpp:1039-1121 | exit leaves the names, tasks, timers, call timeouts and registrations of all other services as they were |
| ServiceManager.ExitTakesAll | src/lua/lua_service.cpp:1039-1121 | after exit the service has no actor, name, queued task or scheduled timer |
| ServiceManager.ExitSilencesExactly | src/lua/lua_service.cpp:1619-1786 | nothing of the service is left after exit if and only if none of its timers was in the middle of being scheduled |
| ServiceManager.ExitInSections | src/lua/lua_service.cpp:1064-1121 | the critical sections of exit, one directly after the other, are the exit step |
| ServiceManager.QuietStep | src/lua/lua_service.cpp:1039-1807 | no step but a spawn of the service brings anything of it back |
| ServiceManager.StaysQuiet | src/lua/lua_service.cpp:1039-1807 | over every run without such a spawn it stays quiet |
| ServiceLifetimes.DueExactly | src/lua/lua_service.cpp:292-318 | over every run a task is due at the end exactly when it was due before or was sent, and no step since ran or cancelled it |
| ServiceLifetimes.TickingExactly | src/lua/lua_service.cpp:1619-1807 | over every run a timer is live at the end exactly when it was before or was scheduled, and no step since ended it |
| ServiceLifetimes.InterleavedExitExactly | src/lua/lua_service.cpp:1064-1121 | an exit with any steps between its critical sections leaves nothing if and only if those steps leave no sent task and no scheduled timer of the service, and no half scheduled timer is left |
| ServiceLifetimes.UndisturbedExit | src/lua/lua_service.cpp:1064-1121 | if none of those steps routes a task of the service or schedules a timer for it, and no timer is half scheduled, the service is quiet |
| ServiceLifetimes.TimerScheduledDuringExit | src/lua/lua_service.cpp:1064-1121 | from every consistent state with an actor: an exit that cancels the tasks and all listed timers, during which the service schedules one more timer, does not leave it quiet |
| ServiceLifetimes.FailedInitExactly | src/lua/lua_service.cpp:683-727 | a spawn of a quiet service whose on_init fails, with any steps meanwhile, leaves nothing if and only if those steps leave no sent task and no scheduled timer of it |
| ServiceLifetimes.FailedInitLeavesTask | src/lua/lua_service.cpp:714-727 | from every consistent state: after a failed on_init that forked a task the service is not quiet |
| ServiceLifetimes.FailedInitLeavesTimer | src/lua/lua_service.cpp:714-727 | from every consistent state: nor after one that scheduled a timer |
| ServiceLifetimes.ShutdownSilencesExactly | src/lua/lua_service.cpp:1124-1146 | after all services have exited, last spawned first, nothing of a service is left if and only if none of its timers was half scheduled |
| ServiceLifetimes.QuietRunsNothing | src/lua/lua_service.cpp:1039-1807 | along every run without a new spawn a quiet service runs no task and fires no timer |
| LuaPack.LittleEndianInverse | src/lua/lua_runtime.cpp:838-987 | reading back n little-endian bytes gives the value modulo 256^n |
| LuaPack.DecodeHeader | src/lua/lua_runtime.cpp:1024-1186 | a table header with count n makes the decoder read n elements or n pairs |
| LuaPack.DecodeKey | src/lua/lua_runtime.cpp:838-987 | a key comes back as the same key and consumes its own bytes |
| LuaPack.RoundTrip | src/lua/lua_runtime.cpp:838-1186 | for every nested value whose scans reach the last entry, decoding its bytes followed by any suffix gives the value and consumes exactly its length |
| LuaPack.OnlyCompleteSurvives | src/lua/lua_runtime.cpp:907-925 | a value that comes back had every table scanned to the end |
| LuaPack.RoundTripExactly | src/lua/lua_runtime.cpp:838-1186 | the round trip holds if and only if every table is scanned to the end |
| LuaPack.MessageRoundTrip | src/lua/lua_runtime.cpp:824-836 | the same for whole messages, whose reported size is the total minus the 4 header bytes |
| LuaPack.NamedFieldsAreLost | src/lua/lua_runtime.cpp:907-925 | a table of two or more entries whose first visited key is a string never survives |
| LuaPack.WriteLittleEndian | src/lua/lua_runtime.cpp:838-987 | appends the n little-endian bytes of the value |
| LuaPack.ReadLittleEndian | src/lua/lua_runtime.cpp:1024-1186 | the shift-and-or loop reads the value of n bytes |
| LuaPack.ScanTable | src/lua/lua_runtime.cpp:907-925 | the scan's count, and array exactly when the keys are 1 to n |
| LuaPack.EncodeValue | src/lua/lua_runtime.cpp:838-987 | appends the encoding of the value, or fails where the format, a size or the depth does not allow it |
| LuaPack.EncodeString | src/lua/lua_runtime.cpp:881-902 | appends length and bytes of a string within the limit |
| LuaPack.EncodeTable | src/lua/lua_runtime.cpp:904-974 | appends the header and the elements or pairs |
| LuaPack.EncodeElements | src/lua/lua_runtime.cpp:936-943 | the loop over 1 to n appends the elements |
| LuaPack.EncodePairs | src/lua/lua_runtime.cpp:959-973 | the loop over the visited entries appends keys and values |
| LuaPack.DecodeValue | src/lua/lua_runtime.cpp:1024-1186 | decodes the value at an offset, or fails as the format says |
| LuaPack.DecodeScalar | src/lua/lua_runtime.cpp:1024-1111 | decodes nil, booleans, numbers and strings, with every truncation an error |
| LuaPack.DecodeElements | src/lua/lua_runtime.cpp:1123-1139 | the loop over the element count, advancing by what each element consumed |
| LuaPack.DecodePairs | src/lua/lua_runtime.cpp:1152-1179 | the loop over the pair count, advancing by what key and value consumed |
| Composite.PackOrder | plugins/leaderboard.redis/shield_leaderboard_redis.cpp:90-102 | packed fields compare like the masked field tuples in lexicographic order |
| Composite.UnpackPack | plugins/leaderboard.redis/shield_leaderboard_redis.cpp:74-119 | unpacking gives every field modulo 2^width |
| Composite.PackUnpack | plugins/leaderboard.redis/shield_leaderboard_redis.cpp:74-119 | packing what was unpacked gives the value modulo 2^total |
| Composite.ExactScore | plugins/leaderboard.redis/shield_leaderboard_redis.cpp:102 | up to 53 bits the score is the packed value itself |
| Composite.RoundedTogether | plugins/leaderboard.redis/shield_leaderboard_redis.cpp:102 | for every total from 54 to 64 two different field tuples with the same score |
| Composite.LastFieldDropped | plugins/leaderboard.redis/shield_leaderboard_redis.cpp:93-97 | above 64 bits the last field does not enter the score |
| Composite.OrderIsomorphicExactly | plugins/leaderboard.redis/shield_leaderboard_redis.cpp:90-102 | scores order all field tuples lexicographically if and only if the widths total at most 53 bits |
| Composite.DecodesExactly | plugins/leaderboard.redis/shield_leaderboard_redis.cpp:105-119 | for widths of 1 to 63 bits, whatever their total, every field tuple comes back modulo 2^width if and only if the widths total at most 53 bits |
| Composite.DecodesTheListedValues | plugins/leaderboard.redis/shield_leaderboard_redis.cpp:74-119 | end to end, for every listing order: each field decodes to what was listed under its name modulo 2^width, or 0 |
| Composite.ThreeDefaultFields | plugins/leaderboard.redis/shield_leaderboard_redis.cpp:121-140 | with default widths, boards of at most three fields, and only those, are ordered correctly |
| Composite.AnyOrder | plugins/leaderboard.redis/shield_leaderboard_redis.cpp:79-89 | a field's value is found at whatever position the caller lists it, if names are distinct |
| Composite.MissingIsZero | plugins/leaderboard.redis/shield_leaderboard_redis.cpp:79-89 | a field the caller leaves out counts as 0 |
| Composite.OrderFields | plugins/leaderboard.redis/shield_leaderboard_redis.cpp:79-89 | the nested loops bring the caller's fields into board order, the last duplicate winning |
| Composite.PackFields | plugins/leaderboard.redis/shield_leaderboard_redis.cpp:90-101 | the mask, shift and or loop computes the packed value, stopping where the shift goes below zero |
| Composite.EncodeComposite | plugins/leaderboard.redis/shield_leaderboard_redis.cpp:74-103 | the score of the ordered, truncated fields |
| Composite.DecodeComposite | plugins/leaderboard.redis/shield_leaderboard_redis.cpp:105-119 | the shift and mask loop unpacks the fields |
| Base64Url.RoundTrip | plugins/auth_jwt/shield_auth_jwt.cpp:33-76 | decoding an encoding gives the bytes back, for every byte sequence |
| Base64Url.EncodedLength | plugins/auth_jwt/shield_auth_jwt.cpp:33-49 | n bytes take ceil(4n/3) characters |
| Base64Url.CharsInAlphabet | plugins/auth_jwt/shield_auth_jwt.cpp:33-49 | every character produced is in the alphabet |
| Base64Url.JunkIsIgnored | plugins/auth_jwt/shield_auth_jwt.cpp:61-76 | inserting a character outside the alphabet anywhere does not change the result |
| Base64Url.ShiftIn | plugins/auth_jwt/shield_auth_jwt.cpp:33-76 | shifting bits into the wrapping 32-bit accumulator keeps the pending bits in its low end |
| Base64Url.ReadOut | plugins/auth_jwt/shield_auth_jwt.cpp:33-76 | the oldest pending bits can be read out of the accumulator, even a negative one |
| Base64Url.EncodeLoop | plugins/auth_jwt/shield_auth_jwt.cpp:33-49 | the accumulator loop equals the bit-string definition of RFC 4648 section 5 without padding |
| Base64Url.DecodeLoop | plugins/auth_jwt/shield_auth_jwt.cpp:61-76 | so does the decoding loop |
| JwtClaims.FindInPieces | plugins/auth_jwt/shield_auth_jwt.cpp:132-169 | the text search for a quoted key is a search for a piece between double quotes |
| JwtClaims.SearchValue | plugins/auth_jwt/shield_auth_jwt.cpp:132-169 | a string value is skipped unless what follows its last double quote is the key |
| JwtClaims.ReadEscaped | plugins/auth_jwt/shield_auth_jwt.cpp:105-148 | reading an escaped string back gives it with its control characters spelled out |
| JwtClaims.StrippedExactly | plugins/auth_jwt/shield_auth_jwt.cpp:105-148 | that is the string itself if and only if it has no control character |
| JwtClaims.JsonEscape | plugins/auth_jwt/shield_auth_jwt.cpp:105-128 | the loop escapes character by character |
| JwtClaims.FindValue | plugins/auth_jwt/shield_auth_jwt.cpp:132-139 | finds the text after key, colon and blanks, or reports that there is none |
| JwtClaims.JsonGetString | plugins/auth_jwt/shield_auth_jwt.cpp:132-148 | the loop reads the string up to the closing quote, dropping backslashes |
| JwtClaims.JsonGetInt | plugins/auth_jwt/shield_auth_jwt.cpp:151-169 | the loop reads the sign and the digits |
| Jwt.PayloadInPieces | plugins/auth_jwt/shield_auth_jwt.cpp:223-246 | the payload text is the listed pieces joined by double quotes |
| Jwt.ReadClaims | plugins/auth_jwt/shield_auth_jwt.cpp:223-299 | what each claim of a payload reads back as, for every user, issuer and audience: exp, sub, iss and aud with the exact condition under which they are right |
| Jwt.ClaimsVerdict | plugins/auth_jwt/shield_auth_jwt.cpp:250-299 | for readable values the clock alone decides the verdict |
| Jwt.OwnTokenVerdict | plugins/auth_jwt/shield_auth_jwt.cpp:223-299 | a token made with the same configuration splits at its dots, passes the signature check, and is judged by its own payload |
| Jwt.TokenRoundTrip | plugins/auth_jwt/shield_auth_jwt.cpp:223-299 | a created token is accepted at every moment from iat - leeway to exp + leeway with the same user, and otherwise refused for the clock's reason |
| Jwt.TokenAcceptedExactly | plugins/auth_jwt/shield_auth_jwt.cpp:223-299 | it is accepted throughout that time if and only if the user is not empty, nothing has control characters and the user does not end in a claim name that is looked up |
| Jwt.UserNamedExp | plugins/auth_jwt/shield_auth_jwt.cpp:151-169 | the token of a user called exp is refused as expired once it is older than the leeway |
| SqlMapper.CompileLoop | plugins/_shared/shield_db_mapper.hpp:97-100 | the loop replaces each named parameter by a question mark and lists the resolved values in order, the text not depending on the parameters |
| SqlMapper.CompileSql | plugins/_shared/shield_db_mapper.hpp:94-108 | the compiled statement with its values, or one of the two refusals |
| SqlMapper.RefusedExactly | plugins/_shared/shield_db_mapper.hpp:101-106 | a statement is refused if and only if a literal `${` or a literal semicolon stands outside its parameters |
| SqlMapper.RewritePlaceholders | plugins/postgresql/shield_db_pgsql.cpp:172-187 | the loop numbers the question marks from 1 |
| SqlMapper.RewriteTokens | plugins/postgresql/shield_db_pgsql.cpp:172-187 | rewriting compiled text numbers parameters and literal question marks alike |
| SqlMapper.PgRoundTrip | plugins/postgresql/shield_db_pgsql.cpp:172-187 | numbered text reads back as the same tokens, by a lexer that knows words, quotes, dollar quotes and nested comments, if and only if every reference stands outside those and no digit follows it or a free dollar sign |
| SqlMapper.PgReadsExactly | plugins/postgresql/shield_db_pgsql.cpp:172-187 | PostgreSQL reads the rewritten text as the original with $1 to $n in order if and only if there is no literal question mark anywhere, no parameter in a quote or comment or right after a word, and no such digit |
| SqlMapper.PgMeaningPreserved | plugins/_shared/shield_db_mapper.hpp:71-108 | under that condition substituting the listed values by number equals substituting the named parameters, nil as empty string |
| SqlMapper.MyMeaningExactly | plugins/_shared/shield_db_mapper.hpp:71-108 | substituting by position equals substituting by name if and only if no literal question mark stands outside quotes and comments and no parameter inside them |
| SqlMapper.QuotedParameterIsLost | plugins/_shared/shield_db_mapper.hpp:94-108 | a named parameter between quotes, whatever its name, is not bound by either database |
| SqlMapper.QuotedQuestionMark | plugins/postgresql/shield_db_pgsql.cpp:172-187 | a question mark between quotes breaks the statement for PostgreSQL and not for MySQL |
| SqlMapper.CollectPositional | plugins/mysql/shield_db_mysql.cpp:685-698 | collects the integer-keyed values in ascending order of key |
| SqlMapper.DenseListUnchanged | plugins/mysql/shield_db_mysql.cpp:685-698 | a dense list passes unchanged, whatever order its table is visited in |
| ConfigTree.MergeNodes | src/config/config.cpp:76-93 | the loop over the overlay's entries computes the merge, in any order |
| ConfigTree.MergeLaws | src/config/config.cpp:76-93 | null is neutral on both sides, and merging a tree into itself changes nothing |
| ConfigTree.AssociativeExactly | src/config/config.cpp:76-93 | merging three trees does not depend on the grouping unless, here or under a common key, something that is no map comes between two maps and the last does not absorb the first |
| ConfigTree.ScalarInBetween | src/config/config.cpp:76-93 | under every key: with a scalar between two maps the two groupings of the merge differ |
| ConfigTree.NavigateMerge | src/config/config.cpp:64-93 | looking up in a merge is merging the lookups, when all proper prefixes are maps on both sides |
| ConfigTree.MergedValue | src/config/config.cpp:64-93 | a value of the base stays if the overlay is silent along its path, and otherwise becomes what the overlay has there |
| ConfigTree.OverlayWins | src/config/config.cpp:64-93 | a value of the overlay is the value of the merge, whatever the base has |
| ConfigTree.SplitKey | src/config/config.cpp:44-61 | the loop splits at dots and drops empty parts |
| ConfigTree.SplitJoin | src/config/config.cpp:44-61 | splitting a joined path of non-empty dot-free keys gives the path |
| ConfigTree.ListTexts | src/config/config.cpp:117-133 | the texts of a list of scalars, nothing if an item is not a scalar |
| ConfigTree.StoreValue | src/config/config.cpp:105-133 | a scalar is stored with the kind its tag gives, a scalar list as texts, any other list not at all |
| ConfigTree.FlattenInto | src/config/config.cpp:95-141 | for every tree: the names written are exactly those that some path to a value is spelled by, each with a value it leads to, and all other keys stay |
| ConfigTree.Config.constructor | src/config/config.cpp:95-141 | an empty tree and an empty index |
| ConfigTree.Config.LoadYaml | src/config/config.cpp:688-699 | for every document the tree becomes the merge, and the index is rebuilt from it |
| ConfigTree.AgreesExactly | src/config/config.cpp:44-141 | for every tree: index and navigation agree, in whatever order maps are visited, if and only if every value is also reached through the parts of the name it is spelled by |
| ConfigTree.GoodKeysAreUnambiguous | src/config/config.cpp:44-141 | trees with non-empty dot-free keys meet the condition |
| ConfigTree.AgreesAfterLoads | src/config/config.cpp:688-699 | after any sequence of loads of documents with such keys the index and navigation agree on every key |
| ConfigTree.IndexIsNavigation | src/config/config.cpp:44-141 | for such trees the index has a key exactly when navigating its parts reaches a scalar or scalar list, with equal value |
| ConfigTree.LoadKeepsOrReplaces | src/config/config.cpp:688-699 | a key already set keeps its value if the document is silent about it and otherwise has what the document has there |
| ConfigTree.LoadSets | src/config/config.cpp:688-699 | a key the document sets has the document's value afterwards |
| ConfigTree.DottedKeyDisagrees | src/config/config.cpp:44-141 | for every key with a dot: the index has it with its value, and navigation finds nothing |
| ScriptCache.StepStaysBounded | src/lua/lua_runtime.cpp:149-173 | a load keeps the cache within one entry over its size and evicts at most one entry, one used longest ago |
| ScriptCache.StepStaysFresh | src/lua/lua_runtime.cpp:305-353 | a load keeps every entry what its file held at that time in some state of the file system |
| ScriptCache.StepIsCurrent | src/lua/lua_runtime.cpp:133-147 | a load returns the file's current text if modification times tell the states apart |
| ScriptCache.AlwaysBounded | src/lua/lua_runtime.cpp:149-173 | over every run the cache holds at most one entry too many, and a load evicts at most one, of those used longest ago |
| ScriptCache.EveryLoadIsCurrent | src/lua/lua_runtime.cpp:305-353 | over every run of loads and clears with files changing in between every load is current, if modification times tell the states apart |
| ScriptCache.CurrentExactly | src/lua/lua_runtime.cpp:305-353 | for every set of states of the file system: all loads of all runs are current if and only if the cache is off or times tell those states apart |
| ScriptCache.SameTimeIsStale | src/lua/lua_runtime.cpp:133-147 | for any two states with the same time of a path, a run in which the second load is current only if the contents are the same |
| ScriptCache.EvictIfNeeded | src/lua/lua_runtime.cpp:149-173 | removes max(1, overage / 10) entries, none of them used after one that stays |
| ScriptCache.ScriptStore.constructor | src/lua/lua_runtime.cpp:93-107 | an empty cache |
| ScriptCache.ScriptStore.LoadSource | src/lua/lua_runtime.cpp:305-353 | hit, miss, missing file and disabled cache are the steps of the runs above |
| ScriptCache.ScriptStore.ClearCache | src/lua/lua_runtime.cpp:1189-1192 | empties the cache |
| Listener.StoreKeepsInv | src/net/listener.cpp:143-164 | storing a session counts it for its IP and stays within both limits, although the checks were made earlier |
| Listener.RemoveKeepsInv | src/net/listener.cpp:212-228 | removing a session uncounts it and leaves no zero counter |
| Listener.StepKeepsInv | src/net/listener.cpp:76-234 | every critical section keeps: counter of each IP = its stored sessions, no zero counter, both limits |
| Listener.LimitsHold | src/net/listener.cpp:76-234 | every interleaving of accepts, kicks, repeated closes and stop does |
| Listener.RepeatedClose | src/net/listener.cpp:212-234 | closing a session twice is closing it once |
| Listener.TcpListener.constructor | include/shield/net/listener.hpp:84-91 | no sessions, no counters |
| Listener.TcpListener.PassesTotal | src/net/listener.cpp:106-120 | refuses exactly when the total limit is set and reached |
| Listener.TcpListener.PassesIp | src/net/listener.cpp:122-141 | refuses exactly when the per-IP limit is set and reached for this IP |
| Listener.TcpListener.StoreSession | src/net/listener.cpp:143-164 | the session is stored under a new id and counted |
| Listener.TcpListener.RemoveSession | src/net/listener.cpp:196-234 | the session goes, its counter drops or disappears; an unknown session changes nothing |
| Listener.TcpListener.StopListening | src/net/listener.cpp:76-94 | all sessions and counters go |

## Left out

- CAF scheduling, mailboxes, the Lua VM and sol2: actors are sequences of steps, Lua values a datatype; a reply is not promised to arrive.
- Matchmaking.SortByRating: an insertion in any order of the map stands for std::sort; the order of equal ratings is left open, as it is there.
- Matchmaking.Matchmaker.TryMatch: ratings are reals; NaN and the rounding of differences of doubles are not modelled.
- ConnectionPool.PoolInstance.Drain: needs that nothing is checked out, as the plugins' unload does.
- ConnectionPool.PoolInstance.BeginAcquire: a connect is one step that succeeds or fails. PostgreSQL's health check that drops an idle connection is a take followed by a discard; the retry it then makes with the mutex still held is not modelled.
- The move assignment of the MySQL pool guard, which nothing uses.
- ServiceManager.StepKeepsInv: the counters of sessions, tasks and timers do not wrap around at 2^64.
- ServiceTables.NameTable.ShutdownAll: no spawn runs at the same time, and an on_exit hook only registers and unregisters names.
- ServiceTables.NameTable.CallOnExit: what else an on_exit hook does (sending, forking, scheduling) is a step of its own before the exit.
- ServiceTables.CallTable.SuspendForCall: the caller always has a coroutine; the branch of a failed send, which resumes a running coroutine, depends on the Lua VM.
- SuspendedCalls.OwnOutcomesExactly: a handler coroutine is not mistaken for a later one at the same address.
- A spawn whose on_init fails after its time limit, which drops nothing: it is no step of the model.
- LuaPack.RoundTripExactly: service handles, integers beyond 2^53, fractional keys, keys outside 32 bits, strings of 2^32 - 5 bytes or more and NaN are not covered; floating-point numbers are their 64 bits.
- LuaPack.DecodePairs: a pair whose key decodes to a fraction or a table is an error here; the source stores it under a number or a new table. A nil key, an error here, is one in Lua too.
- Composite.EncodeComposite: values are non-negative and below 2^64, where the conversion to an unsigned integer is defined; widths are 1 to 63.
- Composite.DecodeComposite: the first shift is below 64; a wider board shifts by 64 or more, which is undefined.
- Redis ordering, secondary sort directions and get_rank.
- Jwt.TokenAcceptedExactly: iat and ttl are positive and leeway is not negative; strings hold 8-bit characters; 64-bit overflow of the times is not modelled.
- Jwt.OwnTokenVerdict: the HMAC is an arbitrary function of secret and text; the token blacklist is a separate check.
- SqlMapper.PgReadsExactly: escape strings continued on another line, numbers with an exponent right before a parameter, non-standard string settings and the complaint of newer versions about a letter right after a parameter are not modelled.
- SqlMapper.MyMeaningExactly: default SQL mode, with backslash escapes and double quotes for strings; a version comment counts as a comment.
- The entity builders that generate SQL from entity definitions.
- ConfigTree.FlattenInto: which of several values that meet in one name is kept depends on the order of the map, which is left open.
- ConfigTree.Config.LoadYaml: the document is already parsed and has no value whose conversion to its tag throws; `set` and environment overrides are left out.
- ConfigTree.NavigateMerge: YAML nodes are values here; in yaml-cpp a node is a shared reference, and the assignment in the loop of navigate_yaml (src/config/config.cpp:64-74) rebinds one.
- ScriptCache.ScriptStore.LoadSource: reading a file and its time is one step, and the time is a property of the file; the source recomputes it from two clocks.
- ScriptCache.EvictIfNeeded: sorting by last use is repeated selection, and which of several equally old entries goes is left open.
- Listener.LimitsHold: limits are set before the listener starts, one accept is in progress at a time, and a session's remote address is the accepted one.
- Redis, MongoDB, SQLite, msgpack and protobuf plugins, health and metrics endpoints, cluster manager, configuration validation, console, logger and command line: wrappers, plumbing or one-branch facts.
