# Ikkat: a verified model of its commit path, replicated log, primality test and client cache

Ikkat is a primary-backup store for output files of numbers. A client's dirty `Close` carries
numbers; the primary removes duplicates, prints the accumulated set as the new file content,
appends it to a log, replicates the entry, commits it by majority and applies it to disk. This
project models that path in Dafny and proves what it keeps, over every run.

| file | what it models |
|---|---|
| `Base.dfy` | 64-bit and 32-bit integers, the option type, open modes, lists |
| `ModArith.dfy` | the number theory the primality test rests on, up to Fermat's little theorem |
| `Primality.dfy` | `mulMod`, `modExp`, `check`, `IsPrime` with 128-by-64-bit division |
| `Pseudoprime.dfy` | a composite number that `IsPrime` accepts, and one that it rejects |
| `NumberText.dfy` | `parseNumbers` and the `%d\n` printing of `Close` |
| `PrimeSets.dfy` | the per-file set: filter, printing in map order, loading |
| `FileToken.dfy` | the `FileEntry` reader/writer token, as an object and as a system of threads |
| `Versions.dfy` | the version check and bump under the token, on top of `FileToken` |
| `CommitPath.dfy` | concurrent dirty Closes of one output file, on top of `Versions` |
| `Requests.dfy` | `Close` one call at a time: request cache, open files, the dirty branch; rebuilding of prime sets |
| `SharedLog.dfy` | which log entries are applied and which files fall out of step with their sets, over every run |
| `Takeover.dfy` | the prime sets and indices of a server that starts or takes over |
| `Replication.dfy` | one server's log: append, commit, apply, recover, catch up |
| `Cluster.dfy` | a primary and backups with an unreliable network, crashes and restarts |
| `NoRepeatsAnywhere.dfy` | servers without any discipline, for the no-duplicate guarantee |
| `OneAtATime.dfy` | the models of a dirty Close agree with each other |
| `Leader.dfy` | heartbeats and election |
| `ClientCache.dfy` | the client's cache, local copies and LRU list |

Objects whose methods update fields are classes whose methods are proved equal to a function on the
object's value; the step systems use the same functions. A run is a list of events from which
events that are not enabled are skipped, so a claim about every list is a claim about every run.

## Conventions

- File content is text (runes after Go's conversion of bytes); file names are strings that are only compared.
- Go's random map iteration order is a parameter: an `order` with each key once. Answers of peers, of
  the server and of the local disk, timeouts and majority outcomes are parameters or free choices of a step.
- File and log writes succeed and are atomic; the log file is a sequence of entries. A server may crash
  between any two entries that recovery replays.
- `CommitPath` is about Closes of one file, where the write token serialises the computation of the log
  index (server_basics.go:712) and the append (server_basics.go:719). `Cluster` has one Close in flight.
- In `Cluster` a backup is not handed an entry before its predecessor, because `AppendEntries` does not
  check for gaps; `AppendKeepsPrefixIff` shows that this is exactly what is needed.

## What the code does not do

Each of these is a lemma with the exact condition under which the expected behaviour holds; only for the
primality test there is none but the test's own.

- A Close that is rejected for lack of a majority leaves its entry in the log. A later committed Close
  of any file applies it, so the rejected numbers reach the file: `SharedLog.InStepAfterAnyRunIff`,
  `SharedLog.InStepAfterRunIff`, `SharedLog.RejectedCloseCanLeak`.
- `recoverFromLog` takes `lastApplied` from the highest index in the log file, which may lie beyond the
  number of entries, because `AppendEntries` accepts gaps. Until the log has grown past it, Closes succeed
  and change no file: `Replication.RecoveredIndices`, `Requests.CommittedCloseInStepIff`,
  `SharedLog.FilesAfterRun`, `CommitPath.FileIsCommittedNumbers`. A backup that joins late, restarts and is
  elected is such a server: `Replication.LateBackupOvershoots`, `Takeover.LateBackupLosesClose`.
- A server is still a backup while it recovers, so a starting primary rebuilds no prime set, and the first
  committed Close that writes a file drops the numbers it does not bring again:
  `Takeover.StartKeepsNumbersIff`, `Takeover.StartCanLoseNumbers`. A takeover rebuilds only output files
  directly in the root directory, and so none whose name begins with `output/`:
  `Takeover.TakeOverKeepsNumbersIff`, `Takeover.CreatedIsRebuiltIff`, `Takeover.TakeOverCanLoseNumbers`.
- `recoverFromLog` declares every logged entry committed. After a restart of the primary an entry it calls
  committed may be on no other server: `Cluster.PrimaryRestartKeepsQuorumIff`,
  `Cluster.PrimaryRestartCanBreakQuorum`. What a Close committed stays on a majority all the same:
  `Cluster.CommittedOnMajority`.
- A full synchronisation does not touch the log file, so a restart replays old entries over the
  synchronised files: `Replication.FullSyncSurvivesRestartIff`, `Replication.RestartCanUndoFullSync`.
- A client's `Read` of a file it has written fetches the server's text over the written one, and the next
  `Close` or `Commit` sends that: `ClientCache.SendsWrittenIff`, `ClientCache.ReadDiscardsWrite`.
- `Open` truncates the local copy, and a second `Open` at the same version trusts it, so a `Read` returns
  nothing: `ClientCache.ReadsServerTextIff`, `ClientCache.SecondOpenReadsNothing`.
- `Close` by a client that is not registered locks the server's mutex twice and never returns; a second
  Close under a new request ID does this, and afterwards every Close hangs for as long as the
  server is primary: `Requests.LosesMutexIff`,
  `Requests.SecondCloseHangs`, `Requests.MutexLostForever`.
- Servers that hear the same heartbeats may still name different leaders if they started from different
  ones: `Leader.SameSendersSameLeaderIff`.
- An empty server ID resets what a server knows of its leader and makes the election depend on map order:
  `Leader.LeaderIsLeast`, `Leader.ElectionOrderFreeIff`.
- Versions are 32-bit: a base version is accepted again after exactly 2^32 successes:
  `Versions.EachBaseWinsOnce`, `Versions.BaseAcceptedAgain`.
- `IsPrime` is not exact for 64-bit integers, as the comment at common.go:104 claims: it accepts the
  composite 341550071728321: `Pseudoprime.AcceptsComposite`. What it accepts is stated by `Primality.AcceptsIff`.
- `modExp` with modulus 1 and exponent 0 returns 1, not 0: `Primality.ModExp`.

## Model

| member | source | states |
|---|---|---|
| Primality.Mul64 | common.go:84 | high and low word together are the exact product |
| Primality.Div64 | common.go:85 | quotient and remainder of the 128-bit number, for a high word below the divisor |
| Primality.MulMod | common.go:83-87 | the result is a*b mod m whenever the division does not panic |
| Primality.ReducedFactorsDoNotPanic | common.go:75-77 | reduced factors keep the high word below the modulus, so the division never panics |
| Primality.ModExp | common.go:70-81 | the result is base^exp mod m exactly when m > 1 or exp > 0, and 1 for m = 1 with exp = 0; no call inside panics |
| Primality.SquareStep | common.go:73-79 | one round of square-and-multiply keeps result * base^exp modulo m |
| Primality.Check | common.go:90-102 | true exactly when a^d is 1 or some a^(d*2^i) with i < r is n-1, modulo n |
| Primality.WalkDown | common.go:95-100 | where 1 has no other square roots than 1 and n-1 among the powers, going down from a power that is 1 meets 1 or n-1 |
| Primality.PassesIff | common.go:90-102 | for n-1 = d*2^r a base passes exactly when a^(n-1) is 1 and each a^(d*2^i) whose square is 1 is 1 or n-1, modulo n |
| Primality.PrimePasses | common.go:90-102 | every base passes when n is prime (by Fermat's little theorem) |
| Primality.AcceptsPrimes | common.go:105-133 | every prime satisfies what the test computes |
| Primality.TrialDivision | common.go:110-115 | answers exactly when a table prime divides n, with n's membership in the table |
| Primality.SplitPowerOfTwo | common.go:117-122 | n-1 = d * 2^r with d odd and r at least 1 |
| Primality.DecompositionUnique | common.go:116-122 | d and r are determined by n |
| Primality.AllBasesPass | common.go:124-132 | true exactly when all seven bases pass |
| Primality.AcceptsIff | common.go:105-133 | accepted are the table and the numbers without divisor in it that meet Fermat's condition and have no other square root of 1 on the way to it, for all seven bases |
| Primality.IsPrime | common.go:105-133 | true for every prime below 2^64, true exactly when the Miller-Rabin condition holds; an accepted n outside the table has a^(n-1) = 1 modulo n for every base; exact below 361 |
| Primality.ExactBelow361 | common.go:109-115 | below 19^2 what the test accepts is prime |
| Pseudoprime.AcceptsComposite | common.go:104-133 | 341550071728321 passes trial division and all seven bases and is not prime |
| Pseudoprime.RejectsSquareOf19 | common.go:124-132 | 361 passes trial division, is not prime and is rejected |
| ModArith.Fermat | common.go:104-133 | a^(p-1) is 1 modulo a prime p that does not divide a |
| ModArith.SquareRootsOfOne | common.go:95-100 | modulo a prime only 1 and -1 square to 1 |
| NumberText.ParseNumbers | common.go:135-145 | the loop yields the numbers of the white-space fields that parse as 64-bit decimals |
| NumberText.ParseUintOfDigits | common.go:139 | parsing the decimal digits of a 64-bit number gives the number |
| NumberText.FieldsConcat | common.go:137 | splitting distributes over concatenation at any white space |
| NumberText.ParsedConcat | common.go:135-145 | parsing distributes over concatenation at any white space, unparsable fields included |
| NumberText.ParseInvertsPrint | server_basics.go:704-707 | printing any list of 64-bit numbers one a line and parsing gives the list back |
| NumberText.ParsedWord | common.go:138-143 | a word counts exactly when it has only digits and a value below 2^64, and then with that value |
| NumberText.NonNumberIsSkipped | common.go:138-143 | between white space a word with any other character than a digit is skipped |
| NumberText.HugeNumberIsSkipped | common.go:139-142 | so is a decimal of 2^64 or more |
| NumberText.LeadingZeroIsIgnored | common.go:139 | a leading zero does not change the number |
| NumberText.SpaceSeparates | common.go:137 | each white space character of Go separates two numbers |
| NumberText.OtherDoesNotSeparate | common.go:137-142 | commas, signs, points and letters do not; the joined word is skipped |
| PrimeSets.FilterUniquePrimes | server_basics.go:288-297 | in place, the set gains exactly the given numbers; returned are those not in it, first occurrences in order |
| PrimeSets.NewNumbersAreNew | server_basics.go:288-297 | the returned numbers are without repeats and are the given numbers minus the set |
| PrimeSets.PrintInOrder | server_basics.go:704-707 | the buffer holds the keys in iteration order, one a line |
| PrimeSets.PrintedSet | server_basics.go:702-710 | for every map order a printed set parses to itself, each number once |
| PrimeSets.LoadSet | server_replication.go:291-295 | the new set is the set of numbers parsed from the text |
| FileToken.FileEntry.AcquireRead | server_basics.go:199-206 | granted exactly when no writer is active or waiting; only then the reader count rises |
| FileToken.FileEntry.AcquireReadNoPriority | server_basics.go:190-197 | granted exactly when no writer is active |
| FileToken.FileEntry.ReleaseRead | server_basics.go:208-215 | the reader count falls unless it is zero |
| FileToken.FileEntry.AnnounceWrite | server_basics.go:217-219 | the waiting count rises |
| FileToken.FileEntry.AcquireWrite | server_basics.go:220-225 | granted exactly when nobody is active; waiting falls and the writer is set together |
| FileToken.FileEntry.ReleaseWrite | server_basics.go:228-233 | the writer flag is cleared |
| FileToken.FileEntry.AcquireForDelete | server_basics.go:454-460 | takes the writer flag without waiting exactly when nobody is active |
| FileToken.NextKeepsInv | server_basics.go:190-233 | every step of every thread keeps counts, exclusion and the absence of lost wake-ups |
| FileToken.EveryRunIsSafe | server_basics.go:182-233 | in every run the counters equal the numbers of threads in each role, a writer is alone, every sleeper's guard is false |
| FileToken.EntersIff | server_basics.go:182-226 | in every run a Reader enters exactly when no writer is in or waits, an InputReader when no writer is in, a Writer when nobody is in; otherwise it sleeps; no other thread moves |
| FileToken.DeleteEntersIff | server_basics.go:454-460 | Delete takes the token exactly when nobody holds it and else changes nothing |
| FileToken.LeavingWakesAll | server_basics.go:208-233 | a thread that leaves is gone and wakes every sleeper |
| FileToken.ReleaseReadGuardHolds | server_basics.go:210-212 | a thread that releases a read it holds never finds the counter at zero |
| FileToken.SomeWaiterCanEnter | server_basics.go:190-233 | if threads wait while nobody holds the token, one has been woken and its guard is true |
| Versions.StepKeepsVersionInv | server_basics.go:672-680 | an accepted call keeps the current version as base until it leaves, and is alone |
| Versions.EachBaseWinsOnce | server_basics.go:800-807 | in every interleaving of Close and Write the version is start plus successes (32-bit), each success brought the version the one before it left, and two share a base exactly when 2^32 divides their distance |
| Versions.ReadersNeverWin | server_basics.go:675-677 | a thread that never has the file open for writing bumps the version in no interleaving |
| Versions.EveryNumberOfWinsOccurs | server_basics.go:800-807 | for every n there is a run with n successes that leaves the token free |
| Versions.BaseAcceptedAgain | server_basics.go:672-680 | in a run of 2^32 + 1 successes the first and the last have the same base |
| CommitPath.StepKeepsInv | server_basics.go:671-807 | every step of every Close keeps the invariant that ties file, set, log, version and progress |
| CommitPath.FileIsCommittedNumbers | server_basics.go:671-793 | for any number of concurrent Closes, at every moment, the file holds, each once, the initial numbers and those of exactly the committed Closes if and only if lastApplied did not lie beyond the log at the start, an entry has been applied since, or nothing new was brought; otherwise the initial numbers; with no writer the stored set holds them all and the version counts the commits |
| CommitPath.SoloCloseCommits | server_basics.go:671-807 | a Close that runs alone with a majority applies its entry, merges its numbers, counts as committed and bumps the version; nothing else changes |
| CommitPath.SoloCloseFails | server_basics.go:671-762 | one that misses its majority leaves its entry in log and log file and nothing else |
| Requests.PrimaryServer.CountAcks | server_basics.go:746-762 | the loop succeeds exactly when the server and the positive answers are at least len/2+1; negative answers do not count |
| Requests.PrimaryServer.BuildContent | server_basics.go:682-710 | the private copy gains the parsed numbers and is printed; the live set stays |
| Requests.PrimaryServer.CloseDirty | server_basics.go:671-807 | the dirty branch, with its three errors, equals its specification on the server's value |
| Requests.PrimaryServer.HandleClose | server_basics.go:609-824 | the whole call, with cache hit, missing file, unregistered client and every rejection, equals its specification |
| Requests.DirtyCloseReturnsIff | server_basics.go:632-762 | an unanswered dirty Close succeeds exactly when the primary can answer, the client has the file open for writing, its version is current and server and positive answers reach len/2+1 |
| Requests.RejectedIff | server_basics.go:610-762 | the exact condition of each of the five rejections |
| Requests.CleanClose | server_basics.go:667-824 | the whole state after a Close that is not dirty: it returns the current version, takes the client off the file and stores the answer |
| Requests.CommittedClose | server_basics.go:682-824 | a success merges the numbers into the set, logs that set printed under the next index and version, and moves version, registration and cached response together; the file becomes the logged text, or no file changes when lastApplied lies beyond the log |
| Requests.CommittedCloseInStepIff | server_basics.go:711-793 | after a success file and set agree exactly when lastApplied did not lie beyond the log or the file already held the new set |
| Requests.FailedClose | server_basics.go:610-762 | the whole state after each failure: at most the version entry is created; a missed majority adds one entry to log and log file; a missing registration loses the mutex; an admitted Close fails only for lack of a majority |
| Requests.RepeatIsHarmless | server_basics.go:632-639 | repeating a successful request ID changes nothing and returns the first answer |
| Requests.RepeatsCanBeRemoved | server_basics.go:632-639 | the final state of a run equals that of the run with repeated successful IDs removed |
| Requests.LosesMutexIff | server_basics.go:655-665 | exactly when a Close locks the mutex a second time |
| Requests.SecondCloseHangs | server_basics.go:655-665 | closing again under a new request ID never returns |
| Requests.MutexLostForever | server_basics.go:632-665 | after that every Close hangs and nothing changes |
| Requests.PrimaryServer.RebuildPrimeSet | server_replication.go:282-300 | on a primary the file's set becomes the numbers it holds, a missing file is an error; a backup does nothing |
| Requests.LoadSets | server_basics.go:154-173 | the directory loop replaces exactly the sets of the names it does not skip |
| Requests.PrimaryServer.RebuildAllPrimeSets | server_basics.go:141-173 | on a primary the sets of exactly the output files directly in the root become the numbers they hold |
| Requests.PrimaryServer.RecoverFromLog | server_replication.go:243-279 | the log file is replayed, then the sets are rebuilt if the server is primary |
| Requests.PrimaryServer.StartServer | connection.go:35-60 | recovery and rebuilding happen in the old role, the elected role comes last |
| Requests.PrimaryServer.BecomePrimary | server_replication.go:166-178 | the role comes first, the rebuilding after it |
| SharedLog.CloseEffect | server_basics.go:671-793 | any Close changes log, files and sets in one of three ways: not at all, by one log entry, or by applying everything pending and installing its set |
| SharedLog.FilesAfterRun | server_replication.go:477-486 | over any run exactly the log entries from lastApplied on are applied; while the log is no longer than lastApplied no file changes |
| SharedLog.InStepAfterAnyRunIff | server_basics.go:711-793 | from any state, pending entries or lastApplied beyond the log included: calls that fill the gap change no file; then the last admitted Close of f up to the last commit decides, else what the log held for f, else the state before |
| SharedLog.InStepAfterRunIff | server_basics.go:711-793 | from a state with everything applied and f in step, after any calls file and set of f agree exactly when the last admitted Close of f, at or before the last committed Close of any file, committed or brought no new number |
| SharedLog.RejectedCloseCanLeak | server_basics.go:718-772 | on three servers a rejected Close of f with 7 and a committed Close of g leave 7 in f and an empty set |
| Takeover.CloseKeepsNumbersIff | server_basics.go:682-772 | a committed Close keeps the numbers of the file exactly when lastApplied lies beyond the log, the set has them, or the Close brings them |
| Takeover.CloseBringsNumbersIff | server_basics.go:682-772 | its own numbers reach the file exactly when lastApplied does not lie beyond the log or the file has them |
| Takeover.StartRebuildsNothing | connection.go:43-60 | a start changes only log, files, indices and role of a new server; it has no prime set, elected or not |
| Takeover.StartKeepsNumbersIff | connection.go:35-60 | the first committed Close of a file after a start, for any log file: recovered numbers stay exactly when some index exceeds the number of entries or it brings all of them again; its own arrive exactly when none does or they were there |
| Takeover.StartCanLoseNumbers | connection.go:43-57 | a start on a file with 7 and a committed Close with 5 leave a file with 5 only |
| Takeover.TakeOverSet | server_replication.go:166-178 | a takeover changes only the role and the sets of rebuilt files, which become the numbers they hold |
| Takeover.TakeOverKeepsNumbersIff | server_replication.go:166-178 | after a takeover the first committed Close keeps the numbers exactly when lastApplied lies beyond the log, the file was rebuilt, or old set and Close have all of them |
| Takeover.CreatedIsRebuiltIff | server_basics.go:342 | of the names Create accepts none under output/ is rebuilt; the exact condition for the others |
| Takeover.TakeOverCanLoseNumbers | server_replication.go:166-178 | a takeover with a file under output/ holding 7 and a committed Close with 5 leave 5 only |
| Takeover.LateBackupLosesClose | server_basics.go:711-772 | a late backup that was sent entry 7, restarted and was elected accepts a Close of 5; its set holds 5, the file still 7 only |
| Replication.Server.ApplyEntry | server_replication.go:351-376 | a WRITE replaces the file, any other operation changes nothing |
| Replication.Server.ApplyAllCommitted | server_replication.go:477-486 | the entries after lastApplied up to min(commitIndex, len(log)) are applied in order |
| Replication.Server.HandleAppendEntries | server_replication.go:434-474 | appends by index, persists what it appends, raises the commit index and applies |
| Replication.Server.ReplayLog | server_replication.go:259-271 | the log file is appended to the log and replayed, indices follow the highest index seen |
| Replication.Server.ApplyIncrement | server_replication.go:403-426 | log and success of the incremental update, persisted, nothing else changed |
| Replication.Server.ApplyFullSync | server_replication.go:383-402 | files overwritten, log and indices cleared, log file kept |
| Replication.LastContentMeaning | server_replication.go:354-369 | the last content of a file is that of the last entry that writes it, none exactly when no entry does |
| Replication.ReplayLookup | server_replication.go:354-369 | a replayed file holds the last content written to it, or what it held before |
| Replication.AnyRequestsConsistent | server_replication.go:434-486 | for any requests at all, files are the replay of the applied prefix, lastApplied is min(commitIndex, len(log)), and log and indices never go back |
| Replication.CommitIndexIsGreatest | server_replication.go:464-466 | for any requests the commit index is the greatest of its start and all commits received |
| Replication.AppendNewMeaning | server_replication.go:440-462 | a request appends only its own entries, each with an index beyond the end, and misses one only if its index was not |
| Replication.ApplyToEnd | server_basics.go:769-772 | committing the last entry applies everything beyond lastApplied and that entry decides its file, whatever failed Closes left in the log; with lastApplied at or beyond it no file changes |
| Replication.RecoveryIdempotent | server_replication.go:243-279 | after any applied prefix and any interrupted recoveries a recovery gives the files of one replay from the start |
| Replication.RecoveredIndices | server_replication.go:265-270 | recovery ends with both indices at the highest index of the log file, beyond its length exactly when some entry's index is |
| Replication.RecoveryCommitsWholeLog | server_replication.go:265-270 | on a dense log recovery ends with commitIndex = lastApplied = len(log) |
| Replication.LateBackupOvershoots | server_replication.go:434-474 | an empty backup sent one entry of index above 1 has, after a restart, lastApplied equal to that index and one log entry |
| Replication.FullSyncResult | server_replication.go:383-402 | log and indices are cleared, the log file is kept, every copied file holds the last of its copies and every other file is unchanged |
| Replication.FullSyncSurvivesRestartIff | server_replication.go:383-402 | synchronised files survive a restart exactly when the log file's last writes agree with them |
| Replication.RestartCanUndoFullSync | server_replication.go:383-402 | a backup synchronised to a newer text has the old one after a restart |
| Replication.CatchUpKeepsDense | server_replication.go:403-426 | position i keeps index i+1 for every list of entries |
| Replication.CatchUpIdempotent | server_replication.go:403-426 | receiving an update twice is receiving it once, gap or not |
| Replication.CatchUpKeepsPrefix | server_replication.go:403-426 | a leader's entries extend a prefix of its log only to a longer prefix |
| Replication.CatchUpStopsAtGap | server_replication.go:411-418 | a failing update keeps exactly what precedes its first gap |
| Replication.CatchUpReaches | server_replication.go:403-426 | a contiguous piece that meets the follower's log brings it level with the leader |
| Replication.AppendKeepsPrefixIff | server_replication.go:449-454 | appending a leader's entry keeps the log a prefix exactly when the entry skips no predecessor |
| Cluster.NextKeepsInv | server_replication.go:434-486 | every step, crash, crash inside recovery and restart keeps prefix logs, dense indices, replayed files and truthful acknowledgements |
| Cluster.EveryRunAgrees | server_basics.go:711-720 | logs are dense prefixes of the primary's and equal lastApplied means equal files, in every run |
| Cluster.DeliveryApplies | server_basics.go:774-779 | in every run a backup handed an entry with its commit applies it and all up to the greatest commit it knows; the file holds the entry's content unless a later applied entry writes it |
| Cluster.CloseCanCommit | server_basics.go:711-779 | a run on three servers in which a Close commits with one acknowledgement and is applied on the primary and that backup |
| Cluster.CommittedOnMajority | server_basics.go:726-771 | every entry that a Close ever committed stays at its position in the log files of len/2+1 servers, through all crashes and restarts |
| Cluster.SomeSurvivorHasCommitted | server_basics.go:746-771 | if at most half the servers are lost, those that are down included, a running server holds every entry ever committed |
| Cluster.CommitIndexOnMajority | server_basics.go:763-771 | from the start and again from every commit, until the primary next restarts, everything up to its commit index is on a majority |
| Cluster.PrimaryRestartKeepsQuorumIff | server_replication.go:265-270 | a restart of the primary keeps the majority property exactly when its last entry is on a majority |
| Cluster.PrimaryRestartCanBreakQuorum | server_replication.go:265-270 | a four-step run after which a committed entry is on one server of three |
| NoRepeatsAnywhere.NodeStaysClean | server_replication.go:354-369 | what any action leaves on a server holds no number twice |
| NoRepeatsAnywhere.EveryRunIsRepeatFree | server_basics.go:700-717 | with any number of primaries, loss, duplication, gaps, crashes and full syncs, no log, message or file ever holds a number twice |
| NoRepeatsAnywhere.NumbersTravel | server_replication.go:383-474 | a run in which the numbers of a Close reach a second server by replication and a third by full synchronisation |
| OneAtATime.CloseRefinesSteps | server_basics.go:671-807 | the steps of a Close that runs alone, committed or not, do to log, files, set and version what the whole call does |
| OneAtATime.CloseIsActions | server_basics.go:671-793 | every Close of a primary is a sequence of actions of the undisciplined servers |
| Leader.Follower.SendHeartbeat | server_replication.go:79-106 | refuses exactly a greater sender, otherwise adopts it, and marks the sender alive |
| Leader.LessIff | server_replication.go:93-105 | the order on IDs: a proper prefix, or smaller at the first difference |
| Leader.LeaderIsLeast | server_replication.go:93-105 | after any heartbeats the leader is the least of start and senders since the last empty ID |
| Leader.SameSendersSameLeaderIff | server_replication.go:93-105 | servers that hear the same senders, in any order and number, name the same leader exactly when they start alike or each start is unset or not below some sender |
| Leader.AliveIdsAre | server_replication.go:207-210 | the candidates are the IDs of the alive servers |
| Leader.ElectPrimary | server_replication.go:205-216 | if no alive server has an empty ID: the ID of an alive server below which no alive server has one, none when nobody is alive, for every iteration order |
| Leader.ElectionOrderFreeIff | server_replication.go:205-216 | the result is independent of the order exactly when no empty ID is alive beside another |
| ClientCache.Client.DropFromLRU | client_basics.go:624-629 | the first occurrence is spliced out, if any |
| ClientCache.Client.TouchLRU | client_basics.go:98-106 | the name moves to the end of the list |
| ClientCache.Client.EvictFromCache | client_basics.go:81-95 | removes the first evictable entry of the list from list and cache, or fails |
| ClientCache.Client.CreateFile | client_basics.go:158-219 | room is made first, then entry and list are updated on success |
| ClientCache.Client.OpenFile | client_basics.go:222-332 | dirty, stale, matching and missing entries as in the original, including its partial updates on failure |
| ClientCache.Client.ReadFile | client_basics.go:344-415 | a valid entry is read locally; otherwise the fetched text replaces the local copy; both touch the file |
| ClientCache.Client.WriteFile | client_basics.go:418-434 | the local copy becomes the data, the entry dirty, invalid and touched, unless in read mode |
| ClientCache.Client.AppendFile | client_basics.go:437-458 | the data follows the local copy, the entry becomes dirty, invalid and touched, unless in read mode |
| ClientCache.Client.CommitFile | client_basics.go:460-522 | the local copy of an open dirty file is sent; once accepted the file is clean with the new version |
| ClientCache.Client.CloseFile | client_basics.go:525-593 | succeeds exactly for a cached file when the server answers; the local copy of a dirty file is sent; once accepted the file is clean, closed, without descriptor, and touched |
| ClientCache.Client.DeleteFile | client_basics.go:596-631 | the entry goes unless dirty, the list follows once the server agreed |
| ClientCache.TouchedIsLast | client_basics.go:98-106 | in every run an operation reports a touch exactly when operation, answer and old entry make it one, and then its file is last in the list |
| ClientCache.EveryRunIsOrdered | client_basics.go:81-106 | after any run the list has no repeats, covers the cache and is ordered by last touch; at most 20 entries |
| ClientCache.RoomIff | client_basics.go:81-95 | room can be made exactly when there are less than 20 entries or one is closed, clean and without descriptor; below 20 nothing is evicted |
| ClientCache.RoomSpares | client_basics.go:87 | a file that is open, dirty or has a descriptor is never evicted |
| ClientCache.GrantedEntry | client_basics.go:202-331 | after an answered Create, or Open of a new or changed file, the entry has the answered version and descriptor, the mode, and an empty local copy |
| ClientCache.ReopenedEntry | client_basics.go:236-261 | after an Open of an unchanged file version and text stay, mode and descriptor are new |
| ClientCache.SettledEntry | client_basics.go:516-592 | an accepted Commit or Close leaves the answered version and no uncommitted text; a closed file has no descriptor |
| ClientCache.DeleteResult | client_basics.go:596-631 | refused for a dirty file; otherwise the entry goes, and the name leaves the list exactly when the server accepts |
| ClientCache.EvictsLeastRecentlyTouched | client_basics.go:81-95 | eviction fails exactly when nothing is evictable and otherwise removes the evictable file touched longest ago from cache and list, and nothing else |
| ClientCache.DirtyIsNeverValid | client_basics.go:222-332 | in every run a dirty file is invalid and not in read mode |
| ClientCache.UncommittedSurvivesIff | client_basics.go:344-434 | after any run, uncommitted text survives an operation on any file, evictions included, exactly when the operation neither settles the file nor reads or writes another text over it |
| ClientCache.SendsWrittenIff | client_basics.go:344-593 | through any operations that do not settle the file, a Close, or a Commit of an open file, sends what the user wrote exactly when each Read whose text no later write or Read replaced had fetched that very text |
| ClientCache.CleanIsNotSent | client_basics.go:468-470 | a file without uncommitted text is never sent |
| ClientCache.ReadDiscardsWrite | client_basics.go:344-434 | open for writing, write, read: the Close sends the fetched text |
| ClientCache.ReadsServerTextIff | client_basics.go:222-415 | for a file the user only reads, a Read returns the server's text exactly when the entry is invalid, a Read has fetched it since the local copy was truncated, or the text is empty |
| ClientCache.SecondOpenReadsNothing | client_basics.go:222-332 | Open, Close, Open, Read of an unchanged file returns the empty text |

## Left out

- Primality.IsPrime: does not characterise the accepted composites; one is given by `Pseudoprime.AcceptsComposite`, and exactness is proved below 361. Between the two it is known from the literature, not proved here.
- CommitPath.FileIsCommittedNumbers: is stated for Closes of one file and without a successful Delete or Create in between; with two files it fails as `SharedLog.RejectedCloseCanLeak` shows.
- Replication.Server.ApplyFullSync: is one atomic step, while the source unlocks between two files to rebuild a set (server_replication.go:396-398), and neither sets descriptor versions nor rebuilds the sets.
- Requests.PrimaryServer.RebuildAllPrimeSets: is one atomic step, while the source runs it beside other requests after a takeover.
- Requests.PrimaryServer.StartServer: ends with the election; the full synchronisation that a backup requests two seconds later is `Replication.Server.ApplyFullSync`, and the background routines are not modelled.
- `Cluster` has no full synchronisation, although every backup requests one two seconds after its start (connection.go:46-53), which clears its log and indices.
- The three answers a server that is not primary gives to a Close are one error, `NotLeader`.
- File effects of `Write` and `HandleWrite`; `Write` appears only in the version property.
- Index and commit index are unbounded integers; their truncation to 32 bits on the wire is not modelled.
- Corrupt lines in the log file, which recovery skips, and failing or torn file and log writes.
- Deletes in the log (they are not logged), `getOrCreateFileMeta` and entries whose condition variable is missing.
- "At most one primary": a heartbeat never changes the role and an election ignores logs, so it does not hold.
- The cleanup routines, which are never started, and the request cache's time limit: stored responses do not expire.
- Snapshots, gRPC transport, path sanitising, clocks, experiments and scripts; the leader redirection and retries inside client calls appear only as the final answer.
- UTF-8 decoding of file bytes: invalid bytes become a rune that no field with a number contains.
