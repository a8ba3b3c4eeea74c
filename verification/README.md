# Bat, verified

Bat watches servers and workstations: a probe samples a machine, a Cloudflare
worker stores what it sends, and a release script ships both. This project
models the parts of Bat whose correctness rests on an algorithm, and proves
what those parts are for. Each module follows one source component.

- `Coordinator`: the queue that serialises configuration changes. Every admitted
  request owns a chain of promises; a state records how far each promise has
  got, and an event is one turn of the event loop. The step relation does not
  say that requests run one at a time. Mutual exclusion, admission order,
  accounting and progress are proved of every interleaving, and the class
  `ConnectCoordinator` takes exactly these steps.
- `Lockfile`: the rewriter of workspace versions in `bun.lock`. A workspace block
  is defined by brace depth, independently of the scanner; the rewrite is shown
  to change the requested entries and nothing else, to leave the block structure
  alone, and to be undone by the rewrite back.
- `CiGate`: the polling loop that waits for CI before a tag. The environment's
  answers are data, so the results hold for every environment.
- `ProcStat` and `Processes`: the `/proc/[pid]/stat` parser against its printer,
  and the collector of the busiest processes over whole runs of cycles.
- `HostHash`: the FNV-1a hash behind opaque host ids, on 32-bit states.
- `Maintenance`: maintenance windows, which are intervals of a circle of 1440
  minutes, and their conversion between local time and UTC.
- `Workstations`: the strict validator of workstation reports. `Encode...` maps a
  typed report to the one JSON value that stands for it, and `Valid...` is the
  declarative condition; every reader returns `Success(v)` exactly when `v` is valid
  and the input is its encoding.
- `Tier2`: the scheduler of the half-hourly collection and the six-hourly deep
  disk scan, as a step system of the ticker loop and the tasks it spawns.
- `Prune`: the plan that deletes old probe releases, and the run that carries it
  out and checks it again.
- `Network`: deltas and rates of 64-bit counters that wrap, over runs of samples.
- `Percentile`: the nearest-rank percentile and the round-trip statistics.
- `Versions`: the two version comparisons and the version bump.
- `Text`, `Sorting`, `Values`: shared text functions, the stable library sort
  and the order of strings, and shared datatypes.

Clocks, listings, exit codes and files read are parameters or events, so a
result about every run is a result about every environment.

## Where the code differs from what it says or suggests

- The lockfile rewrite is documented to preserve everything else bytewise. The
  code also normalises the spacing of the version line it rewrites, so rewriting
  to a new version and back restores the text exactly when those lines were
  canonical (`Lockfile.TextRoundTrip` is an equivalence).
  `Lockfile.SpacedTextIsNotRestored` is a text, accepted for all versions, that
  does not come back.
- CPU ticks and major faults are conserved over any stretch of cycles that scan a process. I/O
  bytes are not: a process outside the top 50, or one whose I/O file could not be
  read, leaves a zero baseline. `Processes.IoRateIsTrue` gives the exact condition
  under which the next cycle reports the true rates, and
  `Processes.IoIsCountedTwice` two cycles that fail it.
- A tier-2 task that panics leaves the running flag raised
  (`Tier2.PanicLeavesTheFlag`). No collection is spawned again until the probe
  restarts (`Tier2.PanicStopsCollections`).
- `last` in the round-trip statistics is the latest non-null sample even when
  that sample is not a finite number (`Percentile.LastMayBeNonFinite`); the other
  numbers ignore such samples. `Percentile.ComputeRttStats` says exactly when.

The stat parser looks for the last closing parenthesis of the line. No line the
kernel writes has one after the command name; `ProcStat.ParseUndoesPrint` shows
that this is all the parser relies on.

## Model

| member | source | states |
|---|---|---|
| Coordinator.StepKeepsInv | packages/worker/src/entry.ts:36-85 | Every turn of the event loop keeps the invariant: the first `done` requests have released the queue, at most one more has begun, `pending` counts the rest, and no link of the promise chain is rejected |
| Coordinator.RunShape | packages/worker/src/entry.ts:45-83 | In every interleaving turns begin in admission order and each admitted request decrements `pending` exactly once, in that order |
| Coordinator.PendingCountsUnreleased | packages/worker/src/entry.ts:37-44 | `pending` is the number of admitted requests not yet released, is never negative and never above 32; admission is decided by that number alone |
| Coordinator.AtMostOneActive | packages/worker/src/entry.ts:45-82 | Of two admitted requests at most one is executing or draining, and the later one only begins after the earlier one's tail promise was fulfilled |
| Coordinator.OwedIsWatched | packages/worker/src/entry.ts:56-60 | A task registered before its handler returns, or before its drain begins, is among those the drain waits for |
| Coordinator.StartWaitsForEarlier | packages/worker/src/entry.ts:45-82 | When a turn begins every earlier request has released the queue, and all tasks a returning earlier handler had registered by then have settled |
| Coordinator.ExpiredNeverRuns | packages/worker/src/entry.ts:47-55 | A request whose turn begins more than the limit after admission gets the timeout answer and its handler never runs; every other one runs |
| Coordinator.WorkIsBounded | packages/worker/src/entry.ts:45-82 | In any run from any state the coordinator's own turns use up a measure that only an admission raises, by five |
| Coordinator.FiveTurnsPerAdmission | packages/worker/src/entry.ts:45-82 | So from the start on it takes at most five turns per admission |
| Coordinator.QueueDrains | packages/worker/src/entry.ts:73-82 | From every reachable state there is a run without arrivals that brings `pending` to zero |
| Coordinator.RestIsDrained | packages/worker/src/entry.ts:73-82 | Every run at rest has drained: when no turn of the coordinator is enabled and the tasks waited for have settled, `pending` is zero |
| Coordinator.FailureReleasesAtOnce | packages/worker/src/entry.ts:73-82 | A rejecting handler releases the queue in two turns whatever its tasks do, and leaves a fulfilled tail |
| Coordinator.ConnectCoordinator.Fetch | packages/worker/src/entry.ts:36-45 | Admission takes the arrival step: it answers busy and changes nothing exactly when 32 are pending |
| Coordinator.ConnectCoordinator.RunTurn | packages/worker/src/entry.ts:45-70 | The queued callback takes the start step: it expires exactly past the limit, and all earlier requests are released |
| Coordinator.ConnectCoordinator.WaitUntil | packages/worker/src/entry.ts:57-60 | Registering a task takes the register step |
| Coordinator.ConnectCoordinator.HandlerSettles | packages/worker/src/entry.ts:66-72 | The handler's return or rejection takes its step and fixes the reply |
| Coordinator.ConnectCoordinator.BeginDrain | packages/worker/src/entry.ts:74-79 | Draining starts with the tasks registered so far; a rejection is swallowed |
| Coordinator.ConnectCoordinator.TaskSettles | packages/worker/src/entry.ts:57-60 | The settling of a background task takes its step |
| Coordinator.ConnectCoordinator.AllSettled | packages/worker/src/entry.ts:75-77 | The drain ends, fulfilled, once every task it waits for has settled |
| Coordinator.ConnectCoordinator.Release | packages/worker/src/entry.ts:80-82 | The final callback takes the release step and decrements `pending` once |
| Lockfile.OpenKeyMeaning | scripts/release.ts:294-306 | For every line and key: the line opens that key exactly when it is white space, the key in quotes as a run of ordinary characters and escape pairs, a colon and an opening brace, with any white space between and around |
| Lockfile.LineDeltaMeaning | scripts/release.ts:280-291 | Every line can be read as string literals and other characters, and in every such reading the count is the number of opening minus closing braces outside the literals |
| Lockfile.BraceDepthDelta | scripts/release.ts:280-291 | The in-place count is the brace count of the line, whose meaning `LineDeltaMeaning` states |
| Lockfile.FindWorkspaceBlocks | scripts/release.ts:293-322 | The scan finds exactly the blocks of the declarative definition, and fails exactly when no line opens the workspaces section |
| Lockfile.BlockMapIsUnique | scripts/release.ts:293-322 | The section and its blocks are determined by the text |
| Lockfile.BlocksAreDisjoint | scripts/release.ts:300-319 | Blocks of different workspaces do not overlap |
| Lockfile.FindDirectMeaning | scripts/release.ts:346-362 | The version line found is the first match at depth 1 of its block; when none is found there is none |
| Lockfile.SyncMeaning | scripts/release.ts:340-378 | The rewrite succeeds exactly when every requested workspace exists with the expected version (the root may lack one), and then changes exactly those entries and no line count |
| Lockfile.EditKeepsBlocks | scripts/release.ts:280-322 | A rewrite of version lines leaves every block where it was |
| Lockfile.RenderMatches | scripts/release.ts:371-376 | A rewritten line is matched again, with the same indentation and comma and the new version |
| Lockfile.TextMeaning | scripts/release.ts:330-381 | A successful call keeps the number of lines, rewrites every requested version entry of the text and changes no other line |
| Lockfile.UpdatedMeaning | scripts/release.ts:364-377 | The names returned are exactly those of the requested workspaces that have a version entry, the root one shown as (root) |
| Lockfile.RoundTrip | scripts/release.ts:330-381 | Rewriting to the new version and back succeeds, with the same blocks, and restores every line exactly when the entries were canonical |
| Lockfile.TextRoundTrip | scripts/release.ts:330-381 | The same for the whole text: same number of lines, and the original text comes back if and only if its entries were canonical |
| Lockfile.SpacedTextIsNotRestored | scripts/release.ts:324-381 | For all versions, a text whose version line has a blank before the colon is accepted and does not come back from the way back |
| Lockfile.SyncBunLockWorkspaceVersions | scripts/release.ts:330-381 | The exported function returns or throws what the specification says, for every text, including the error of the first failing workspace |
| Lockfile.SyncLines | scripts/release.ts:340-378 | The loop over workspaces stops at the first failure and otherwise accumulates the edits |
| CiGate.WaitForCiSuccess | scripts/release.ts:648-713 | Returns a run exactly when a listing obtained before the deadline registers a matching run and its re-verified view is a completed success of the exact sha on main, by push, of workflow CI; each failure is returned exactly for its own bad answer, and with an advancing clock the list calls are bounded |
| CiGate.IdentityMeaning | scripts/release.ts:629-640 | A run is matched exactly when its head is the sha, its branch main, its event push and its workflow CI |
| CiGate.ListCallsAreBounded | scripts/release.ts:657-689 | With a clock that does not go back and sleeps of `pollMs` there are at most ceil(registrationMs / pollMs) + 1 list calls |
| CiGate.GateDecides | scripts/release.ts:657-689 | So an environment that answers that many calls gets a verdict |
| ProcStat.ParseUndoesPrint | probe/src/collectors/top_processes.rs:80-117 | Parsing a printed stat line gives back pid, command name and fields for every command name, exactly when no field contains a closing parenthesis |
| ProcStat.ParseUndoesPrintOfRecord | probe/src/collectors/top_processes.rs:99-116 | Printing a record with its numbers at their stat positions and parsing it gives back that record, for every record the kernel's types can hold |
| ProcStat.NumbersParse | probe/src/collectors/top_processes.rs:98-116 | A numeral in a field is read back exactly when the field's integer type can hold it |
| ProcStat.PlusParses | probe/src/collectors/top_processes.rs:99-116 | A numeral behind a plus sign is read like the numeral alone |
| ProcStat.GarbageFields | probe/src/collectors/top_processes.rs:99-116 | Fields that are no numbers are read as zero, and an unreadable processor as -1 |
| Processes.TopProcesses.Collect | probe/src/collectors/top_processes.rs:394-497 | One cycle of the collector: its snapshots and the new state map are the specified functions of the old map and what was read |
| Processes.SnapshotMeaning | probe/src/collectors/top_processes.rs:250-332 | Of every snapshot, in terms of the stat read for its pid: the resident memory is the page count times the page size, or zero when not positive, and its percentage that share of the total; start time and uptime add up to now; the command is the text of its file or the name; user, fault rate and the copied fields likewise |
| Processes.TopNIsCorrect | probe/src/collectors/top_processes.rs:407-496 | The result has min(50, n) entries in non-increasing rank, nothing left out ranks above a listed entry, and each shows the percentage it was ranked by |
| Processes.NextStatesMeaning | probe/src/collectors/top_processes.rs:441-494 | The new map's keys are exactly the processes scanned, with current ticks, start time and faults; only a listed process keeps an I/O baseline |
| Processes.DeltaMeaning | probe/src/collectors/top_processes.rs:410-427 | A delta of ticks or of faults is used exactly when the cycle before scanned the same pid with the same start time, in or out of the top 50, and it is the difference of the two readings |
| Processes.PctIsDelta | probe/src/collectors/top_processes.rs:221-232 | The percentage times the elapsed jiffies is that delta times the number of processors times 100; it is zero when no jiffy elapsed |
| Processes.CountersAreConserved | probe/src/collectors/top_processes.rs:410-494 | Over any stretch of cycles that scan one process the deltas of a counter sum to at least last minus first, and to exactly that if and only if the counter never went back |
| Processes.TicksAreConserved | probe/src/collectors/top_processes.rs:410-494 | The same of user plus system ticks |
| Processes.FaultsAreConserved | probe/src/collectors/top_processes.rs:283-291 | The same of major page faults |
| Processes.IoDeltaIsTrue | probe/src/collectors/top_processes.rs:335-343 | A delta of read or written bytes against the baseline left by a cycle is true exactly when the process was listed with a readable file in that cycle, or had moved no byte |
| Processes.IoRateIsTrue | probe/src/collectors/top_processes.rs:293-299 | In the next cycle's snapshot the I/O rates are present exactly for the same process with a readable file and a positive time, and then are the true rates exactly under that condition |
| Processes.IoIsCountedTwice | probe/src/collectors/top_processes.rs:441-456 | Two cycles whose baseline makes the next cycle count ten bytes again: the 51st process, and an unreadable file |
| HostHash.HashHostId | packages/shared/src/api.ts:14-21 | The loop computes the fold of the mixing step over the UTF-16 units, printed as eight digits |
| HostHash.KnownHashes | packages/shared/src/api.ts:14-21 | The hash of the empty id and of one letter, as FNV-1a gives them |
| HostHash.PrimeIsInvertible | packages/shared/src/api.ts:18 | Multiplication by the FNV prime modulo 2^32 is undone by its inverse |
| HostHash.FoldIsBijective | packages/shared/src/api.ts:16-19 | Hashing a fixed suffix is a bijection on 32-bit states |
| HostHash.StepSeparatesUnits | packages/shared/src/api.ts:17-18 | From one state two different units lead to two different states |
| HostHash.PrintIsInjective | packages/shared/src/api.ts:20 | The padded print has eight digits and determines the state |
| HostHash.OneUnitChangesTheHash | packages/shared/src/api.ts:14-21 | Changing one unit of a host id, with any prefix and suffix, always changes the hash |
| Maintenance.ValidTimes | packages/shared/src/maintenance.ts:8-16 | The validator accepts exactly the zero-padded 24-hour times, and the parser of the user interface accepts the same |
| Maintenance.LessIsMinuteOrder | packages/shared/src/maintenance.ts:30-35 | String order of valid times is the order of their minutes |
| Maintenance.WindowIsCircular | packages/shared/src/maintenance.ts:29-36 | Same-day, cross-midnight and full-day windows are one interval of the circle of minutes |
| Maintenance.ShiftKeepsWindow | packages/ui/src/lib/maintenance.ts:30-39 | Membership is the same before and after all three times are shifted by any offset |
| Maintenance.LocalToUtcAndBack | packages/ui/src/lib/maintenance.ts:42-44 | Converting to UTC and back gives back every string, valid or not |
| Maintenance.UtcToLocalAndBack | packages/ui/src/lib/maintenance.ts:30-44 | Converting to local time and back gives back every string |
| Maintenance.NormalizedIsModulo | packages/ui/src/lib/maintenance.ts:37 | The double remainder of JavaScript is the mathematical modulus |
| Maintenance.ClockOfUnixTime | packages/shared/src/maintenance.ts:42-47 | The formatted clock is the minute of the day of the timestamp, also before 1970 |
| Maintenance.WindowSizeIsExact | packages/shared/src/maintenance.ts:29-47 | Of any 1440 consecutive minutes of Unix time exactly (end - start) mod 1440 are in the window, all of them when start equals end |
| Workstations.ReadObject | packages/shared/src/workstations.ts:301-316 | Accepts exactly the objects whose keys are allowed |
| Workstations.ReadString | packages/shared/src/workstations.ts:328-342 | Accepts exactly the non-blank strings of at most so many UTF-16 units |
| Workstations.Utf16Adds | packages/shared/src/workstations.ts:335 | The length counted is two for a character above U+FFFF and one for any other, and adds up |
| Workstations.ReadInteger | packages/shared/src/workstations.ts:359-372 | Accepts exactly the finite integers of the range |
| Workstations.ReadDisk | packages/shared/src/workstations.ts:666-709 | Accepts exactly the encodings of disks with available at most total |
| Workstations.ReadAddress | packages/shared/src/workstations.ts:711-734 | Accepts exactly the encodings of literals that match their family |
| Workstations.ReadInterface | packages/shared/src/workstations.ts:736-766 | Accepts exactly the encodings of valid interfaces, with all their addresses in order |
| Workstations.ReadRtts | packages/shared/src/workstations.ts:768-792 | Accepts exactly three entries, each null or in range |
| Workstations.AnsweredMeaning | packages/shared/src/workstations.ts:838 | The number of answers is the number of entries of the encoded array that are not null |
| Workstations.ReadConnectivity | packages/shared/src/workstations.ts:794-879 | Accepts exactly the encodings whose received count is the number of recorded round trips and whose status agrees with it |
| Workstations.ReadDistinct | packages/shared/src/workstations.ts:1032-1046 | The loop with its set of seen servers accepts exactly the arrays whose items are accepted and whose keys are distinct |
| Workstations.ReadHead | packages/shared/src/workstations.ts:885-941 | Accepts exactly the scalar members within bounds, with the run at most 120 s long and finished within 300 s of receipt |
| Workstations.ReadWorkstationReport | packages/shared/src/workstations.ts:881-1099 | Accepts exactly the members of a valid report and returns that report |
| Workstations.ValidateWorkstationReport | packages/shared/src/workstations.ts:1105-1114 | For every JSON value and receipt time: accepts v exactly when v is valid and the value is its encoding |
| Workstations.ValidateTwice | packages/shared/src/workstations.ts:1105-1114 | Validating the accepted report again at the same time accepts it unchanged |
| Tier2.StepKeepsFlag | probe/src/main.rs:216-229 | Every step keeps all tasks but the newest finished, and the flag raised until the newest has finished |
| Tier2.AtMostOneCollection | probe/src/main.rs:132-134 | In every run at most one collection is live, and the flag is raised exactly while one is, unless a task panicked |
| Tier2.FirstCollectionIsDeep | probe/src/main.rs:136-153 | The first collection includes the deep disk scan |
| Tier2.SpawnsExactlyWhenDue | probe/src/main.rs:216-228 | From the events alone: a collection is spawned exactly by a check made half an hour or more after the last due check reset the timer, or after the loop began, with no task live and none panicked |
| Tier2.SkipCostsHalfAnHour | probe/src/main.rs:216-228 | A due check resets the timer even when it is skipped: for half an hour after it nothing is spawned |
| Tier2.TimerIsLastReset | probe/src/main.rs:228 | In every run the timer is the reset of the last due check |
| Tier2.DeepExactlyWhenDue | probe/src/main.rs:267-276 | A task decides for the deep scan exactly when no scan has been completed yet or six hours have passed since the last completion |
| Tier2.ScansWait | probe/src/main.rs:267-276 | Every later deep scan starts at least six hours after the previous one's recorded completion |
| Tier2.ScansPerSpan | probe/src/main.rs:267-276 | Any span T holds at most T / 6h + 1 starts of a deep scan |
| Tier2.CountInAdds | probe/src/main.rs:267-276 | The count of starts in a span adds up, and counts an instant exactly when it lies between its ends |
| Tier2.CollectionsArePaced | probe/src/main.rs:216-229 | The number of collections after the first is at most the elapsed time divided by half an hour |
| Tier2.PanicLeavesTheFlag | probe/src/main.rs:267-278 | A run of two steps after which the flag is raised and nothing is live |
| Tier2.PanicStopsCollections | probe/src/main.rs:260-279 | After a panic no later run spawns a collection or starts a scan |
| Tier2.Scheduler.CheckTier2 | probe/src/main.rs:215-229 | A check takes the specified step; it spawns exactly when half an hour has passed and every earlier task has finished |
| Tier2.Scheduler.BeginTask | probe/src/main.rs:267-269 | A task includes the deep scan exactly when six hours have passed since the last recorded completion |
| Tier2.Scheduler.ScanDisk | probe/src/main.rs:549-556 | The start of a deep scan, which a collection that decided for it makes once, takes its step |
| Tier2.Scheduler.EndTask | probe/src/main.rs:270-277 | The end of a task records a deep scan's completion and only then lowers the flag |
| Prune.CleanupPlan | scripts/prune-probe-releases.py:51-79 | Plans exactly when the inventory is acceptable, and then returns its plan with the release first; each refusal names the first check that fails |
| Prune.FileKeyVersion | scripts/prune-probe-releases.py:15-21 | A file's key carries a version exactly when its directory is a canonical three-part version |
| Prune.VersionOfMeaning | scripts/prune-probe-releases.py:15 | A key has version v exactly when v is a canonical version and the key is its directory with a non-empty rest on one line |
| Prune.ReleaseVersionMeaning | scripts/prune-probe-releases.py:15 | The canonical versions are exactly the printed triples |
| Prune.OlderIsBelow | scripts/prune-probe-releases.py:58 | One release sorts below another exactly when the semver comparison is negative, and exactly when its first different component is smaller |
| Prune.RankTellsApart | scripts/prune-probe-releases.py:58 | Two version directories that sort the same are the same |
| Prune.PlanIsUnique | scripts/prune-probe-releases.py:58-79 | An inventory has at most one plan, whatever the order of the listing |
| Prune.KeepIsNewestThree | scripts/prune-probe-releases.py:58-59 | The plan keeps three versions, or all when fewer exist, newest first, and every other version is below each of them |
| Prune.NewestMeaning | scripts/prune-probe-releases.py:60 | The release is accepted as newest exactly when it is uploaded and every other version is below it |
| Prune.AcceptableMeaning | scripts/prune-probe-releases.py:60-79 | An inventory is acceptable exactly when the release is the newest, the four files of every kept version are stored, those under latest/ are the same objects as the release's, and every key to be deleted has a size |
| Prune.DeleteIsTheRest | scripts/prune-probe-releases.py:73-77 | The plan deletes exactly the versioned keys of the versions not kept, and removes exactly the versions of those keys |
| Prune.DeletesOnlyOldVersions | scripts/prune-probe-releases.py:73 | A planned key belongs to a version that semver comparison puts below every kept one; unversioned keys and keys under latest/ are never planned |
| Prune.SizesAdd | scripts/prune-probe-releases.py:78 | The size of a plan adds up over its keys |
| Prune.IndexMeaning | scripts/prune-probe-releases.py:52 | Of several listed objects with one key the last counts |
| Sorting.StringLeqMeaning | scripts/prune-probe-releases.py:73 | Keys are ordered ascending: by prefix, or by the first different character |
| Prune.Resumable | scripts/prune-probe-releases.py:95-102 | After any subset of the planned deletes, planning again succeeds, keeps the same releases and deletes exactly the rest, in the same order |
| Prune.PruneReleases | scripts/prune-probe-releases.py:82-103 | A run deletes only obsolete keys, nothing on a dry run; it ends verified only when nothing obsolete is left, and does so whenever nobody else changed the store and no delete failed |
| Network.DeltaIsAdvance | probe/src/rate.rs:19-26 | The delta of two wrapped readings is the true advance modulo 2^64, so it is the true advance exactly when that is below 2^64 |
| Network.ComputeNetMetrics | probe/src/collectors/network.rs:74-115 | Exactly one entry per interface that both samples have, in the order of the names |
| Network.MetricsAreDetermined | probe/src/collectors/network.rs:74-115 | The result does not depend on the iteration order of the hash map |
| Network.RatesWithoutTime | probe/src/rate.rs:7-16 | Without elapsed time all rates are zero |
| Network.NetCollector.CollectMetrics | probe/src/main.rs:348-352 | A cycle reports against the previous sample, which is replaced even by a failed reading |
| Network.TrafficIsConserved | probe/src/main.rs:348-352 | Over any stretch of samples that show an interface, what is reported of each counter never exceeds its true advance, and adds up to it exactly when no two samples are a full lap of 2^64 apart |
| Percentile.PercentileIsNearestRank | packages/ui/src/lib/workstation-detail.ts:33-43 | The percentile is the one sample value with at least k values at most it and fewer than k below it, for the rank k of the fraction; it is null exactly without finite values |
| Percentile.RankIsCeiling | packages/ui/src/lib/workstation-detail.ts:41-42 | For a fraction in (0, 1] the rank is the least integer that is at least fraction * n; outside it is clamped to 1 or n |
| Percentile.FiniteValuesMeaning | packages/ui/src/lib/workstation-detail.ts:34 | The values ranked are exactly the finite ones, in order |
| Percentile.PercentileIsMonotone | packages/ui/src/lib/workstation-detail.ts:33-43 | A larger fraction never gives a smaller percentile |
| Percentile.LatestRtt | packages/ui/src/lib/workstation-detail.ts:79-86 | The loop finds the latest non-null sample, of equally late ones the last |
| Percentile.AnswersMeaning | packages/ui/src/lib/workstation-detail.ts:72-74 | The samples summarised are exactly the finite round-trip times, in order |
| Percentile.TotalAdds | packages/ui/src/lib/workstation-detail.ts:78 | The total behind the average adds up over its samples |
| Percentile.LastMayBeNonFinite | packages/ui/src/lib/workstation-detail.ts:79-86 | Two samples of which the latest is not finite although one answered |
| Percentile.ComputeRttStats | packages/ui/src/lib/workstation-detail.ts:68-97 | The summary satisfies min <= p50 <= p95 <= max and min <= avg <= max, each number is what its name says, and `last` is finite exactly when the latest non-null sample is |
| Versions.CompareVersions | packages/cli/src/lib/registry.ts:75-91 | The scan with early return computes the comparison of the parsed component lists |
| Versions.ComponentsOfNumerals | packages/cli/src/lib/registry.ts:76-82 | The components of dotted numerals are their values, with or without a leading v and a suffix behind a dash |
| Versions.CutMeaning | packages/cli/src/lib/registry.ts:79 | The version is cut at the first dash with no line end behind it, and kept whole when there is none |
| Versions.ParseIntMeaning | packages/cli/src/lib/registry.ts:80-82 | A component is read as the digits behind optional white space and sign, and as 0 when there are none |
| Versions.CompareMeaning | packages/cli/src/lib/registry.ts:84-90 | The sign is that of the first difference; zero means equal up to trailing zeros |
| Versions.MissingIsZero | packages/cli/src/lib/registry.ts:85 | A component that one version has and the other lacks is compared with zero |
| Versions.CompareIsTotalPreorder | packages/cli/src/lib/registry.ts:84-90 | The comparison is antisymmetric and transitive on component lists of any length |
| Versions.ComparisonsAgree | scripts/release.ts:166-176 | On three-part versions both comparisons return the same number |
| Versions.BumpIncreases | scripts/release.ts:178-204 | A bump succeeds exactly on valid input, and its result is greater under both comparisons |
| Versions.BumpIsLeast | scripts/release.ts:193-204 | A patch bump is the least version above the current one, a minor bump the least whose patch is 0, a major bump the least whose minor and patch are 0 |
| Versions.BumpOutcomes | scripts/release.ts:178-191 | An explicit version is returned as given; each failure has exactly its cause |
| Versions.SemverMeaning | scripts/release.ts:158-164 | A version is accepted exactly when it is three dotted decimal numerals, and is read as their values |

## Left out

- Network, shell, file and `/proc` access, D1, KV and Cloudflare: their answers are parameters or events.
- Scheduling inside the runtimes: promises and tasks take their steps in any order that the languages allow.
- Floating point: rates, percentages, averages and percentiles are exact real numbers, so rounding, overflow to infinity, NaN and negative zero are not modelled, except that JSON numbers and round-trip times may be non-finite.
- Integers beyond 2^53 lose precision in JavaScript; the model's integers are exact.
- Strings are sequences of Unicode characters: lone surrogates, and JavaScript's order of characters above U+FFFF, are not modelled. Host ids are sequences of UTF-16 units.
- Python's `\d` also matches non-ASCII digits and its `int` reads them; version keys are read with ASCII digits here.
- UUID, IPv4 and IPv6 literal checks of the validator are uninterpreted functions; the results hold for any choice of them.
- Texts of error messages: a field name and a kind of problem stand for them. The name of an unsupported key or of the interface is not part of the field.
- Objects in an R2 listing have a key; their size and etag, when present, are a number and a string. Paging of the listing is not modelled.
- `parse_cmdline`, `parse_proc_io` and `parse_passwd`: their results are inputs of the collector.
- The sum of user and system ticks does not overflow 64 bits here.
- Field-by-field converters and payload types: copying only.
- React components, charts and formatters: presentation.
- Cryptography, tokens, login and origin checks.
- Git, tagging, changelog and stale-version scanning of the release script; the choice of the run's identifier on the `gh` command line.
- Bounded retry loops of the sender, the uploader and the updater: they would only add short claims.
- Workstations.ValidateWorkstationReport: says exactly when a report is refused, not which of several failing checks the refusal names.
- Versions.CompareVersions: the contract ties the loop to a function; what that function means is stated by the lemmas beside it.
- Coordinator.QueueDrains: the drain lets handlers return and tasks settle, which the code cannot enforce.
- Network.TrafficIsConserved: a rate reports nothing when no time has passed between two samples, so a stretch has positive elapsed times for the four rates.
- Processes.CountersAreConserved: assumes that a stat file names its own directory and that a pid is listed once per cycle, as the kernel guarantees.
