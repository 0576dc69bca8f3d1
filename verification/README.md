# Verified model of Holonight Packages' update machinery

Holonight Packages watches an Arch Linux system for pending updates. A background service checks the repositories on a
schedule, publishes what it finds together with copies of the repository databases it verified, and a monitor keeps
one displayed status current while files change underneath it. This project models the parts of it that decide
something and hold state, in Dafny 4.11, and proves what they promise over every input, every run and every
interleaving. `dafny verify dfyconfig.toml` checks everything.

| files | what they model |
|---|---|
| `Domain.dfy` | the records the components exchange; decimal digits; the order of byte strings |
| `SnapshotJson.dfy` | the snapshot and the check history as JSON values, with IEEE doubles rounded as the program rounds them |
| `Catalog.dfy`, `Publication.dfy`, `CatalogLock.dfy`, `CatalogLease.dfy` | the published snapshot with its retained databases: reading it, publishing it step by step with a failure or a crash anywhere, and the lease between readers and the writer |
| `Policy.dfy` | intervals, jitter, backoff and the configured interval, without overflow |
| `CheckProtocol.dfy`, `CheckProperties.dfy`, `CheckRate.dfy`, `CheckObjects.dfy` | the check service and its scheduler: the protocol, what every run keeps, how often it can fail, and the two objects that follow it |
| `ServiceStore.dfy` | the service, its store and the directory together: what is loaded after any run, with failed saves, crashes and restarts |
| `Monitor.dfy`, `UpdateOrder.dfy` | the displayed status, the update monitor's protocol and the monitor object; the order of the listed updates |
| `PacmanText.dfy`, `SigLevels.dfy`, `PacmanConf.dfy`, `PacmanMeaning.dfy`, `PacmanParser.dfy`, `PacmanRepositories.dfy` | the configuration parser, what a configuration means, and the signature levels |
| `DoubleRead.dfy` | reads checked twice: the cached libalpm connection and the private copy of the databases a check works on |
| `Scratch.dfy` | the scratch directory of the checks: removal that follows no link, and checks that run at once |
| `RepositorySelection.dfy`, `PendingUpdates.dfy` | which database each repository is evaluated with, and the updates found |
| `Search.dfy` | the ranked package search |

Objects whose methods update fields are classes here (`SnapshotStore`, `CatalogLock`, `UpdateCheckService`,
`UpdateCheckScheduler`, `UpdateMonitor`, `Parser`, `AlpmConnectionCache`, `FileSystem`), and loops are loops. The
service, the scheduler, the monitor and the parser have an abstract state, and each of their methods is proved to take
it where a specification function says; the theorems are about those functions. The store, the cache and the file
system say in their contracts what every state they pass through keeps. What runs at the same time is a machine whose
steps interleave: readers and the writer of the catalog, checks in the scratch directory, the monitor and the files it
watches. Signals are synchronous calls, so an observer that calls back is a script of requests made in the middle of a
method, and every theorem about the service holds for every script.

## Conventions

- SHA-256 is injective: a digest is the content it stands for, and a sidecar is keyed by the bytes it is named after.
- A file's modification time never returns to an earlier value after a change.
- Operations fail nondeterministically, and a ghost flag records that one did, so that contracts can say what happens
  when none does. A crash leaves one of the states that a method records in its trace.
- A time point is a signed 64-bit count of nanoseconds; seconds are cut towards zero.
- Case folding, globbing, the version comparison and the ignore rules are functions of their inputs.

## Where the code and its promises differ

- Reclamation opens the sidecar again to learn which generation is in use, and takes a failed open for "none". Then
  the catalog just published is removed, although the snapshot stays: `Publication.ReclamationKeepsCatalogIffOpened`
  says that the catalog survives exactly when that open succeeds.
- The catalog of published bytes is meant to be immutable. A save of the very bytes that are published compares the
  catalogs first, but not if the published file cannot be opened then: it commits its own catalog under their name, and
  if the rename fails, the failed check has given the old snapshot new repositories.
  `ServiceStore.FailedSaveReplacesCatalog` is that run, and `Publication.SaveEnds` says that it is the only way a failed
  save changes what is loaded.
- A publication without repositories takes the lease only if it finds the lock file, and takes an error of that test
  for "none": `CatalogLease.FailedLookBreaksLease` says that while a catalog is leased it can start without a lease
  exactly if the test fails, and that it then removes what is leased.
- Sizes are stored as doubles. 2^53 + 1 is stored and read back as 2^53: `SnapshotJson.FirstSizeLost`. A snapshot
  round-trips exactly when it is `Storable`: `SnapshotJson.RoundTrip`.
- The writer does not check the reader's limits on file size, identity length or times before it publishes:
  `Publication.NewCatalogShownIff` gives the exact condition.
- Server addresses are substituted in two passes, so a repository whose name runs into `$arch` has part of its own
  name replaced: `PacmanText.SubstitutionFillsIn` gives the exact condition.
- `resolveCheckInterval` accepts any all-digit text, however long. A number beyond 64 bits with a leading vertical tab
  or form feed is rejected although a smaller one with the same prefix is read; `Policy.ConfiguredMinutes` has the
  exact rule and `Policy.ResolveCheckInterval` is proved against it.

## Model

| member | source | states |
|---|---|---|
| SnapshotJson.Serialize | src/persistence/src/json_update_snapshot_store.cpp:63-88 | the document holds one row per update in order and the count of the rows not ignored |
| SnapshotJson.Parse | src/persistence/src/json_update_snapshot_store.cpp:112-166 | accepts exactly the complete version 1 documents whose count is the number of rows not ignored, and yields their snapshot |
| SnapshotJson.ParseRows | src/persistence/src/json_update_snapshot_store.cpp:139-161 | all rows or nothing, with the number of rows not ignored |
| SnapshotJson.NearestExact | src/persistence/src/json_update_snapshot_store.cpp:72-73 | a whole number of at most 2^53 is its own nearest double, and one above stays above or becomes 2^53 |
| SnapshotJson.IntegralOfDouble | src/persistence/src/json_update_snapshot_store.cpp:90-100 | what the integer check makes of every stored number: itself within the bounds, 2^53 for 2^53 + 1 and the same below zero, else a rejection |
| SnapshotJson.RoundTrip | src/persistence/src/json_update_snapshot_store.cpp:63-166 | parsing a serialized snapshot gives it back, cut to seconds, exactly when times and sizes are storable |
| SnapshotJson.FirstSizeLost | src/persistence/src/json_update_snapshot_store.cpp:95 | the first size that passes the check and comes back different |
| SnapshotJson.ReadingIsStable | src/persistence/src/json_update_snapshot_store.cpp:112-166 | whatever document is accepted, its count is the number of its rows not ignored, and its snapshot survives being saved and read again |
| SnapshotJson.LoadHistory | src/persistence/src/json_update_snapshot_store.cpp:368-400 | the saved result of the last check, or none for any document that is not consistent |
| SnapshotJson.HistoryRoundTrip | src/persistence/src/json_update_snapshot_store.cpp:368-427 | a history comes back, cut to seconds, exactly when its time is in range and an error is present on failure only |
| SnapshotJson.LoadedHistoryIsConsistent | src/persistence/src/json_update_snapshot_store.cpp:389-398 | a history that is read has an error exactly if the check failed |
| SnapshotJson.TimestampRoundTrip | src/persistence/src/json_update_snapshot_store.cpp:173-187 | a repository timestamp survives to the nanosecond exactly when it is not negative |
| SnapshotJson.TimestampIsCanonical | src/persistence/src/json_update_snapshot_store.cpp:178-186 | only the canonical decimal text whose seconds agree is read as a timestamp |
| Catalog.ReadRows | src/persistence/src/json_update_snapshot_store.cpp:210-245 | the loop over the sidecar's rows yields every entry in order, or nothing as soon as one fails a check |
| Catalog.LoadedIsHeld | src/persistence/src/json_update_snapshot_store.cpp:225-242 | every database of a loaded catalog is on disk with the recorded digest |
| Catalog.RetainedReadsBack | src/persistence/src/json_update_snapshot_store.cpp:210-314 | a retained catalog reads back at its new place exactly when its entries meet the reader's demands, and else not at all |
| Catalog.FewerFiles | src/persistence/src/json_update_snapshot_store.cpp:225-233 | losing files never turns a catalog into another one |
| Publication.SnapshotStore.ReusePublishedProvenance | src/persistence/src/json_update_snapshot_store.cpp:249-271 | the published bytes' sidecar is reused exactly for an equal catalog |
| Publication.SnapshotStore.RetainDatabase | src/persistence/src/json_update_snapshot_store.cpp:287-303 | a database is retained under a safe new name and with its recorded digest, whatever happens to its source |
| Publication.SnapshotStore.SaveProvenance | src/persistence/src/json_update_snapshot_store.cpp:273-332 | every step leaves the catalogs of other bytes alone, and the sidecar of the new ones appears only when its generation is complete |
| Publication.SnapshotStore.FillGeneration | src/persistence/src/json_update_snapshot_store.cpp:281-317 | only the new generation changes; absent faults it fills exactly when every name is safe and none repeats |
| Publication.SnapshotStore.ReplaceSnapshot | src/persistence/src/json_update_snapshot_store.cpp:495-525 | the snapshot is replaced in one step or not at all |
| Publication.SnapshotStore.ReclaimUnusedGenerations | src/persistence/src/json_update_snapshot_store.cpp:338-361 | only what is not in use is removed, in any order, with any failures and wherever the listing ends; without failures nothing else is left |
| Publication.SnapshotStore.TakeExclusiveLease | src/persistence/include/holonight_packages_persistence/catalog_lock.h:13-21 | the writer's lease exists only with the lock file |
| Publication.SnapshotStore.Save | src/persistence/src/json_update_snapshot_store.cpp:470-533 | every state on the way loads as the old snapshot or the new one with its catalog; success publishes the new one and leaves one generation and one sidecar; failure leaves the snapshot and what it is loaded with, except that a failed save of the published bytes may give them the new catalog; absent faults it succeeds exactly for catalogs that can be published, and a failure changes nothing that is loaded; every change is made under the lease unless there is no lock file or looking for it failed |
| Publication.SnapshotStore.DiscardInvalid | src/persistence/src/json_update_snapshot_store.cpp:535-549 | only an invalid snapshot is removed |
| Publication.ReclamationKeepsCatalogIffOpened | src/persistence/src/json_update_snapshot_store.cpp:338-361 | reclamation keeps the published catalog exactly when the sidecar could be opened again |
| Publication.PreparingKeepsCatalogs | src/persistence/src/json_update_snapshot_store.cpp:273-332 | while a publication is prepared every other snapshot keeps its catalog, and the new bytes keep theirs or gain the new one |
| Publication.NewCatalogShownIff | src/persistence/src/json_update_snapshot_store.cpp:196-218 | a new catalog is shown in full exactly when the attempt is within the limits the reader has |
| Publication.OldOrNew | src/persistence/src/json_update_snapshot_store.cpp:470-533 | a publication of anything, stopped anywhere, leaves what was loaded before or the new bytes with their own, a leftover or no catalog, and says which |
| Publication.EffectShows | src/persistence/src/json_update_snapshot_store.cpp:470-533 | within the limits, with repositories and the sidecar opened again, what took effect is the snapshot with its whole catalog |
| Publication.LastPublicationStands | src/persistence/src/json_update_snapshot_store.cpp:470-533 | after any sequence of publications, of anything and each stopped anywhere, the directory loads as at the start or as one that took effect, unchanged since |
| Publication.LastPublicationIsWhole | src/persistence/src/json_update_snapshot_store.cpp:470-533 | if all of them are within the limits, have repositories and can open the sidecar again, it loads as at the start or shows one of them with its whole catalog |
| Publication.PublishAndStop | src/persistence/src/json_update_snapshot_store.cpp:470-533 | saves made one after the other, each stopped in any state it passes through, are such a sequence |
| CatalogLocks.CatalogLock.Close | src/persistence/include/holonight_packages_persistence/catalog_lock.h:26-30 | closing gives back exactly the flock that was taken |
| CatalogLocks.EvaluateUnderLease | src/backends/src/alpm_update_source.cpp:174-180 | whatever others do, the nested lease is granted at once, no writer gets in before the outer one is closed, and as many flocks are given back as were taken |
| CatalogLease.LeasedCatalogHeld | src/backends/src/alpm_update_source.cpp:174-180 | in every interleaving in which looking for the lock file does not fail, a leaseholder's databases are present with their digests, and its catalog is still the one its bytes stand for |
| CatalogLease.LeaseFreezesCatalogs | src/persistence/include/holonight_packages_persistence/catalog_lock.h:10-21 | with the same proviso, no step taken while a lease is held touches a sidecar or a generation |
| CatalogLease.NestedLeaseGranted | src/persistence/src/json_update_snapshot_store.cpp:429-430 | with the same proviso, a reader that holds a lease can always take another one |
| CatalogLease.UnleasedPublicationIsAlone | src/persistence/src/json_update_snapshot_store.cpp:483-489 | with the same proviso, publishing without a lease happens only where there are no catalogs and no leases |
| CatalogLease.FailedLookBreaksLease | src/persistence/src/json_update_snapshot_store.cpp:483-489 | while a catalog is leased a publication can start without a lease exactly if looking for the lock file fails, and it can then take every leased database away |
| Policy.MaximumInterval | src/application/src/update_check_policy.cpp:15-29 | the binary search finds what a linear search for the longest fitting interval finds |
| Policy.GreatestFits | src/application/src/update_check_policy.cpp:15-29 | that interval fits with its jitter and no longer one does, for every jitter |
| Policy.DefaultMaximum | src/application/src/update_check_policy.cpp:15-29 | with the default jitter the longest interval is 35781 minutes |
| Policy.DelayInRange | src/application/src/update_check_policy.cpp:31-60 | for every policy and draw, every delay is a non-negative 32-bit number of milliseconds, a backoff step exactly or within the jitter of the clamped interval |
| Policy.DelayCoversBand | src/application/src/update_check_policy.cpp:31-37 | every delay within the jitter of the interval is some draw's, so the band is no wider than it need be |
| Policy.ResolveCheckInterval | src/application/src/update_check_policy.cpp:62-105 | a configured numeral of any length gives its value clamped to the allowed range; anything else the default |
| Policy.ReadMinutes | src/application/src/update_check_policy.cpp:67-82 | reading with the overflow path yields the numeral's value, saturated |
| Policy.NumeralParses | src/application/src/update_check_policy.cpp:69-79 | every all-digit text, however long, is read in full |
| Policy.OtherTextRejected | src/application/src/update_check_policy.cpp:69-88 | text that is not a numeral is rejected |
| CheckObjects.UpdateCheckService.Start | src/application/src/update_check_service.cpp:38-65 | the service starts in the state its saved history and snapshot give |
| CheckObjects.UpdateCheckService.AdoptSnapshot | src/application/src/update_check_service.cpp:67-74 | the adopted snapshot is the last good one, and its count and time are announced |
| CheckObjects.UpdateCheckService.HandleRequest | src/application/src/update_check_service.cpp:86-104 | a request is refused, joined, held back by the cooldown or begins a check, with observers calling back |
| CheckObjects.UpdateCheckService.BeginCheck | src/application/src/update_check_service.cpp:106-132 | a check is marked as running before anyone is told |
| CheckObjects.UpdateCheckService.OnWorkerFinished | src/application/src/update_check_service.cpp:134-186 | a finished check is recorded first, then announced, then its callbacks run |
| CheckObjects.UpdateCheckScheduler.OnCheckCompleted | src/application/src/update_check_scheduler.cpp:26-41 | the timer and the failure count after a completion |
| CheckObjects.UpdateCheckService.Fire | src/application/src/update_check_scheduler.cpp:20 | a tick spends the timer and requests an automatic check |
| CheckObjects.Drive | src/application/src/update_check_service.cpp:86-194 | the two objects, driven by any events, are in the state the protocol gives and keep its invariant |
| CheckProperties.AllReact | src/application/src/update_check_service.cpp:86-132 | whatever observers request in the middle of a step, the fields a request may not touch are untouched |
| CheckProperties.CompletionEffect | src/application/src/update_check_service.cpp:134-186 | the whole effect of a completion: one outcome, its callbacks each run once, the scheduler's answer |
| CheckProperties.JoinAccounting | src/application/src/update_check_service.cpp:86-186 | at most one worker is out, callbacks wait only while it runs, and each accepted callback runs once with the outcome of its own run |
| CheckProperties.RejectedForgotten | src/application/src/update_check_service.cpp:87-100 | after a rejected request every run is as if it had not been made, so its callback never runs |
| CheckProperties.RejectedInScript | src/application/src/update_check_service.cpp:87-100 | nor does a request leave a trace that is rejected in the middle of what an observer or a callback requests |
| CheckProperties.ScheduleNeverStalls | src/application/src/update_check_scheduler.cpp:13-41 | with a capable backend a check is running or the timer is active, at every event boundary |
| CheckProperties.FailuresCounted | src/application/src/update_check_scheduler.cpp:26-41 | the failure count is the number of automatic failures since the last success of either origin |
| CheckProperties.ServiceAndStoreAgree | src/application/src/update_check_service.cpp:38-186 | between checks the last good snapshot is the one last saved, the status derives from it, and its document reads back exactly when storable |
| CheckProperties.FailureKeepsSnapshot | src/application/src/update_check_service.cpp:141-170 | a failed check, or one that could not be saved, leaves snapshot, count and time alone |
| CheckProperties.CooldownRespected | src/application/src/update_check_service.cpp:97-100 | no on-demand check starts within the cooldown after a completion |
| CheckRate.AutomaticRateBound | src/application/src/update_check_scheduler.cpp:22-41 | the n-th automatic failure of a streak comes no earlier than the shortest delays before it add up to |
| CheckRate.DefaultRateBound | src/application/src/update_check_policy.cpp:51-60 | with the default policy at most seven automatic checks fail in the first day, whatever is requested on demand |
| ServiceStore.StoreHoldsLastGood | src/application/src/update_check_service.cpp:38-186 | over all runs with failed saves, crashes and restarts: the last good snapshot is the one whose bytes are published, and the store loads it, cut to seconds and with the catalog of its source, exactly when it is storable and not too long |
| ServiceStore.LastGoodShownIff | src/application/src/update_check_service.cpp:113-172 | a last good snapshot saved with its repositories is loaded with all of them exactly when it is within the reader's limits and its catalog is still there, which it is unless reclamation could not open the sidecar |
| ServiceStore.FaultlessStoreAgrees | src/application/src/update_check_service.cpp:113-172 | without faults and within the limits the store always loads the last good snapshot, with every repository of the check that found it or, if that had none, the catalog its bytes had before |
| ServiceStore.RestartRecovers | src/application/src/update_check_service.cpp:38-74 | started again after a stop anywhere, the service has its last good snapshot back, or the one whose publication was interrupted |
| ServiceStore.FailedSaveReplacesCatalog | src/persistence/src/json_update_snapshot_store.cpp:249-332 | a failed check that found the published snapshot again can give it other repositories |
| ServiceStore.FinishCheck | src/application/src/update_check_service.cpp:113-130 | the worker saves what the check found and reports whether that succeeded, as one step of the system |
| ServiceStore.Launch | src/application/src/update_check_service.cpp:38-74 | the service takes what the store loads, and an invalid snapshot is discarded |
| ServiceStore.Drive | src/application/src/update_check_service.cpp:38-186 | the two objects, driven by any choice of events, finds, failures and crashes, are where the system's run is, and keep its invariant |
| UpdateDisplay.SummarizeUpdates | src/application/src/update_summary.cpp:11-22 | counts and 64-bit download total of the rows not ignored |
| UpdateOrder.SortUpdatesByName | src/application/src/update_summary.cpp:24-26 | sorted by name, with the updates of each name in their original order |
| UpdateOrder.StableOrderIsUnique | src/application/src/update_summary.cpp:24-26 | that order is the only one |
| UpdateDisplay.BuildUpdateStatus | src/application/src/update_status.cpp:14-39 | the status of a result does not depend on the one before it, except that a failure keeps its totals |
| UpdateDisplay.MessageOnlyOnError | src/application/include/holonight_packages_application/update_status.h:26-28 | what `buildUpdateStatus` asks of its callers: a message is shown in the state Error only, exactly when a current snapshot comes without an evaluation error |
| UpdateDisplay.ChoiceIsHonest | src/application/src/snapshot_selection.cpp:5-20 | a saved snapshot replaces only an older one that was not evaluated, and never looks current |
| MonitorObject.UpdateMonitor.Refresh | src/application/src/update_monitor.cpp:50-57 | evaluates now or once more after the running evaluation |
| MonitorObject.UpdateMonitor.OnFilesystemChanged | src/application/src/update_monitor.cpp:109-115 | marks a running evaluation as outdated and starts the quiet period |
| MonitorObject.UpdateMonitor.OnEvaluationFinished | src/application/src/update_monitor.cpp:132-154 | drops an outdated result, or takes it in and answers what was asked meanwhile |
| MonitorObject.UpdateMonitor.AdoptOnline | src/application/src/update_monitor.cpp:156-168 | keeps a saved snapshot as history and evaluates again |
| MonitorObject.UpdateMonitor.ApplyFreshest | src/application/src/update_monitor.cpp:170-174 | displays the snapshot the freshness rule chooses |
| MonitorObject.Drive | src/application/src/update_monitor.cpp:45-181 | the monitor, driven by any events, is in the state the protocol gives and keeps its invariant |
| MonitorProtocol.OneEvaluationAtATime | src/application/src/update_monitor.cpp:50-154 | evaluations started minus finished is 0 or 1, and rerun and dirty each imply running |
| MonitorProtocol.StaleEvaluationsDropped | src/application/src/update_monitor.cpp:109-139 | no evaluation is taken in that started before the latest notification or adoption |
| MonitorProtocol.NoTriggerLost | src/application/src/update_monitor.cpp:50-168 | at rest the last evaluation taken in started at or after every trigger |
| MonitorProtocol.RestShowsTheWorld | src/application/src/update_monitor.cpp:132-154 | at rest, with every change followed by a trigger, the status shows what is there |
| MonitorProtocol.ReadyMeansCurrent | src/application/src/update_monitor.cpp:141-174 | Ready shows exactly the summary of a current local evaluation, and NoDatabases shows zeros |
| MonitorProtocol.MessageMeansError | src/application/src/update_status.cpp:9-40 | in every reachable state a message is shown in the state Error only, if only saved snapshots carry an evaluation error |
| MonitorProtocol.AdoptionIsHistory | src/application/src/update_monitor.cpp:156-168 | adopting a saved snapshot never by itself yields Ready |
| MonitorProtocol.FailureKeepsTotals | src/application/src/update_status.cpp:17-21 | a failed evaluation keeps the earlier totals and snapshots |
| MonitorProtocol.ComesToRest | src/application/src/update_monitor.cpp:132-154 | however many triggers came in, the running evaluation and at most one more answer them all |
| PacmanText.WordsOfBoth | src/backends/src/pacman_repositories.cpp:29-37 | the words of two values on one line are the words of the one and then of the other |
| PacmanText.ReplaceAll | src/backends/src/pacman_repositories.cpp:261-265 | replacing in place is replacing every occurrence from the left once |
| PacmanText.SubstitutionFillsIn | src/backends/src/pacman_repositories.cpp:260-269 | substitution fills in the variables of every template and touches nothing else exactly when the repository's name does not run into `$arch` |
| PacmanText.ClashingTemplate | src/backends/src/pacman_repositories.cpp:260-269 | for every name that does there is a template that comes out wrong |
| SigLevels.ParseSigLevel | src/backends/src/pacman_repositories.cpp:66-97 | succeeds exactly when there are words and all are tokens, with what all of them decide; names the first bad one |
| SigLevels.MergeIsLevelAfter | src/backends/src/pacman_repositories.cpp:45-101 | merging a directive over a level applies its tokens to that level one by one |
| SigLevels.CombineIsConcatenation | src/backends/src/pacman_repositories.cpp:248-256 | directives for one section add up to one directive with all their tokens |
| SigLevels.TokenKeepsGood | src/backends/src/pacman_repositories.cpp:45-64 | a token keeps optional within signed, marginal equal to unknown and other bits clear |
| SigLevels.TokenKeepsOtherArea | src/backends/src/pacman_repositories.cpp:76-94 | a token for packages or for databases leaves the other bits alone, whatever the level |
| SigLevels.LevelsAreGood | src/backends/src/pacman_repositories.cpp:45-64 | so does any list of tokens |
| SigLevels.PackageWordsKeepDatabases | src/backends/src/pacman_repositories.cpp:76-94 | tokens that begin with Package never change a Database bit |
| PacmanParser.Parser.ReadFile | src/backends/src/pacman_repositories.cpp:163-196 | reads a file and what it includes into the state the specification gives, and stops at its first error |
| PacmanParser.Parser.HandleInclude | src/backends/src/pacman_repositories.cpp:216-233 | reads the matched files in order into the including section |
| PacmanParser.Parser.BeginSection | src/backends/src/pacman_repositories.cpp:148-161 | opens the options or a new repository, and refuses a repeated one |
| PacmanParser.Parser.HandleOption | src/backends/src/pacman_repositories.cpp:198-214 | what a global setting changes |
| PacmanParser.Parser.HandleRepository | src/backends/src/pacman_repositories.cpp:246-256 | what a setting changes in the last repository |
| PacmanConf.HandlePlain | src/backends/src/pacman_repositories.cpp:148-161 | after every line the last repository is the current section |
| PacmanConf.FileAgrees | src/backends/src/pacman_repositories.cpp:163-233 | reading a tree of files agrees with folding its flattened lines, files visited included |
| PacmanConf.IncludeIsTextual | src/backends/src/pacman_repositories.cpp:216-239 | a tree reads like the one file that holds its flattened lines, with the same result or error; what cannot be flattened cannot be read |
| PacmanConf.CyclesFail | src/backends/src/pacman_repositories.cpp:163-167 | files that include each other in a circle are refused, by a bound on the depth |
| PacmanMeaning.FoldIsMeaning | src/backends/src/pacman_repositories.cpp:148-258 | the parser computes what the lines of each section say, and fails exactly on a repeated repository or a bad level |
| PacmanRepositories.ParsePacmanRepositories | src/backends/src/pacman_repositories.cpp:281-312 | the entry point returns what the specification gives |
| PacmanRepositories.ConfigurationMeans | src/backends/src/pacman_repositories.cpp:281-312 | exactly when a configuration is accepted, and then each repository has its section's servers filled in and the level all global and then all its own tokens give the default |
| PacmanRepositories.LevelsStayGood | src/backends/src/pacman_repositories.cpp:296-305 | every level of a configuration is well formed |
| PacmanRepositories.CircularConfigurationFails | src/backends/src/pacman_repositories.cpp:163-167 | a circular configuration is refused |
| ConnectionCache.AlpmConnectionCache.SnapshotOf | src/persistence/src/alpm_connection_cache.cpp:65-76 | each stamp is its file's at an instant of the call |
| ConnectionCache.AlpmConnectionCache.Connection | src/persistence/src/alpm_connection_cache.cpp:118-158 | what is cached or reused is what the files held at one instant of the call; an error leaves the cache as it was or nothing reusable; a quiet call is cached and a quiet hit loads nothing |
| ConnectionCache.AlpmConnectionCache.Reload | src/persistence/src/alpm_connection_cache.cpp:132-157 | a reload is cached only if the files are found unchanged around it |
| ConnectionCache.DoubleChecked | src/persistence/src/alpm_connection_cache.cpp:150-155 | equal stamps before and after make the databases those of one instant |
| ConnectionCache.StillLoaded | src/persistence/src/alpm_connection_cache.cpp:125-130 | stamps found unchanged make the cached databases those of the present call |
| ConnectionCache.HitEqualsReload | src/persistence/src/alpm_connection_cache.cpp:125-130 | a hit equals a reload of the same file versions |
| VerifiedCopy.CopyPreservingMtime | src/backends/src/alpm_update_checker.cpp:94-129 | a copy has its source's stamp, and its contents unless the source changed meanwhile |
| VerifiedCopy.LayOutScratch | src/backends/src/alpm_update_checker.cpp:196-222 | every database is copied with the stamp it had |
| VerifiedCopy.VerifyCopy | src/backends/src/alpm_update_checker.cpp:225-238 | accepts only if unlocked and every stamp is seen again, and refuses only if locked or one was not |
| VerifiedCopy.CopyDatabases | src/backends/src/alpm_update_checker.cpp:340-350 | an accepted copy equals what all its sources were at one common instant, and absent faults it is refused only if locked or a source changed |
| ScratchRemoval.FileSystem.RemoveEntry | src/backends/src/scratch_dir.cpp:68-87 | only the named entry and what directory entries lead to from it change; absent refusals the entry is gone |
| ScratchRemoval.FileSystem.RemoveDirectoryContents | src/backends/src/scratch_dir.cpp:43-66 | a directory is emptied, and nothing outside it changes |
| ScratchRemoval.RemoveTreeWithoutFollowingLinks | src/backends/src/scratch_dir.cpp:210-218 | whatever is reachable only through a symbolic link is left alone |
| ScratchProtocol.NewestExists | src/backends/src/scratch_dir.cpp:112-120 | there is exactly one newest run directory, however they are listed |
| ScratchProtocol.StepInv | src/backends/src/scratch_dir.cpp:220-247 | every step of every process keeps the directory accounted for |
| ScratchProtocol.LiveRunIsKept | src/backends/src/alpm_update_checker.cpp:312-359 | however checks, abandoned workers and sweeps interleave and crash, the directory of a check in progress is there |
| ScratchProtocol.OneCheckAtATime | src/backends/src/scratch_dir.cpp:177-200 | at most one process is past the lock |
| ScratchProtocol.AtMostOneRunIsLeft | src/backends/src/alpm_update_checker.cpp:136-146 | with the lock free, and no crash or failed removal since the last sweep began, at most one run directory is left |
| RepositorySelection.Files.DescribeRepository | src/backends/src/repository_catalog.h:16-59 | a description has the digest and the time its file had during the call; without a failed read there is none only if the file was absent |
| RepositorySelection.PickRepository | src/backends/src/alpm_update_source.cpp:47-68 | the local or the verified database is picked by the rule, and the copy evaluated has its digest |
| RepositorySelection.SelectRepositories | src/backends/src/alpm_update_source.cpp:39-82 | one entry per configured repository in order and the oldest time; no data or an unavailable repository means none was selected; a reported change is a change or a failed copy |
| RepositorySelection.SelectionIsSound | src/backends/src/alpm_update_source.cpp:49-58 | an entry is the present local database or a verified one of the present configuration that never displaces a strictly newer, different local one |
| RepositorySelection.FallbackIsHistory | src/backends/src/alpm_update_source.cpp:180-188 | a failed evaluation falls back on the saved snapshot as history with the reason, and is never Ready |
| RepositorySelection.MonitorKeepsPromise | src/backends/src/alpm_update_source.cpp:169-190 | whatever the program's source evaluates or falls back on, the monitor shows a message in the state Error only, as its status type promises |
| RepositorySelection.LeasedCatalogIsOnDisk | src/backends/src/alpm_update_source.cpp:174-179 | under a lease every published database offered is on disk with its contents |
| PendingUpdates.FindInSyncDatabases | src/backends/src/pending_update_computation.cpp:25-32 | the first database that has the package |
| PendingUpdates.ComputePendingUpdates | src/backends/src/pending_update_computation.cpp:38-73 | the updates of all packages in order |
| PendingUpdates.UpdatesAreExact | src/backends/src/pending_update_computation.cpp:42-70 | an update is listed exactly when the first repository with the package has a strictly newer version |
| PendingUpdates.InstallingLeavesTheRest | src/backends/src/pending_update_computation.cpp:38-73 | whatever updates are installed, computing again finds exactly the others |
| PendingUpdates.InstallingAllLeavesNone | src/backends/src/pending_update_computation.cpp:38-73 | installing all updates leaves none |
| PendingUpdates.InstallingShownLeavesNothingShown | src/application/src/update_summary.cpp:11-22 | installing all updates not ignored leaves a count and a download of zero |
| PartialSorting.PartialSort | src/application/src/explore_search.cpp:90 | the first elements are the least in order, and no element is lost or added |
| Search.BuildIndex | src/application/src/explore_search.cpp:44-52 | names and descriptions folded once |
| Search.TrimAscii | src/application/src/explore_search.cpp:27-35 | the query without spaces at either end |
| Search.SearchPackages | src/application/src/explore_search.cpp:54-97 | the first matches in order of rank, name and position, up to the limit, and the number of all matches |
| Search.TopIsUnique | src/application/src/explore_search.cpp:81-95 | the rows are determined: no other rows are the first ones |
| Search.SmallerLimitIsPrefix | src/application/src/explore_search.cpp:80-95 | a smaller limit gives a prefix |
| Search.UnlimitedIsAll | src/application/src/explore_search.cpp:79-95 | with room for all of them the rows are all the matches |
| Search.LongerNeedleMatchesFewer | src/application/src/explore_search.cpp:62-77 | a needle that contains another matches a subset |
| Search.BeforeIsOrder | src/application/src/explore_search.cpp:81-89 | the comparison is a strict total order |

## Left out

- libalpm: database parsing, version comparison, network refresh and signature verification are functions or nondeterminism.
- JSON text, Unicode case folding, `fnmatch`, `glob` and locales; a JSON document is a value tree, and a configuration file is its list of lines.
- Power loss: the order in which `fsync` makes writes durable is not modelled, only crashes of the process between steps.
- Publication.SnapshotStore.Save: that the parent directory can be created, the error texts, and temporary files left by a crash beyond their number.
- Publication.OldOrNew: which earlier save left the catalog that a publication without repositories is loaded with.
- ServiceStore.StoreHoldsLastGood: other errors of loading than an invalid snapshot are one flag of the start; what the directory passes through while a save is under way is what Publication.SnapshotStore.Save says.
- ServiceStore.RestartRecovers: the history of checks that the next start reads is one it is given.
- Catalog.ReadRows: sidecars are those the store writes; a row's two timestamp fields are given by what SnapshotJson.TimestampRoundTrip says is read from them.
- CatalogLocks.CatalogLock.constructor: a request that blocks has not returned, so its wait is the condition under which it is called.
- CheckObjects.UpdateCheckService.Start: a worker started by an observer does not finish before `start` returns; a history that cannot be saved is not reported, and a request from another thread is the event of its arrival.
- CheckRate.AutomaticRateBound: automatic checks are requested by the scheduler alone, as in the program.
- MonitorObject.UpdateMonitor.OnEvaluationFinished: observers of the status do not call back into the monitor, as in the program.
- MonitorObject.UpdateMonitor.OnFilesystemChanged: which paths are watched; a change and its notification are separate events.
- UpdateDisplay.SummarizeUpdates: counts are unbounded where the program uses `int`.
- PacmanParser.Parser.ReadFile: the texts of the system's error messages.
- VerifiedCopy.CopyPreservingMtime: opening and `fstat` are one step; short writes and interrupted calls are not separate steps.
- Search.SearchPackages: which rows come back from more than 2^32 packages, whose positions are cut to 32 bits.
- `PacmanConfig` (ignore rules), the D-Bus adaptors, the command line, QML models, formatting and orphan statistics: wiring or single loops that would only add easy members.
