# Verified model of the compute control logic

The repository runs stateless Postgres computes over shared storage. `compute_ctl` brings a compute to the
state that a spec describes, keeps its status machine, promotes replicas, warms caches and renews
leases; the pageserver stores auxiliary files under hashed keys; the endpoint storage keeps files
under normalised paths; the control plane writes `postgresql.conf`. This project models the
protocols and transformations at the centre of those parts and proves what they are for.

| module | models |
|---|---|
| `SpecApply`, `SpecConvergence` | database phases of a spec application: an in-memory mirror of pg_database updated while SQL is planned, against a semantics of the planned SQL on the catalog |
| `DropSubscriptions`, `DropSubscriptionRuns` | "drop inherited subscriptions once per timeline" as a state machine: the drop before a delete, the delta operations, the drop in each listed database, with concurrent tasks, failures, crashes and users |
| `ComputeStatus` | the status machine: mutex, condition variable, main thread, configurator, certificate watcher and HTTP handlers in every interleaving |
| `Migrations` | the transactional migration runner under failures at every point |
| `Promote`, `Prewarm` | single-flight promotion; prewarm and offload exclusion and cancellation |
| `Quorum` | safekeeper list validation and the "already in sync" decision over every arrival order |
| `LsnLease` | combining, retrying and renewing LSN leases |
| `Quoting`, `DollarQuote` | SQL literal, identifier, configuration-value and dollar quoting against readers written from the PostgreSQL documentation |
| `AuxKey`, `AuxValue` | auxiliary file keys (FNV-1a truncated to 104 bits) and values (length-prefixed entries) |
| `PathClean` | endpoint storage keys: the component stack against a directory walk |
| `PostgresConf` | `postgresql.conf` writing and its index against a reader of the file |

Loops and in-place updates of the source are methods and classes, each proved equal to a
specification function; the properties are lemmas about those functions. Concurrent protocols are
state machines `Next(state, step)`, where a step is one critical section or one task boundary, and
the properties hold in every reachable state or over every run. Clocks, networks, SQL effects and
hash-map order are parameters or steps of the environment.

`dafny verify dfyconfig.toml` checks the whole project.

## Where the code falls short of what it is meant to do

Each has a lemma with the failing case and, where the property is one of the modelled ones, the
exact condition under which the code meets it.

- An owner whose stored name is the quoted form of the listed owner is taken for equal, so the
  owner is not changed while the mirror says it was; otherwise mirror and catalog agree after every
  listing (`OwnerTestExact`, `CreateAndAlterSimulates`).
- Applying a spec again is not always idle: a database that is both deleted by a delta operation and
  listed is dropped and created anew by every apply (`DeletedAndListedIsRecreated`). An apply has
  nothing to do exactly in the settled catalogs (`FixedPointIff`), and a second apply exactly when no
  delta source is left in the catalog and no name is listed with two owners (`SecondApplyIff`), which
  the spec and the catalog before the first apply decide (`SecondApplyFromStart`).
- A termination accepted while a compute started with a command-line spec is still Empty is
  overwritten by the later store of Init (`TerminationOverwritten`, `EmptyTerminationIsLost`).
- Outside lakebase mode the configurator can sleep on a requested refresh (`RefreshCanBeMissed`),
  exactly when it finds that status at the top of its loop (`NoLostWakeup`).
- A configure request can wait on a failure that happened before it first looked
  (`ConfigureCanMissFailure`); it sleeps on Failed exactly then (`OtherWaitersWake`).
- Subscriptions can be dropped after the timeline was recorded as done. A run awaits its tasks in
  order and fails at the first one that failed, which leaves the later ones running: those of the
  drop in each listed database (`AbandonedTaskDropsNewSubscription`) and those of the drop before a
  delete (`AbandonedDeleteDropsNewSubscription`). After a retry has succeeded such a task drops what a
  user has created since. On a recorded timeline, and unless a later run deletes the database or a
  user drops the subscription, one can be lost exactly while some run still has a drop of its
  database before it (`DroppedAgainIff`); otherwise it stays, in its database unless that is renamed
  (`NewSubscriptionsKept`).
- The databases that a recorded drop covered stay free of inherited subscriptions by name only until
  a database is renamed to one of those names (`ClearedStayClean`, `RenameBringsInherited`), which
  brings inherited ones exactly if the renamed database has some (`CleanStaysIff`).
- A configuration value with a newline or a null character does not read back
  (`EscapeConfValueReadsBack`). In `postgresql.conf` a comment without a final newline swallows the
  next setting (`OpenCommentHidesSetting`), and two spellings of one name leave the index with a value
  that the server does not use (`CaseHidesSetting`, `DisplayAgreesWithIndex`).
- A value that holds only the version byte decodes but does not re-encode to itself
  (`ReencodeDecoded`).

Two conditions are met by the callers. A delete prefix that names an endpoint without its timeline
would read the endpoint as a timeline (`DeletePrefixCovers`), but the routes name an endpoint only
together with its timeline and the claims must equal the route (endpoint_storage/src/app.rs:18-28,
endpoint_storage/src/lib.rs:228-236), so every route covers exactly what it names
(`DeleteRouteCovers`). Aborting the periodic offload in the middle of an offload would block every
later one (`AbortBlocksOffload`), but it is aborted only after Postgres has exited
(compute_tools/src/compute.rs:702-711), the worker being started once (compute.rs:1051-1053).

Where code and comments disagree the model follows the code: the lease sleep is at least half of the
validity, not at most (lsn_lease.rs:53-60); every file under `pg_stat/` gets class 0x0301, not only
`pgstat.stat` (aux_file.rs:40-62, 84-86); the status diagram lacks the stores of Init over
ConfigurationPending and over a pending termination (compute_tools/README.md:43-64).

## Model

| member | source | states |
|---|---|---|
| SpecApply.MutableApplyContext.DropInvalidDatabases | compute_tools/src/spec_apply.rs:720-751 | visits each invalid database once in any hash-map order, removes exactly those from the mirror and plans one drop for each |
| SpecApply.MutableApplyContext.RenameAndDeleteDatabases | compute_tools/src/spec_apply.rs:841-922 | the loop refines the fold over delta operations, including the panic of a rename without a new name |
| SpecApply.MutableApplyContext.CreateAndAlterDatabases | compute_tools/src/spec_apply.rs:923-984 | the loop refines the fold over listings |
| SpecApply.LoadAgrees | compute_tools/src/pg_helpers.rs:289-325 | the mirror read at the start describes the catalog iff no row was skipped for failing to decode |
| SpecApply.DropInvalidSimulates | compute_tools/src/spec_apply.rs:720-751 | Postgres accepts the drops iff no invalid database is a template, and then mirror and catalog agree and nothing invalid is left |
| SpecApply.RenameAndDeleteSimulates | compute_tools/src/spec_apply.rs:841-922 | for every delta list Postgres accepts the plan iff every rename target is free in the mirror, and then mirror and catalog agree again |
| SpecApply.OwnerTestExact | compute_tools/src/spec_apply.rs:933-937 | the owner comparison misses a real change iff the stored owner is the quoted listed owner |
| SpecApply.ListingStepSimulates | compute_tools/src/spec_apply.rs:923-984 | one listing is never refused, touches no other database, and keeps the listed one mirrored iff its owner is not read as quoted |
| SpecApply.CreateAndAlterSimulates | compute_tools/src/spec_apply.rs:923-984 | mirror and catalog agree after every listing iff no listing meets an owner that reads as quoted |
| SpecApply.CreateAndAlterExact | compute_tools/src/spec_apply.rs:923-984 | for lists without repeats: exactly which databases exist and which are mirrored, in terms of the starting mirror |
| SpecApply.DeletionsPlanned | compute_tools/src/spec_apply.rs:841-922 | the databases a plan drops are, in order, exactly those the delta operations ask to delete, whether or not the mirror holds them |
| SpecApply.CreatedIsGranted | compute_tools/src/spec_apply.rs:923-984 | in every plan each create is followed at once by the grant on that database, and there is no other grant |
| SpecConvergence.ApplySimulates | compute_tools/src/spec_apply.rs:192-230 | for every spec and catalog without quoted-looking owners, a successful apply ends with mirror and catalog in agreement and no invalid database |
| SpecConvergence.LastListingWins | compute_tools/src/spec_apply.rs:923-984 | after a successful apply every listed database exists with the owner of its last listing |
| SpecConvergence.CreatedOnce | compute_tools/src/spec_apply.rs:923-984 | a name is created iff it is listed and absent, and never twice however often it is listed |
| SpecConvergence.UnmentionedUntouched | compute_tools/src/spec_apply.rs:841-984 | a valid database that the spec does not mention keeps its row through an apply |
| SpecConvergence.FixedPointIff | compute_tools/src/spec_apply.rs:192-230 | an apply succeeds, leaves the catalog unchanged and plans no create, rename, owner change or grant iff no row is invalid, no delta source is in the catalog and every listing is there with its owner |
| SpecConvergence.SecondApplyIff | compute_tools/src/spec_apply.rs:192-230 | after any successful apply the next one changes nothing iff no delta source is left in the catalog and every name is listed with one owner |
| SpecConvergence.SecondApplyFromStart | compute_tools/src/spec_apply.rs:192-230 | the same from the spec and the catalog before the first apply: no delta source is listed or there again after the delta operations, and every name has one owner |
| SpecConvergence.LeftIff | compute_tools/src/spec_apply.rs:841-984 | a successful apply leaves a database iff it is listed or the delta operations leave its name present among the valid databases |
| SpecConvergence.LastMentionDecides | compute_tools/src/spec_apply.rs:841-922 | the last delta operation that mentions a name decides whether it is present: not after a delete or rename of it, and after a rename to it iff the source or the name was |
| SpecConvergence.PanicsIff | compute_tools/src/spec_apply.rs:841-922 | planning panics iff some rename without a new name meets a database that the operations before it leave present |
| SpecConvergence.SettledAfterApply | compute_tools/src/spec_apply.rs:841-984 | a successful apply can leave only those two things unsettled |
| SpecConvergence.ApplyConverges | compute_tools/src/spec_apply.rs:192-230 | a condition on the spec alone that suffices from every catalog: no source is a target or listed and no name has two owners |
| SpecConvergence.ReapplySettled | compute_tools/src/spec_apply.rs:192-230 | a settled catalog is unchanged by any number of further applies |
| SpecConvergence.DeletedAndListedIsRecreated | compute_tools/src/spec_apply.rs:841-984 | without the condition a deleted and listed database is created anew by every apply from any catalog |
| DropSubscriptions.FinalizeAfterDrops | compute_tools/src/spec_apply.rs:235-289 | in every reachable state a run records its timeline only after its own drop ran for every listed accessible database |
| DropSubscriptions.ClearedStayClean | compute_tools/src/spec_apply.rs:63-99 | after a finalisation, over any continuation, the record stays and each covered name holds no inherited subscription unless a database was renamed to it since its last drop |
| DropSubscriptions.CleanStaysIff | compute_tools/src/spec_apply.rs:841-922 | a step brings inherited subscriptions to a name without any iff it renames to it a database that has some |
| DropSubscriptions.LaterRunsNeverDrop | compute_tools/src/spec_apply.rs:63-99 | once a timeline is recorded no run that had not yet asked adds the drop phase on it, over any continuation |
| DropSubscriptions.DroppedAgainIff | compute_tools/src/spec_apply.rs:63-190 | on a recorded timeline some continuation, without a user's drop and without a later run that deletes the database, drops a subscription in it iff a run still has a drop of that database before it, in either pass, in progress or left behind |
| DropSubscriptions.NewSubscriptionsKept | compute_tools/src/spec_apply.rs:63-190 | with no drop or rename of the database before any run, and no user or later run that drops, deletes or renames there, each of its subscriptions stays in it over any continuation |
| DropSubscriptions.StepKeepsSub | compute_tools/src/spec_apply.rs:118-289 | only a drop task of its database and a user remove a subscription; a rename moves it |
| DropSubscriptions.LeftTasksFollowFailure | compute_tools/src/spec_apply.rs:176-190 | in every reachable state a failed run has left running only tasks that come after one of the same pass that failed |
| DropSubscriptions.StepKeepsInv | compute_tools/src/spec_apply.rs:118-318 | every step of every run, crash and user action keeps the bookkeeping and cleanliness invariant |
| DropSubscriptions.DropAddedIff | compute_tools/src/spec_apply.rs:63-99 | in every reachable state a run adds the drop phase iff the spec asks for it and its timeline is not recorded |
| DropSubscriptions.NoDropUnasked | compute_tools/src/spec_apply.rs:63-99 | no reachable run has a drop phase that its spec did not ask for |
| DropSubscriptions.ChangesAfterPreDrops | compute_tools/src/spec_apply.rs:118-190 | a reachable run is past its delta operations only with every drop before a delete ended and none failed |
| DropSubscriptions.DeletesExact | compute_tools/src/spec_apply.rs:118-131 | the databases dropped from before a delete are exactly those that some delta operation deletes |
| DropSubscriptions.PreSpawnDropsExactly | compute_tools/src/spec_apply.rs:118-175 | a task runs for each database to delete, and drops iff the mirror holds that database, open and valid |
| DropSubscriptions.SpawnDropsExactly | compute_tools/src/spec_apply.rs:235-284 | a task runs for each listed database, and drops iff the phase was added and the mirror holds that database, open and valid |
| DropSubscriptions.ChangeRefusedIff | compute_tools/src/spec_apply.rs:841-922 | a delta operation is refused iff it deletes a database with subscriptions, or renames one that exists without a free new name |
| DropSubscriptions.ChangesFollowPlan | compute_tools/src/spec_apply.rs:841-922 | the databases left by the delta operations of a run are those that the planned mirror leaves present |
| DropSubscriptions.CrashLeavesNothing | compute_tools/src/spec_apply.rs:176-289 | after a crash on a recorded timeline no task of an earlier run takes a subscription, over any continuation without later drops, deletes or renames there |
| DropSubscriptionRuns.MissingDatabasesPass | compute_tools/src/spec_apply.rs:139-190 | databases to delete that do not exist cannot hold up a run: it can go on to its delta operations |
| DropSubscriptionRuns.AbandonedTaskDropsNewSubscription | compute_tools/src/spec_apply.rs:235-289 | a reachable state: the first database's task failed, the second one's was left behind, a retry recorded the timeline, and the task left removes a subscription created since |
| DropSubscriptionRuns.AbandonedDeleteDropsNewSubscription | compute_tools/src/spec_apply.rs:118-190 | a reachable state on a recorded timeline: a run that deletes two databases failed at the first one's drop, a retry deleted both and created the second anew, and the task left removes a subscription created in it since |
| DropSubscriptionRuns.RenameBringsInherited | compute_tools/src/spec_apply.rs:841-922 | a reachable state after a finalisation in which a covered name holds an inherited subscription again |
| ComputeStatus.ComputeNode.SetStatus | compute_tools/src/compute.rs:229-233 | stores the status and notifies |
| ComputeStatus.ComputeNode.SignalRefreshConfiguration | compute_tools/src/compute.rs:2198-2220 | stores RefreshConfigurationPending and notifies from exactly the allowed statuses, and succeeds without effect in Init |
| ComputeStatus.ComputeNode.Configure | compute_tools/src/http/routes/configure.rs:36-81 | accepts exactly in Empty and Running |
| ComputeStatus.ComputeNode.Terminate | compute_tools/src/http/routes/terminate.rs:24-58 | which statuses accept a termination and which store it, in both modes |
| ComputeStatus.ComputeNode.ConfiguratorTurn | compute_tools/src/configurator.rs:13-66 | one hold of the lock by the configurator, with its assertion, wait, store and exit, equals its specified move |
| ComputeStatus.ComputeNode.CleanupAfterPostgresExit | compute_tools/src/compute.rs:1129-1166 | turns either pending termination into Terminated and delays the exit only for the fast one |
| ComputeStatus.ReachableInv | compute_tools/src/configurator.rs:13-195 | the ownership and wake-up invariants hold in every reachable state of all actors |
| ComputeStatus.ConfiguratorOwnsStatus | compute_tools/src/configurator.rs:16-19 | while the configurator holds Configuration or RefreshConfiguration no other actor changes the status and neither assertion can fail |
| ComputeStatus.AppliesNeverOverlap | compute_tools/src/configurator.rs:16-19 | the main thread and the configurator never apply a spec at the same time |
| ComputeStatus.TerminationOverwritten | compute_tools/src/compute.rs:625-775 | a pending termination is overwritten by anything but Terminated iff the step is the store of Init, which needs a command-line spec outside lakebase mode |
| ComputeStatus.RunningTerminationKept | compute_tools/src/compute.rs:1129-1166 | a termination accepted in Running is kept or completed over any continuation |
| ComputeStatus.TerminationSurvives | compute_tools/src/compute.rs:1129-1166 | after Init any termination survives every further run and Terminated is final |
| ComputeStatus.NoLostWakeup | compute_tools/src/configurator.rs:22-29 | a parked unsignalled configurator sleeps on the status it parked on: none of three in lakebase mode, never ConfigurationPending otherwise, and RefreshConfigurationPending iff it parked on it outside lakebase mode |
| ComputeStatus.OtherWaitersWake | compute_tools/src/http/routes/terminate.rs:66-83 | the spec waiter, certificate watcher and terminate waiter never sleep through the status they wait for; the configure waiter sleeps on Failed iff its first look found it |
| ComputeStatus.ArcsDocumented | compute_tools/README.md:43-64 | every status change of every reachable state is an arc of the documented diagram, except two stores of Init |
| ComputeStatus.DocumentedArcsTaken | compute_tools/README.md:43-64 | conversely, in both modes every documented arc is taken from some reachable state, except exactly the termination of an empty compute in lakebase mode |
| ComputeStatus.TurnOutcome | compute_tools/src/configurator.rs:13-66 | in every reachable state a turn of a woken configurator ends in Configuration from a requested configuration and in RefreshConfiguration from a requested refresh, except at the top of the loop outside lakebase mode; it changes no other status and exits for good only on Failed |
| ComputeStatus.AppliesEnd | compute_tools/src/configurator.rs:40-57 | an applied configuration and a start end in Running if they succeed and in Failed if not |
| ComputeStatus.RefreshesEnd | compute_tools/src/configurator.rs:58-195 | from every reachable state a fetched refresh ends in Running without a new spec, goes on to apply a new one, asks again after an error, and exits on an empty answer |
| ComputeStatus.RefreshAppliesEnd | compute_tools/src/configurator.rs:58-195 | applying the new spec ends in Running, or asks again if it fails |
| ComputeStatus.RequestsEnd | compute_tools/src/compute.rs:2198-2220 | the status after each HTTP request, from every reachable state |
| ComputeStatus.CertCheckEnds | compute_tools/src/compute.rs:2363-2414 | the certificate watcher asks for a configuration from Running and ends exactly where no compute is left |
| ComputeStatus.WaitsEnd | compute_tools/src/http/routes/configure.rs:56-81 | the three waits end exactly with what they wait for, the configure request with failure iff it sees Failed after a first look |
| ComputeStatus.CleanupEnds | compute_tools/src/compute.rs:1129-1166 | after Postgres has exited the status is Terminated iff a termination of either kind was pending |
| ComputeStatus.RefreshCanBeMissed | compute_tools/src/configurator.rs:30-37 | a reachable state outside lakebase mode with the configurator asleep on a requested refresh |
| ComputeStatus.EmptyTerminationIsLost | compute_tools/src/http/routes/terminate.rs:24-58 | a reachable termination that the next step overwrites |
| ComputeStatus.ConfigureCanMissFailure | compute_tools/src/http/routes/configure.rs:56-81 | a reachable configure request asleep on Failed |
| Migrations.SkipIgnoresMode | compute_tools/src/migration.rs:96-124 | replacing the role name never changes whether a migration is skipped |
| Migrations.MigrationRunner.RunMigration | compute_tools/src/migration.rs:96-124 | text and id take effect together or not at all, for every failure point and for a lost acknowledgement |
| Migrations.MigrationRunner.RunMigrations | compute_tools/src/migration.rs:127-161 | the loop refines the specified run for every fault pattern |
| Migrations.RunOnceKeepsInv | compute_tools/src/migration.rs:127-161 | a run never moves the id back and a successful one ends at the larger of stored id and list length |
| Migrations.RunsKeepInv | compute_tools/src/migration.rs:75-161 | over any sequence of runs the stored id counts the committed migrations and each non-skipped one ran exactly once, in order |
| Migrations.IdsIncrease | compute_tools/src/migration.rs:127-161 | the log of a prefix is exactly its non-skipped ids in increasing order |
| Migrations.RunSucceeds | compute_tools/src/migration.rs:127-161 | a run without faults succeeds from every database |
| Migrations.StoredIdExists | compute_tools/src/migration.rs:75-94 | a run leaves a stored id iff there was one or its third preparing statement took effect |
| Migrations.RunsRunTexts | compute_tools/src/migration.rs:96-161 | over any sequence of runs each logged migration was run with its own text, adapted to the mode of one of the runs |
| Migrations.AdaptedText | compute_tools/src/migration.rs:96-104 | outside lakebase mode the text runs as it is; in it, cut at the old role name and joined with the new one |
| Migrations.ReplaceIsJoin | compute_tools/src/migration.rs:96-104 | replacing is joining the pieces with the replacement, and joining them with the pattern gives the text back |
| Migrations.PiecesAreFree | compute_tools/src/migration.rs:96-104 | no piece holds the pattern, so no occurrence stays unreplaced |
| Promote.CatchUp | compute_tools/src/compute_promote.rs:60-82 | success, query failure and timeout of the twenty-one polls, and success implies the standby reached the primary |
| Promote.CaughtUpExact | compute_tools/src/compute_promote.rs:60-82 | it succeeds iff some poll in range caught up before any failed |
| Promote.PromoteSlot.GetOrInsert | compute_tools/src/compute_promote.rs:12-39 | joins the one promotion or starts it, never a second |
| Promote.StartsOnce | compute_tools/src/compute_promote.rs:12-39 | in every reachable state exactly one promotion has started as soon as anyone called |
| Promote.PromoteOnlyGuarded | compute_tools/src/compute_promote.rs:41-118 | `pg_promote` is issued at most once and only after Replica mode, an allowed prewarm state and a caught-up standby, in that order |
| Promote.OneOutcome | compute_tools/src/compute_promote.rs:12-39 | all callers that ever return, over any continuation, get the same outcome |
| Promote.PromotedIff | compute_tools/src/compute_promote.rs:41-118 | over every run Promoted is sent iff the promotion finished well, which is only after `pg_promote` |
| Promote.CallersToldTruth | compute_tools/src/compute_promote.rs:12-39 | over every run each caller that has returned was told Promoted iff the promotion finished well |
| Promote.BadEndsFail | compute_tools/src/compute_promote.rs:41-171 | after a failed guard, a standby that did not catch up, a failed promotion, an error or the death of the task every caller that ever returns gets a failure |
| Promote.GuardsExact | compute_tools/src/compute_promote.rs:41-59 | in every reachable state the guards let pass exactly a replica whose prewarm is neither missing nor in progress |
| Promote.PromotionGoesThrough | compute_tools/src/compute_promote.rs:41-171 | from every reachable start with the guards met some run ends with a waiting caller told Promoted |
| Promote.WaitersCanReturn | compute_tools/src/compute_promote.rs:23-39 | once the task is done every waiting caller can return, with the outcome in the slot |
| Prewarm.LfcState.PrewarmLfc | compute_tools/src/compute_prewarm.rs:59-91 | starts a task iff none was prewarming and hands it the current token |
| Prewarm.LfcState.FinishPrewarm | compute_tools/src/compute_prewarm.rs:66-91 | stores the outcome and replaces the token only after a cancellation |
| Prewarm.LfcState.OffloadLfc | compute_tools/src/compute_prewarm.rs:188-214 | starts an offload iff none was running |
| Prewarm.PrewarmExclusive | compute_tools/src/compute_prewarm.rs:59-91 | in every reachable state Prewarming holds iff one prewarm is unfinished, and two never are |
| Prewarm.OffloadExclusive | compute_tools/src/compute_prewarm.rs:188-228 | the same across both offload entry points, an aborted task counting as unfinished |
| Prewarm.CancelledAtMostOnce | compute_tools/src/compute_prewarm.rs:280-282 | over any run each cancelled token ends at most one prewarm |
| Prewarm.CancellationIsSpent | compute_tools/src/compute_prewarm.rs:59-91 | after a cancelled end the next prewarm's token has not been cancelled |
| Prewarm.PrewarmStartsIff | compute_tools/src/compute_prewarm.rs:59-91 | in every reachable state a request starts a prewarm with the current token iff none is unfinished |
| Prewarm.PrewarmEndStored | compute_tools/src/compute_prewarm.rs:66-91 | the outcome of the one prewarm is what is stored, and the token changes iff it was cancelled |
| Prewarm.CancellationReaches | compute_tools/src/compute_prewarm.rs:280-282 | an unfinished prewarm can complete, and can end as cancelled iff its token was cancelled, which a cancellation brings about |
| Prewarm.OffloadStartsIff | compute_tools/src/compute_prewarm.rs:188-228 | in every reachable state a request starts an offload iff none is unfinished or aborted, and its result is what is stored |
| Prewarm.AbortBlocksOffload | compute_tools/src/compute.rs:2945-2949 | after an abort the state stays Offloading and no offload ever starts again |
| Quorum.Validate | compute_tools/src/compute.rs:267-302 | accepts exactly the non-empty duplicate-free lists for primaries and reports the smallest duplicate |
| Quorum.LeqIsLexicographic | compute_tools/src/compute.rs:267-302 | the order of the sorted list is the lexicographic one: a prefix, or smaller at the first difference |
| Quorum.CheckIfSyncedExact | compute_tools/src/sync_sk.rs:54-98 | in sync at an LSN iff everyone reported flush and commit there; only an empty list panics |
| Quorum.CheckSafekeepersSynced | compute_tools/src/compute.rs:1444-1484 | for every arrival order the early exits change nothing: the first answers from more than half of the safekeepers decide, and the panic is unreachable |
| Quorum.MajorityAnswers | compute_tools/src/compute.rs:1444-1484 | if more than half of all safekeepers answer and all answers are in sync at one LSN, that is the result; if at most half answer, there is none |
| Quorum.DisagreementNotSynced | compute_tools/src/compute.rs:1444-1484 | two different answers, or a missing timeline, among the first answers up to half of the safekeepers and one more mean not in sync |
| Quorum.ValidatedAreDistinct | compute_tools/src/compute.rs:267-302 | a list that validation accepts, asked once per entry, answers from pairwise distinct safekeepers |
| Quorum.SyncedMajority | compute_tools/src/compute.rs:1444-1484 | a result over distinct safekeepers comes from a majority of them at that LSN |
| Quorum.ValidatedIsQuorumPosition | compute_tools/src/compute.rs:1414-1484 | end to end: for a validated list a majority of it has flushed up to x iff x is at most the result |
| Quorum.SyncedIsQuorumPosition | compute_tools/src/compute.rs:1444-1484 | a majority of the snapshot has flushed up to x iff x is at most the result |
| Quorum.ResultsAgree | compute_tools/src/compute.rs:1444-1484 | two arrival orders over one snapshot never report different LSNs |
| LsnLease.CombinedIsEarliest | compute_tools/src/lsn_lease.rs:112-154 | a combined lease exists iff there are answers and all grant, and is then the earliest of all |
| LsnLease.TryAcquire | compute_tools/src/lsn_lease.rs:112-154 | the nested loops fail iff a request failed; otherwise the result is the earliest expiry, with every pageserver granting one, or none, with no pageserver or one that refuses |
| LsnLease.CombinedGrants | compute_tools/src/lsn_lease.rs:112-154 | the combined lease is an expiry iff every reply grants one and it is the earliest of those granted |
| LsnLease.AcquireWithRetry | compute_tools/src/lsn_lease.rs:68-109 | the first answer decides, and each earlier attempt failed and waited its backoff in whole milliseconds, from half a second to a minute |
| LsnLease.BackoffBounded | compute_tools/src/lsn_lease.rs:68-109 | waits stay between half a second and a minute and each grows by at least a quarter second or reaches the maximum |
| LsnLease.BackoffIsExact | compute_tools/src/lsn_lease.rs:68-109 | no period is rounded by 64-bit floats, and the maximum is reached from the twelfth retry on and not before |
| LsnLease.SleepLeavesSlack | compute_tools/src/lsn_lease.rs:47-63 | sleep plus min(60 s, half the validity) is the validity |
| LsnLease.SleepsUntilSlack | compute_tools/src/lsn_lease.rs:47-63 | a full sleep ends exactly the slack before the expiry, and is none after it |
| LsnLease.CombinedOfRound | compute_tools/src/lsn_lease.rs:112-154 | the expiry a round sleeps on is the combined lease of its shards in any order |
| LsnLease.LeasesContinuous | compute_tools/src/lsn_lease.rs:41-64 | in every run whose renewals finish within the slack, early wake-ups included, no shard's lease lapses |
| Quoting.ChainIsOneMap | compute_tools/src/pg_helpers.rs:37-52 | the chained replacements equal one replacement per character |
| Quoting.EscapeLiteralReadsBack | compute_tools/src/pg_helpers.rs:37-46 | every string reads back in whichever form was chosen, and reading stops at the closing quote iff the text does not go on with one |
| Quoting.EscapeLiteralForm | compute_tools/src/pg_helpers.rs:37-46 | the form with escapes is chosen iff the string holds a backslash |
| Quoting.EscapeConfValueReadsBack | compute_tools/src/pg_helpers.rs:49-52 | a value reads back iff it has no newline and no null character |
| Quoting.PgQuoteReadsBack | compute_tools/src/pg_helpers.rs:238-240 | every identifier reads back, ending iff no further quote follows |
| Quoting.PgQuoteInjective | compute_tools/src/pg_helpers.rs:238-240 | distinct names have distinct quoted forms |
| DollarQuote.PgQuoteDollar | compute_tools/src/pg_helpers.rs:248-265 | the loop stops at the shortest tag absent from the text and returns the quoted text with the outer tag one longer |
| DollarQuote.QuotedReadsBack | compute_tools/src/pg_helpers.rs:248-265 | the quoted text reads back as exactly the input, whatever it holds and whatever follows |
| DollarQuote.OuterTagAbsent | compute_tools/src/pg_helpers.rs:248-265 | the outer tag occurs nowhere in the quoted text |
| DollarQuote.BlockReadsBack | compute_tools/src/pg_helpers.rs:248-265 | a block in the outer tag around a template without two adjacent x's reads back as the filled template |
| AuxKey.FnvHash | pageserver/src/aux_file.rs:13-28 | the 128-bit loop computes FNV-1a and its low 104 bits are FNV-1a modulo 2^104 |
| AuxKey.HashNext | pageserver/src/aux_file.rs:13-28 | for every text and next byte: the byte is combined with the state by exclusive or, bit by bit, and the result multiplied by the prime modulo 2^128 |
| AuxKey.XorIsBitwise | pageserver/src/aux_file.rs:13-28 | each bit of the exclusive or is set iff the two bits differ |
| AuxKey.PortableConstants | pageserver/src/aux_file.rs:13-28 | the hash of nothing and the prime, as every version has to compute them |
| AuxKey.RoundInjective | pageserver/src/aux_file.rs:13-28 | each round modulo 2^104 is injective in the state and in the byte |
| AuxKey.RoundsSpread | pageserver/src/aux_file.rs:13-28 | different bytes leave states that one more byte cannot bring together |
| AuxKey.AuxHashToMetadataKey | pageserver/src/aux_file.rs:30-38 | the sixteen bytes are the prefix, the class and the low thirteen hash bytes |
| AuxKey.SameKeyIff | pageserver/src/aux_file.rs:63-91 | two paths share a key iff they share a class and their hashed parts share a 104-bit hash |
| AuxKey.ClassifyLossless | pageserver/src/aux_file.rs:63-91 | a path is its class's directory followed by the hashed part |
| AuxKey.MappingAndSnapshotClasses | pageserver/src/aux_file.rs:63-91 | the class bytes of the key are 0x0101 iff the path is under pg_logical/mappings/, and 0x0102 iff under pg_logical/snapshots/ |
| AuxKey.OtherLogicalClasses | pageserver/src/aux_file.rs:63-91 | they are 0x0103 iff the path is the replication origin checkpoint, and 0x01FF iff it is under pg_logical/ and none of those |
| AuxKey.OtherClasses | pageserver/src/aux_file.rs:63-91 | they are 0x0201 iff the path is under pg_replslot/, 0x0301 iff under pg_stat/, and 0xFFFF iff under none of the three directories |
| AuxKey.KeyOf | pageserver/src/aux_file.rs:63-91 | the sixteen bytes begin with 0x62 and the last thirteen are the hash of what follows the directory in the path |
| AuxKey.ClassesNeverCollide | pageserver/src/aux_file.rs:63-91 | paths of different classes never share a key |
| AuxKey.NearPathsNeverCollide | pageserver/src/aux_file.rs:63-91 | distinct paths of one class and length that differ only within two adjacent bytes never share a key |
| AuxValue.EncodeFileValue | pageserver/src/aux_file.rs:149-169 | the encoder loop refines the format, with the first file that is too long as its error |
| AuxValue.DecodeFileValue | pageserver/src/aux_file.rs:95-121 | the borrowing decoder refines the format's parse, with its panics and errors |
| AuxValue.DecodeFileValueBytes | pageserver/src/aux_file.rs:123-147 | the shared-bytes decoder agrees with the parse and its contents are in-bounds views of the value |
| AuxValue.DecodeEncoded | pageserver/src/aux_file.rs:93-169 | decoding an encoded list returns that list |
| AuxValue.ReencodeDecoded | pageserver/src/aux_file.rs:93-169 | re-encoding a decoded value returns it byte for byte iff it is not the lone version byte |
| AuxValue.EncodedLayout | pageserver/src/aux_file.rs:149-169 | byte for byte: the version, then for each file the length and bytes of its path and the length and bytes of its content |
| AuxValue.LengthField | pageserver/src/aux_file.rs:149-169 | a length is four bytes, the most significant first |
| AuxValue.RefusedIff | pageserver/src/aux_file.rs:149-169 | a list is refused iff some path or content does not fit its length field |
| AuxValue.Utf8Exact | pageserver/src/aux_file.rs:95-121 | the bytes accepted as a path are exactly the UTF-8 encodings of sequences of Unicode scalar values |
| PathClean.CleanUtf8 | endpoint_storage/src/lib.rs:52-75 | the stack loop yields the specified list in clean form: a root or parents, then names |
| PathClean.CleanPreservesMeaning | endpoint_storage/src/lib.rs:52-75 | the cleaned path leads where the path leads from every directory |
| PathClean.CleanIdempotent | endpoint_storage/src/lib.rs:52-75 | cleaning twice is cleaning once |
| PathClean.CleanIsCanonical | endpoint_storage/src/lib.rs:52-75 | two paths clean to the same list iff they lead to the same place from every directory |
| PathClean.NormalizeExact | endpoint_storage/src/lib.rs:40-50 | a key is accepted as a list of names iff that list is not empty and the key leads exactly there |
| PathClean.AcceptedIsNames | endpoint_storage/src/lib.rs:40-50 | an accepted key holds one or more names and nothing else |
| PathClean.ComponentsFollowText | endpoint_storage/src/lib.rs:40-75 | from every directory the components of a path lead where its text leads, read segment by segment between slashes |
| PathClean.ComponentsAreSingle | endpoint_storage/src/lib.rs:40-75 | no name among the components of any path is empty, a dot or a double dot, or holds a slash |
| PathClean.AcceptedNamesAreSingle | endpoint_storage/src/lib.rs:40-50 | an accepted key is one or more such names |
| PathClean.NormalizeKeyExact | endpoint_storage/src/lib.rs:40-50 | over the text of the key: it is accepted as a list of names iff that list is not empty and the text leads there, from the root or below every directory |
| PathClean.KeyRefusedIff | endpoint_storage/src/lib.rs:40-50 | a key is refused iff its text leads to no such place |
| PathClean.StoredBelowIds | endpoint_storage/src/lib.rs:104-118 | an accepted key is stored under its tenant and timeline, then the components of its endpoint id, then one or more names |
| PathClean.StoredFollowsText | endpoint_storage/src/lib.rs:104-118 | the stored path leads, from the root, along the text of the ids and then along the names that the text of the key leads to |
| PathClean.StoredStaysBelowIff | endpoint_storage/src/lib.rs:104-118 | the walk of the stored path stays below tenant and timeline at every component iff the cleaned endpoint id does not begin with a parent |
| PathClean.DeletePrefixCovers | endpoint_storage/src/lib.rs:190-208 | a delete prefix covers a stored path iff the ids it names match; without a timeline the endpoint is compared with the stored timeline |
| PathClean.DeleteRouteCovers | endpoint_storage/src/app.rs:18-28 | every delete route covers a stored path iff its ids are the first ids of that path |
| PostgresConf.PostgresConf.Append | control_plane/src/postgresql_conf.rs:35-39 | lines and index both grow by the setting |
| PostgresConf.PostgresConf.AppendLine | control_plane/src/postgresql_conf.rs:42-44 | only the lines grow |
| PostgresConf.PostgresConf.Get | control_plane/src/postgresql_conf.rs:26-28 | returns what the server finds for the option in the displayed file |
| PostgresConf.PostgresConf.Display | control_plane/src/postgresql_conf.rs:47-55 | the loop concatenates all lines |
| PostgresConf.ChainIsMap | control_plane/src/postgresql_conf.rs:77-83 | the three chained replacements equal one replacement per character |
| PostgresConf.ValueReadsBack | control_plane/src/postgresql_conf.rs:58-85 | a value, quoted or not, stays on one line and reads back iff it holds no null character |
| PostgresConf.UnquotedIsRegular | control_plane/src/postgresql_conf.rs:58-76 | the values taken for numbers and words are exactly those that a matcher of the regular expression accepts |
| PostgresConf.WrittenPlainIff | control_plane/src/postgresql_conf.rs:58-85 | a value is written as it is iff the expression matches it, and between quotes otherwise |
| PostgresConf.SettingReadsBack | control_plane/src/postgresql_conf.rs:35-39 | a setting reads back from its line iff its name is an identifier or a qualified one and no include directive, and its value holds no null character |
| PostgresConf.DisplayAgreesWithIndex | control_plane/src/postgresql_conf.rs:26-55 | for every sequence of calls with harmless extra lines the displayed file holds exactly the appended options with the values of the index iff all names are option names, no value holds a null character and spellings that differ only in case have one value |
| PostgresConf.FoldKeepsNames | vendor/postgres-v17/src/backend/utils/misc/guc-file.l:73-105 | folding the case of a name keeps whether the server's lexer takes it for an option name |
| PostgresConf.CaseHidesSetting | control_plane/src/postgresql_conf.rs:35-39 | two spellings of one name leave the file with the last value and the index with both |
| PostgresConf.OpenCommentHidesSetting | control_plane/src/postgresql_conf.rs:42-44 | an extra comment line without a newline swallows the setting after it |

## Left out

- Role phases, schema and extension phases, grants and the SQL of every phase other than the database phases: sequences of statements without a mirror.
- Database options in CREATE DATABASE: they are taken to leave the flags of a new database at their defaults, although ALLOW_CONNECTIONS decides the flag that the per-database pass reads later.
- Rows of pg_database that fail to decode: the source skips them silently, so the mirror may lack databases; LoadAgrees gives the condition and the later phases start from a complete mirror.
- Refusals of Postgres that depend on other sessions, permissions or reserved names: the catalog semantics refuses only for missing, duplicate and template databases.
- Two computes that apply a spec to one timeline at the same time; applies of one compute do not overlap (AppliesNeverOverlap).
- Effects of migration texts; each run of one is logged with its id and text.
- Liveness: that a refresh or a configuration is eventually applied, and that Running implies the stored spec was applied.
- Process exit of an empty compute in lakebase mode and of the refresh path, beyond the state being final.
- Offload while prewarming, panics inside a prewarm task, and timeouts inside the HTTP clients.
- `max_service_connections`, the throttled apply of operations and the concurrency limit of the per-database pass.
- Identifier truncation, empty identifiers and null characters in SQL text; numeric escapes and continuation of string constants across newlines in the readers, which the writers never produce.
- The contents of files that an include directive names; a line with one counts as no setting.
- What the server makes of a null character in the configuration file, which it cuts the token at: here the line counts as malformed.
- `Key::from_metadata_key_fixed_size` and deletion by string prefix in remote storage: the byte array and the component list are the end points.
- LeasesContinuous: assumes each renewal finishes within the slack, because nothing bounds the duration of requests.
- DeletePrefixCovers: for ids of one path component each, because an endpoint id with separators is a path of its own.
- ApplySimulates: for owner names without a leading double quote; CreateAndAlterSimulates gives the exact condition.
- ApplyConverges: a sufficient condition on the spec alone; SecondApplyIff gives the exact one.
- DisplayAgreesWithIndex: extra lines are empty or complete comments, because any other line can hold settings that the index does not see.
