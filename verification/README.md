# NightOwl agent: update, rollback and the durable stores beside them

This project models the part of the NightOwl Windows agent that must survive crashes, and proves what it keeps.

- **Update and rollback.** One persisted record drives an update through some 28 stages, while the service confirms its
  health on the same record and the updater may die between any two effects. `UpdateRecords` and `UpdateStateStores` are
  the record and its store; `ManagedFiles` the directory trees, the protected paths and the backup; `Protocol` the
  transition system over what survives a crash, with its invariant; `Recovery` and `Replacement` what a runner decides
  and reports; `Runner` the runner itself, a class that works on a store and three trees. Every atomic effect of the
  runner is appended to a ghost history that is proved to be a run of the protocol, so what is proved about every run
  holds at every point where a runner can die.
- **Invocation** (`Invocation`) decides how a new command line relates to the record on file, and **versions**
  (`Versions`) how release names compare.
- **Pending results** (`PendingResults`), the **rotating log** (`RotatingLogs`), the **bounded log tail** (`LogTails`),
  the **release-trust bundle** (`ReleaseTrust`) and the **whole-file replacement** under them (`FileStores`).

What the environment contributes is a parameter: which file operations succeed and how far (budgets), when the agent
confirms, what the service reports at each poll, what was downloaded, what time it is. Crashes are modelled by stopping
after any number of effects. Hashes and signatures are ideal. Mutual exclusion of runners and of store operations is
taken from the locks as given.

## What the proofs bring out

- A rollback that the agent confirms after the last poll is reported as failed while the record says rolled back. The
  exact moments are the predicate `Recovery.ConfirmedUnseen`; the resumed health check does not have this race.
- A completed update has every packaged file installed except that `agent.version.json` is rewritten after the copy.
- A job for the latest release conflicts with its own record as soon as the release is resolved, so its apply is refused.
- `Save` protects an ended record only from its own update id.
- The already-current path ends as completed with no health check on record.
- A release candidate with a number past Int32 takes part in a cycle of three, unless the number starts with nine nines;
  below that the order is transitive.
- The expiry pass of the log deletes the newest expired archive first: dying in between can leave a gap in the records
  that are read; the exact condition is proved, and the next complete pass closes the gap.
- A record is read back in full if only its final newline was lost.
- The bounded tail strips a byte-order mark from a line in the middle of a file when its window starts there, and loses a
  whole line there that follows a carriage return alone.
- A version text that begins with a letter, such as v2.0.0, or has no dot, counts as 0.0.0.
- A failed attempt recorded after an acknowledgement brings the result back, and is the only way to exceed the queue's
  number of records or to have a result in two places.
- A trust bundle installation cut off after its first write leaves the bundle file ahead of the record, and a bundle older
  than the file but newer than the record is then accepted over it. Synchronizing the same bundle again repairs it.
- A revoked release key can become active again, exactly through a bundle that leaves it out or retires it.

## Model

| member | source | states |
|---|---|---|
| `Protocol.EveryEndingIsWhole` | NightOwl.Agent.Updater/Program.cs:1150-1322 | over every run of saves, file writes (whole or torn), crashes and agent confirmations from a fresh record: a rolled-back or failed update leaves exactly the tree it found; a completed one has every packaged file but the version file installed and nothing else changed, and if its health was confirmed the version file names its target, if not the tree is the one it found; protected files never change |
| `Protocol.GuardedPathsStay` | NightOwl.Agent.Updater/Program.cs:1945-1946 | at no moment of any run, crashes included, is a path touched that ends in a guarded file name or lies below a guarded directory |
| `Protocol.RunIsForward` | NightOwl.Agent.Updater/Program.cs:818-865 | over every run, between any two moments: the phase never goes back, nothing that entered rollback ever completes, an ended record and its installation stay as they are, the attempt count never falls, the request is kept, the reason of a rollback is kept once it is required, and the release and replaced version are fixed once the backup has begun |
| `Protocol.StepIsForward` | NightOwl.Agent.Updater/Program.cs:2838-2857 | one step moves forward in that sense, and raises the rollback attempt only from 0 to 1 out of a required rollback |
| `Protocol.EveryRecordCoheres` | NightOwl.Agent.Updater/Program.cs:818-834 | in every reachable world the record is inactive exactly in a terminal stage and its rollback attempt is 0 or 1 |
| `Protocol.RunKeepsInv` | NightOwl.Agent.Updater/Program.cs:1210-1289 | the per-stage invariant (coherence, attempt count, what each stage says of the installation, a genuine backup from its announcement on) holds in every world of a run |
| `Protocol.StepKeepsInv` | NightOwl.Agent.Updater/Program.cs:2771-2879 | each kind of step keeps that invariant |
| `Protocol.RestoringKeepsInv` | NightOwl.Agent.Updater/Program.cs:2859-2879 | a restore keeps it however far it gets |
| `Protocol.ReplacementKeepsInv` | NightOwl.Agent.Updater/Program.cs:1226-1245 | so does the copying of the package and of the version file |
| `Protocol.SaveKeepsInstall` | NightOwl.Agent.Updater/Program.cs:2703-2716 | a save keeps what each stage says of the installation; in particular the restored version is announced only on the original tree |
| `Protocol.DamageKeepsInv` | NightOwl.Agent.Updater/Program.cs:1838-1887 | damage to the backed-up files from outside keeps the invariant, because the manifest is what a later validation is made against |
| `Protocol.RunsCompose` | NightOwl.Agent.Updater/Program.cs:203-229 | a runner that starts where another stopped continues the same run |
| `Protocol.RunPrefix` | NightOwl.Agent.Updater/Program.cs:203-229 | a run cut short anywhere is a run |
| `Recovery.ClassificationFollowsPhase` | NightOwl.Agent.Updater/Program.cs:818-834 | each recovery action is chosen exactly for the phases it is meant for |
| `Recovery.TerminalMeansInactive` | NightOwl.Agent.Updater/Program.cs:818-834 | recovery calls a coherent record terminal exactly when it is inactive |
| `Recovery.RollbackExitTellsTheTruth` | NightOwl.Agent.Updater/Program.cs:2648-2769 | the rollback exits 0 only on a good ending, and on every good ending exactly unless the agent confirms while nobody looks |
| `Recovery.LateConfirmationIsReportedAsFailure` | NightOwl.Agent.Updater/Program.cs:2741-2750 | a confirmation after the last poll: exit 1 while the record says rolled back |
| `Recovery.RollbackEndsTheUpdate` | NightOwl.Agent.Updater/Program.cs:2652-2672 | a rollback leaves the record terminal exactly unless it can neither begin nor count as begun, as with an attempt count of 0 in a later stage |
| `Recovery.RollbackEndsAs` | NightOwl.Agent.Updater/Program.cs:2648-2769 | a rollback restores the files exactly if it is the first attempt or one already begun; stop, restore and the moment of the confirmation then decide exit code and final stage |
| `Recovery.RequiredRollbackEnds` | NightOwl.Agent.Updater/Program.cs:856-865 | in the invariant an update interrupted in its replacement or its health check has its one attempt left, so its rollback ends in that way |
| `Recovery.ResumedRollbackEnds` | NightOwl.Agent.Updater/Program.cs:2838-2857 | in the invariant only a rollback required a second time fails without trying |
| `Recovery.RollbackPhaseCanEnd` | NightOwl.Agent.Updater/Program.cs:2838-2857 | in the invariant every rollback-phase record is one a rollback can end |
| `Recovery.RollbackNeverCompletes` | NightOwl.Agent.Updater/Program.cs:2648-2769 | no outcome of a rollback is a completed update |
| `Recovery.WaitSeesConfirmation` | NightOwl.Agent.Updater/Program.cs:2605-2637 | the wait for a rollback reports the confirmation exactly when it comes before a poll that finds the service gone, and otherwise leaves the record alone |
| `Recovery.WaitSeesCompletion` | NightOwl.Agent.Updater/Program.cs:2605-2637 | the same for the wait for a completed update |
| `Recovery.WaitReportsTheRecord` | NightOwl.Agent.Updater/Program.cs:2605-2637 | a reported confirmation is on record |
| `Recovery.WaitKeepsPhase` | NightOwl.Agent.Updater/Program.cs:2605-2637 | after a wait the record is the waiting one or the confirmed one |
| `UpdateRecords.UpdateState.MarkStage` | NightOwl.Agent.Shared/UpdateState.cs:198-244 | the new record is the specified one, field by field, with the flags each stage sets |
| `UpdateRecords.UpdateState.MarkFailed` | NightOwl.Agent.Shared/UpdateState.cs:246-252 | error code with its default, rollback flag, stage and status failed |
| `UpdateRecords.UpdateState.MarkRollbackRequired` | NightOwl.Agent.Shared/UpdateState.cs:254-261 | the original error code is kept when no other is given; stage rollback_required |
| `UpdateRecords.UpdateState.MarkRollbackFailed` | NightOwl.Agent.Shared/UpdateState.cs:263-269 | rollback error code with its default; stage and status failed |
| `UpdateRecords.EditsKeepCoherence` | NightOwl.Agent.Shared/UpdateState.cs:179-269 | every record built from Create by the edits the updater and the agent make has status completed iff its stage is Completed, and status failed iff its stage is a failure stage |
| `UpdateRecords.EditKeepsCoherence` | NightOwl.Agent.Shared/UpdateState.cs:198-269 | one edit keeps that |
| `UpdateRecords.MarkedIsCoherent` | NightOwl.Agent.Shared/UpdateState.cs:198-244 | marking a stage gives a coherent record whatever it was before |
| `UpdateStateStores.UpdateStateStore.Load` | NightOwl.Agent.Shared/UpdateState.cs:293-331 | fails exactly on an unreadable or ill-formed file |
| `UpdateStateStores.UpdateStateStore.Save` | NightOwl.Agent.Shared/UpdateState.cs:333-354 | refuses exactly when the file holds the same update, ended; the whole new file is stated |
| `UpdateStateStores.UpdateStateStore.TryTransitionNonTerminal` | NightOwl.Agent.Shared/UpdateState.cs:356-376 | applies exactly to an active record of that update that the transition accepts and the store can write; the whole new file is stated |
| `UpdateStateStores.TerminalIsAbsorbing` | NightOwl.Agent.Shared/UpdateState.cs:333-376 | no interleaving of live saves, stale saves and transitions changes an ended record, while no other id is saved |
| `UpdateStateStores.EndedRecordChangesOnlyForAnotherUpdate` | NightOwl.Agent.Shared/UpdateState.cs:333-376 | one operation changes an ended record exactly when it saves a well-formed record of another update |
| `UpdateStateStores.OneEndingIsObserved` | NightOwl.Agent.Shared/UpdateState.cs:333-376 | two readers who both see an ended update see the same ending |
| `UpdateStateStores.AnotherUpdateOverwritesAnEndedRecord` | NightOwl.Agent.Shared/UpdateState.cs:341-347 | a save under another id does overwrite it |
| `ManagedFiles.ValidateBackup` | NightOwl.Agent.Updater/Program.cs:1838-1887 | accepts exactly the backups whose manifest names the update, the version and the required files, and whose every entry is unprotected, present, of its size and of its hash |
| `ManagedFiles.FreshBackupIsValid` | NightOwl.Agent.Updater/Program.cs:1802-1836 | a fresh backup validates exactly when the installation holds the required files under usable names |
| `ManagedFiles.RestoreInvertsAnyUpdate` | NightOwl.Agent.Updater/Program.cs:2859-2879 | restoring a validated, genuine backup gives back the original tree whatever the managed files have become |
| `ManagedFiles.RestoreIsIdempotent` | NightOwl.Agent.Updater/Program.cs:2859-2879 | restoring again changes nothing, and protected files are never touched |
| `ManagedFiles.UpdateThenRollbackIsIdentity` | NightOwl.Agent.Updater/Program.cs:1968-1973 | copying a package and restoring the backup taken before is the identity on every installation |
| `ManagedFiles.ProtectedDirectoryCoversItsTree` | NightOwl.Agent.Updater/Program.cs:2231-2246 | a protected directory protects everything below it, at any depth |
| `ManagedFiles.VersionFileIsManaged` | NightOwl.Agent.Updater/Program.cs:2231-2246 | agent.version.json is managed, so it is backed up and restored |
| `ManagedFiles.ProtectedMeansGuarded` | NightOwl.Agent.Updater/Program.cs:2231-2246 | for every path, with slashes of either kind, at any depth and in any spelling: it is protected exactly if it ends in one of five file names, or in one that holds token or machine_id, or has one of eight directory names on it |
| `ManagedFiles.GuardedFilesAreKept` | NightOwl.Agent.Updater/Program.cs:2275-2299 | neither a copy nor a restore touches such a path |
| `ManagedFiles.OtherFilesAreManaged` | NightOwl.Agent.Updater/Program.cs:2225-2229 | every other path of a package is copied, and every other one of an installation is backed up |
| `ManagedFiles.ConfigurationIsGuarded` | NightOwl.Agent.Updater/Program.cs:1945-1945 | the agent configuration is such a path in any directory |
| `ManagedFiles.DamageIsCaught` | NightOwl.Agent.Updater/Program.cs:1838-1887 | a backup that validates once validates for exactly its own update and version, and for exactly as long as every file in it is what it was |
| `ManagedFiles.BareNameIsManaged` | NightOwl.Agent.Updater/Program.cs:2231-2246 | a bare name is managed unless it is listed or can hold a guarded word |
| `ManagedFiles.PartOfPackageIsOverwritten` | NightOwl.Agent.Updater/Program.cs:1975-2025 | a copy that stopped early makes no difference to one that gets through |
| `ManagedFiles.OverlayHoldsThePackage` | NightOwl.Agent.Updater/Program.cs:2275-2299 | after the copy every managed packaged file is installed |
| `Runner.Updater.AgentMayAct` | NightOwl.Agent.Updater/Program.cs:2600-2603 | the agent confirms through the store on a waiting record, and can do nothing else |
| `Runner.Updater.Persist` | NightOwl.Agent.Updater/Program.cs:986-994 | a save by the runner is a protocol step, refused exactly when the update has ended |
| `Runner.Updater.Transition` | NightOwl.Agent.Updater/Program.cs:856-865 | a transition on the persisted record is a protocol step, applied exactly to an active record that accepts it |
| `Runner.Updater.CreateBackup` | NightOwl.Agent.Updater/Program.cs:1802-1836 | succeeds exactly when every managed file and the manifest are written, and then leaves exactly the backup of the installation; every intermediate directory is a world of the run |
| `Runner.Updater.CopyStagedFiles` | NightOwl.Agent.Updater/Program.cs:1968-1973 | gets through exactly when its budget of writes lasts, and then leaves the package over the installation |
| `Runner.Updater.CopyStagedFilesWithRetry` | NightOwl.Agent.Updater/Program.cs:1975-2025 | succeeds exactly when one attempt gets through, with the same result |
| `Runner.Updater.WriteLocalVersion` | NightOwl.Agent.Updater/Program.cs:2987-2998 | the version file holds the new content once the write completes |
| `Runner.Updater.DeleteManagedFiles` | NightOwl.Agent.Updater/Program.cs:2861-2864 | deletes exactly the managed files |
| `Runner.Updater.CopyBackedUpFiles` | NightOwl.Agent.Updater/Program.cs:2866-2874 | puts back exactly the files the manifest lists |
| `Runner.Updater.RestoreManagedFiles` | NightOwl.Agent.Updater/Program.cs:2859-2879 | gets through exactly when its budget lasts, and leaves exactly the restored tree |
| `Runner.Updater.WaitForHealthCheck` | NightOwl.Agent.Updater/Program.cs:2605-2637 | result and record are those of the specified wait |
| `Runner.Updater.TryBeginRollback` | NightOwl.Agent.Updater/Program.cs:2838-2857 | starts exactly a required rollback with attempt 0 or a begun one with attempt 1, and counts the attempt |
| `Runner.Updater.RunRollback` | NightOwl.Agent.Updater/Program.cs:2676-2750 | a begun rollback ends as its stop, its restore and its confirmation decide |
| `Runner.Updater.RestoreForRollback` | NightOwl.Agent.Updater/Program.cs:2690-2713 | restores exactly when the backup validates and the writes last; the record fails otherwise |
| `Runner.Updater.ConfirmRollback` | NightOwl.Agent.Updater/Program.cs:2716-2750 | exit code and final stage of the confirmation are the specified ones |
| `Runner.Updater.ExecuteAutomaticRollback` | NightOwl.Agent.Updater/Program.cs:2648-2769 | exit code and final stage are the specified outcome for every record and environment |
| `Runner.Updater.RollBack` | NightOwl.Agent.Updater/Program.cs:2648-2769 | a rollback on a rollback-phase record always ends the update, never as completed, reports truthfully, and has the specified outcome |
| `Runner.Updater.RequireRollback` | NightOwl.Agent.Updater/Program.cs:1081-1087 | an interrupted update is marked with a reason that stays on record, and its one rollback ends as stop, restore and confirmation decide, unless the update has ended by itself |
| `Runner.Updater.BeginInterruptedRollback` | NightOwl.Agent.Updater/Program.cs:856-865 | the same for an update interrupted after replacement began |
| `Runner.Updater.FailSafeInterruptedUpdate` | NightOwl.Agent.Updater/Program.cs:915-942 | with a backup that validates, an unknown stage is rolled back if an attempt is left; otherwise the record is failed and nothing is touched |
| `Runner.Updater.FailPreReplacement` | NightOwl.Agent.Updater/Program.cs:944-961 | fails an active update with code UPDATE_INTERRUPTED and leaves an ended one |
| `Runner.Updater.FailWaitingRollback` | NightOwl.Agent.Updater/Program.cs:1072-1080 | a rollback whose confirmation failed ends as failed, or as confirmed if the agent was faster, and the exit code tells which |
| `Runner.Updater.ResumeInterruptedHealthCheck` | NightOwl.Agent.Updater/Program.cs:996-1088 | from any health-check stage: confirmed before the runner looks, or with the version it expects (the target of an update, the replaced one of a rollback) and in time, it ends well; otherwise a rollback fails and an update is rolled back, with the reason of the step that failed |
| `Runner.Updater.ResumeMatching` | NightOwl.Agent.Updater/Program.cs:1029-1088 | the same once the installed version is the expected one |
| `Runner.Updater.ConfirmResumed` | NightOwl.Agent.Updater/Program.cs:1041-1088 | the same from the service start on |
| `Runner.Updater.AwaitResumed` | NightOwl.Agent.Updater/Program.cs:1036-1071 | the record is confirmed exactly if the agent is in time; a wait that saw it says so |
| `Runner.Updater.BackUp` | NightOwl.Agent.Updater/Program.cs:2775-2801 | goes on exactly when the backup is taken, if it has to be, and validates; fails the update otherwise |
| `Runner.Updater.SettleBackup` | NightOwl.Agent.Updater/Program.cs:2775-2786 | decides exactly whether the backup is taken and validates, and leaves the record before its announcement |
| `Runner.Updater.StopAndQuiesce` | NightOwl.Agent.Updater/Program.cs:2812-2826 | goes on exactly when the service stops and the files are let go; fails the update otherwise |
| `Runner.Updater.PrepareReplacement` | NightOwl.Agent.Updater/Program.cs:2771-2827 | goes on exactly when all of that holds |
| `Runner.Updater.CopyPackage` | NightOwl.Agent.Updater/Program.cs:1226-1242 | the package is installed exactly when one copy attempt gets through |
| `Runner.Updater.FinishReplacement` | NightOwl.Agent.Updater/Program.cs:1244-1288 | from a copied package the update completes exactly when the version file is written, the installation validates and the agent confirms in time; otherwise it is rolled back with the reason of the step that failed |
| `Runner.Updater.ReplaceFiles` | NightOwl.Agent.Updater/Program.cs:1226-1288 | from a quiet installation the update completes exactly when the replacement succeeds and the agent confirms in time; otherwise it is rolled back with the reason of the step that failed |
| `Runner.Updater.StartAndWait` | NightOwl.Agent.Updater/Program.cs:1255-1287 | whether the record is confirmed is decided exactly by the agent being in time; if not, the reason says whether the start failed, the service went away or time ran out |
| `Runner.Updater.RollBackAfter` | NightOwl.Agent.Updater/Program.cs:1290-1298 | a failure after replacement began is rolled back with its reason on record, as far as the environment lets it, unless the agent has completed the update first |
| `Runner.Updater.Replace` | NightOwl.Agent.Updater/Program.cs:1210-1322 | the whole replacement: failed with nothing replaced unless the backup settles and the files are let go, completed exactly when every further condition holds, and rolled back otherwise, with reason and exit code |
| `Runner.Updater.ApplyInterrupted` | NightOwl.Agent.Updater/Program.cs:1150-1322 | on an interrupted apply: an error changes nothing; with versions that no longer match the update fails with nothing replaced; otherwise it ends as the replacement does |
| `Runner.Updater.ResumeInterruptedApply` | NightOwl.Agent.Updater/Program.cs:867-909 | an apply that lacks its paths, its staged release, its rights or its record fails the update with nothing replaced; any other completes exactly when versions still match and everything goes through, and is failed or rolled back otherwise |
| `Runner.Updater.DispatchRecovery` | NightOwl.Agent.Updater/Program.cs:836-854 | None exactly for stages before the backup, changing nothing; every other record is brought to the end its phase calls for, case by case: apply resumed, rolled back, health check resumed, rollback resumed, failed safe, or left as ended |
| `Runner.Updater.Recover` | NightOwl.Agent.Updater/Program.cs:836-854 | which recovery runs, and how it ends, phase by phase |
| `Runner.Updater.RunRecovery` | NightOwl.Agent.Updater/Program.cs:215-229 | the same with the exit code reported from the record, which is always the one the recovery gave |
| `Runner.Updater.ReturnRecovered` | NightOwl.Agent.Updater/Program.cs:963-979 | a completed update, or a resumed rollback wait, is reported exactly by how it ended |
| `Runner.Updater.ApplyStagedUpdate` | NightOwl.Agent.Updater/Program.cs:1150-1322 | on a staged package: an error changes nothing; otherwise the update ends as the replacement does, completes exactly when everything goes through, and carries the release and the replaced version unless it failed |
| `Runner.Updater.InstalledPayloadMatches` | NightOwl.Agent.Updater/Program.cs:2248-2268 | answers exactly whether the package is complete and all of it installed |
| `Runner.Updater.VerifyCurrent` | NightOwl.Agent.Updater/Program.cs:464-485 | an already-current update ends as completed without a health check exactly when the payload matches, and as failed otherwise, with its exit codes |
| `Runner.Updater.ResolveRelease` | NightOwl.Agent.Updater/Program.cs:236-386 | goes on exactly when a job that names a target spells out its release, the release resolves, its manifest is valid, it is the one asked for, and it is forced, newer, or the same and signed; the release is then on record; otherwise the reason is the one of the first thing that is wrong |
| `Runner.Updater.DownloadPackage` | NightOwl.Agent.Updater/Program.cs:411-432 | goes on exactly when the package is downloaded and intact; the reason tells which is not |
| `Runner.Updater.StagePackage` | NightOwl.Agent.Updater/Program.cs:411-461 | the package is staged exactly when it is downloaded, intact and extracted; the update fails with the reason otherwise |
| `Runner.Updater.RunFresh` | NightOwl.Agent.Updater/Program.cs:236-498 | how a new update ends is decided by feed and environment: refused release, hand-over, unusable package, already current, no updater or not its own record, or the replacement; one that ends well either climbed (forced, or to a strictly newer version) or was left as current with nothing replaced |
| `Runner.Updater.RunUpdate` | NightOwl.Agent.Updater/Program.cs:203-498 | a whole runner on any record: one that is not its own is left alone with an error; any other ends as its phase calls for or as the ordinary course does; afterwards the update has ended or nothing is replaced; the exit code is truthful; the tree is whole; for a job with an explicit release every record it persists stays its own, and only a package that cannot be fetched makes it err |
| `Replacement.UpdateConfirmation` | NightOwl.Agent.Updater/Program.cs:1268-1288 | what a runner finds after its wait and after the last chance of the agent |
| `Replacement.ResumedConfirmation` | NightOwl.Agent.Updater/Program.cs:1036-1071 | the same after a resumed wait, on either side |
| `Replacement.EndsByGoingThrough` | NightOwl.Agent.Updater/Program.cs:1210-1322 | an update completes exactly if backup, stop, copy, version file, validation and confirmation all go through |
| `Replacement.RestoreWithin` | NightOwl.Agent.Updater/Program.cs:2859-2879 | a rollback after a replacement, however far that got, restores the files if its budget covers twice the managed files, the package and one more, and not if it does not cover the backed-up ones |
| `Replacement.TiedReleaseMatches` | NightOwl.Agent.Updater/Program.cs:1185-1198 | an interrupted update can be taken up exactly if it replaced a version with a name, that version is still installed, and the package is still of its release and its channel |
| `Replacement.RecoveredStands` | NightOwl.Agent.Updater/Program.cs:963-979 | what is reported from the record after a recovery is what the recovery reported |
| `Replacement.OwnedRunsFetch` | NightOwl.Agent.Updater/Program.cs:709-734 | a runner of a job with an explicit release that owns its record errs only on a package that cannot be fetched |
| `Replacement.NamedReleaseValidates` | NightOwl.Agent.Updater/Program.cs:2579-2598 | the check after replacement fails only without the configuration, the service executable or a version to compare |
| `Replacement.CompletedAsCurrentMove` | NightOwl.Agent.Updater/Program.cs:476-478 | before the backup, completing without a health check is allowed exactly when every packaged file is installed |
| `Replacement.RequestKeptIsRecognised` | NightOwl.Agent.Updater/Program.cs:669-704 | a record that keeps the request of a job with an explicit release is recognised by its runner |
| `Replacement.RunKeepsOwnership` | NightOwl.Agent.Updater/Program.cs:709-734 | over every run, all records after one the runner owns are its own |
| `Replacement.ExplicitJobIsAlwaysRecognised` | NightOwl.Agent.Updater/Program.cs:669-734 | every record of every run of an update bootstrapped for a job with an explicit release answers its runner with Resume until it ends and Terminal afterwards |
| `Invocation.LaunchesNeverDisplace` | NightOwl.Agent.Updater/Program.cs:132-189 | no sequence of launches, of any jobs under any ids, displaces an active record |
| `Invocation.LaunchIsRecorded` | NightOwl.Agent.Updater/Program.cs:167-187 | a fresh launch puts the request on record as an update just received, and the runner it starts resumes that record unless it names a job id without being a job |
| `Invocation.FreshMeansFree` | NightOwl.Agent.Updater/Program.cs:669-704 | Fresh is answered exactly for a missing record or an ended one that is not what was asked for |
| `Invocation.RecognisedMeansSameRequest` | NightOwl.Agent.Updater/Program.cs:669-704 | Resume or Terminal is answered exactly when the id is repeated and, for the record of a job, job, channel, release id, version, checksum and package URL; which one depends on the record |
| `Invocation.OwnInvocationIsRecognised` | NightOwl.Agent.Updater/Program.cs:312-316 | a runner recognises its own record exactly when there is no job, or a proper job whose release is the one it spelled out |
| `Invocation.LatestJobConflictsWithItself` | NightOwl.Agent.Updater/Program.cs:1162-1162 | a job for the latest release conflicts with its own record once the release is resolved |
| `Versions.CompareIdentifierNatural` | NightOwl.Agent.Updater/Program.cs:3200-3239 | the two-index loop computes the run-by-run natural order |
| `Versions.ComparePrerelease` | NightOwl.Agent.Updater/Program.cs:3174-3198 | the loop over identifiers computes the piecewise order |
| `Versions.CompareIsAntisymmetric` | NightOwl.Agent.Updater/Program.cs:3138-3239 | swapping the arguments flips the sign, for all strings |
| `Versions.CompareIsTransitive` | NightOwl.Agent.Updater/Program.cs:3138-3239 | the order is transitive on versions whose digit runs fit Int32 |
| `Versions.UnforcedUpdatesOnlyClimb` | NightOwl.Agent.Updater/Program.cs:3124-3136 | over any chain of unforced allowed updates the version strictly increases, so it never comes back |
| `Versions.AllowedMeansNewer` | NightOwl.Agent.Updater/Program.cs:3124-3136 | an unforced update is allowed exactly to a newer version |
| `Versions.NumbersDecideActions` | NightOwl.Agent.Updater/Program.cs:3124-3136 | from one written release to another an unforced update is allowed exactly if the first differing number grows, blocked exactly if it falls, and current exactly if there is none |
| `Versions.FirstNumberDecides` | NightOwl.Agent.Updater/Program.cs:3138-3160 | whatever the prereleases, the first differing number decides, the smaller one being older, and one that is not written older than any |
| `Versions.SameNumbersAreEqual` | NightOwl.Agent.Updater/Program.cs:3138-3147 | releases with the same numbers are equally new, leading zeros or not |
| `Versions.ReleaseIsNewer` | NightOwl.Agent.Updater/Program.cs:3147-3160 | a release is newer than each of its prereleases |
| `Versions.LongerPrereleaseIsNewer` | NightOwl.Agent.Updater/Program.cs:3174-3182 | a prerelease is older than one that goes on after it |
| `Versions.SmallerIdentifierIsOlder` | NightOwl.Agent.Updater/Program.cs:3183-3192 | where prereleases first differ in numbers, the smaller one is older |
| `Versions.NumberIsOlderThanWord` | NightOwl.Agent.Updater/Program.cs:3183-3192 | where they first differ in a number and a word, the number is older |
| `Versions.SmallerCandidateIsOlder` | NightOwl.Agent.Updater/Program.cs:3200-3239 | where they first differ in words with a number behind, such as rc9 and rc10, the smaller number is older |
| `Versions.WordIsOlderThanCandidate` | NightOwl.Agent.Updater/Program.cs:3238-3238 | a word is older than the same with a number behind |
| `Versions.WordsDecideByLetter` | NightOwl.Agent.Updater/Program.cs:3230-3232 | where they first differ in words, the first differing letter decides in any spelling, and a word is older than one it begins |
| `Versions.DigitsComeBeforeLetters` | NightOwl.Agent.Updater/Program.cs:3226-3229 | an identifier that begins with a digit, and is no number, is older than one that begins with a letter |
| `Versions.UnreadableCountsAsZero` | NightOwl.Agent.Updater/Program.cs:3161-3172 | a text that begins with a letter, or has no dot, counts as 0.0.0 |
| `Versions.BuildIsIgnored` | NightOwl.Agent.Updater/Program.cs:3163-3163 | what is written after a plus sign makes no difference |
| `Versions.CandidatesCompareByRun` | NightOwl.Agent.Updater/Program.cs:3200-3239 | release candidates compare by number when both fit, and as text otherwise |
| `Versions.OversizedRunsMakeACycle` | NightOwl.Agent.Updater/Program.cs:3221-3232 | a candidate whose number is past Int32 takes part in a cycle of three exactly unless the number starts with nine nines |
| `Versions.ShortRunsFit` | NightOwl.Agent.Updater/Program.cs:3221-3226 | a run of one to nine digits fits Int32 |
| `LogTails.Read` | NightOwl.Agent.Shared/LogTailReader.cs:9-48 | rejects limits out of range; otherwise computes the specified tail, through a buffer filled in arbitrary pieces and a bounded queue |
| `LogTails.ReadLast` | NightOwl.Agent.Shared/LogTailReader.cs:41-47 | the queue holds the last lines, and truncation is set exactly when one was dropped or the file was cut |
| `LogTails.StringReader.ReadLine` | NightOwl.Agent.Shared/LogTailReader.cs:39-43 | one line at a time, ended by LF, CR, CR LF or the end |
| `LogTails.TailIsSuffix` | NightOwl.Agent.Shared/LogTailReader.cs:17-48 | the lines returned are the last lines of the file, unchanged, exactly unless a kept line starts the window with a byte-order mark |
| `LogTails.WholeLinesAreKept` | NightOwl.Agent.Shared/LogTailReader.cs:13-47 | from any place in the window at which a line of the file starts, the read holds every line or the last maxLines of them, exactly unless that place is the start of the window and the line there begins with a byte-order mark or follows a carriage return alone |
| `LogTails.LineAfterReturnIsLost` | NightOwl.Agent.Shared/LogTailReader.cs:21-27 | a file on which such a line is lost |
| `LogTails.NoMarkIsLeft` | NightOwl.Agent.Shared/LogTailReader.cs:38-38 | however many byte-order marks the window begins with, none is left |
| `LogTails.WholeFileIsRead` | NightOwl.Agent.Shared/LogTailReader.cs:13-47 | a file that fits gives its last maxLines lines, and truncation exactly when there are more |
| `LogTails.TruncationIsReported` | NightOwl.Agent.Shared/LogTailReader.cs:42-48 | truncation is reported exactly when lines are missing, or a larger file has no line at all; the bytes read are those of the file, or of the window and one more |
| `LogTails.SkippingReachesBoundary` | NightOwl.Agent.Shared/LogTailReader.cs:18-40 | after a cut first line reading goes on at a line boundary of the file: half of a CR LF is never a line |
| `LogTails.LinesFromBoundary` | NightOwl.Agent.Shared/LogTailReader.cs:38-47 | reading from a line boundary gives a suffix of the lines, a proper one unless it is the beginning |
| `LogTails.MarkInsideFileIsLost` | NightOwl.Agent.Shared/LogTailReader.cs:38-38 | a file on which the bounded read and the file disagree |
| `RotatingLogs.RotatingLog.Append` | NightOwl.Agent.Shared/RotatingJsonlLog.cs:52-83 | one attempt, stopped anywhere: outcome and files are decided by the operations that succeed (each expired archive, each file a due rotation moves, the separator, the line), rotation being due exactly when the record would outgrow a file that is not empty; what landed is the old history and at most the chosen line, which is the record itself if it is safe and fits; unless it stops in the expiry pass the records read are a contiguous end of what landed; an appended record is the last line, on its own; every unexpired file but the last archive is still there |
| `RotatingLogs.RotatingLog.AppendAll` | NightOwl.Agent.Shared/RotatingJsonlLog.cs:52-83 | the same over any run of attempts, each stopped anywhere: the history is exactly the lines that landed, in order, and every attempt whose operations all succeed has appended its record |
| `RotatingLogs.EnoughForAll` | NightOwl.Agent.Shared/RotatingJsonlLog.cs:55-82 | an attempt never needs more than two operations for each archive and three more |
| `RotatingLogs.RotatingLog.MakeRoom` | NightOwl.Agent.Shared/RotatingJsonlLog.cs:62-78 | rotates exactly when the record would take an active file that is not empty past its limit, through exactly if every file can be moved; afterwards the record fits |
| `RotatingLogs.RotatingLog.ExpireArchives` | NightOwl.Agent.Shared/RotatingJsonlLog.cs:55-60 | gets through exactly if every expired archive can be deleted, and stops at the first one that cannot; once through, everything left is contiguous |
| `RotatingLogs.RotatingLog.Rotate` | NightOwl.Agent.Shared/RotatingJsonlLog.cs:70-78 | gets through exactly if every file can be moved; wherever it stops, the files from the last on that could be moved have moved up by one and the last archive is gone |
| `RotatingLogs.RotatingLog.WriteRecord` | NightOwl.Agent.Shared/RotatingJsonlLog.cs:79-82 | the record lands in full on a line of its own, or is cut exactly where its operations end; the file is what was there and what landed |
| `RotatingLogs.StoppedExpiryLeavesGap` | NightOwl.Agent.Shared/RotatingJsonlLog.cs:55-60 | in every other case, and with no two equal lines in the history, what is read is not contiguous |
| `RotatingLogs.StoppedExpiryKeepsOrder` | NightOwl.Agent.Shared/RotatingJsonlLog.cs:55-60 | a stopped expiry pass leaves what is read contiguous if no record went with the deleted archives or none is left in those not reached |
| `RotatingLogs.SweptReads` | NightOwl.Agent.Shared/RotatingJsonlLog.cs:55-60 | what is read after a stopped pass is what was read before without the deleted archives |
| `RotatingLogs.ExpiryOutOfOrder` | NightOwl.Agent.Shared/RotatingJsonlLog.cs:55-60 | three records of which the middle one disappears |
| `RotatingLogs.RotationKeepsReading` | NightOwl.Agent.Shared/RotatingJsonlLog.cs:73-76 | at every moment of a rotation, a denied last rename included, the same records are read: all but those of the last archive |
| `RotatingLogs.WrittenRecord` | NightOwl.Agent.Shared/RotatingJsonlLog.cs:79-82 | text at a line start adds the record it completes and nothing when it is cut |
| `RotatingLogs.CutRecordIsNoRecord` | NightOwl.Agent.Shared/RotatingJsonlLog.cs:27-29 | a proper prefix of a record is no record |
| `RotatingLogs.LineFits` | NightOwl.Agent.Shared/RotatingJsonlLog.cs:27-42 | whatever is to be logged, the line that an attempt appends is one record within the limit: the record itself if it is safe and fits, a marker otherwise |
| `RotatingLogs.TimePasses` | NightOwl.Agent.Shared/RotatingJsonlLog.cs:55-60 | archives that expire between attempts are no longer counted on, and the rest stays contiguous |
| `PendingResults.PendingResultQueue.Enqueue` | NightOwl.Agent.Shared/JobState.cs:472-499 | accepts exactly a valid payload within the limits; a refusal changes nothing |
| `PendingResults.PendingResultQueue.EnforceLimits` | NightOwl.Agent.Shared/JobState.cs:597-617 | admits exactly when count and bytes, a replaced file discounted, are within the limits |
| `PendingResults.PendingResultQueue.LoadAll` | NightOwl.Agent.Shared/JobState.cs:511-538 | returns exactly the sound records that are due, once each, in order of creation; every other file is quarantined unless it cannot be moved |
| `PendingResults.PendingResultQueue.MarkAttemptFailed` | NightOwl.Agent.Shared/JobState.cs:544-558 | the stored record is the specified one; the next attempt lies after now and within 930 seconds |
| `PendingResults.PendingResultQueue.MarkSent` | NightOwl.Agent.Shared/JobState.cs:575-590 | an active result is acknowledged and archived; any other is left alone |
| `PendingResults.PendingResultQueue.PruneArchive` | NightOwl.Agent.Shared/JobState.cs:587-589 | leaves at most a thousand archived results in retention; what goes is out of retention or has a thousand as new |
| `PendingResults.PendingResultQueue.Save` | NightOwl.Agent.Shared/JobState.cs:619-625 | a valid record replaces the file of its key |
| `PendingResults.ResultsAreConserved` | NightOwl.Agent.Shared/JobState.cs:472-590 | from its acceptance on a result is in exactly one of queue, quarantine and acknowledged, over every run that does not enqueue or resurrect it; it becomes acknowledged only by an acknowledgement; while failed attempts are recorded of records on file, its readable file holds the accepted payload |
| `PendingResults.EachResultHasOnePlace` | NightOwl.Agent.Shared/JobState.cs:472-617 | one operation keeps a result in one place exactly unless it records a failed attempt of a result that has left the queue |
| `PendingResults.RetryAfterAckResurrects` | NightOwl.Agent.Shared/JobState.cs:544-558 | a failed attempt recorded after the acknowledgement puts the result in two places |
| `PendingResults.SharedFileNamesReplace` | NightOwl.Agent.Shared/JobState.cs:639-643 | two ids with one file name: the second replaces the first |
| `PendingResults.FilesAreShared` | NightOwl.Agent.Shared/JobState.cs:639-643 | two ids share a file exactly if they agree but for the case of letters and for separators and underscores |
| `PendingResults.TamperingIsNoticed` | NightOwl.Agent.Shared/JobState.cs:619-625 | what a save leaves can be loaded, and with any other payload in it it cannot |
| `PendingResults.FailedIsWithheld` | NightOwl.Agent.Shared/JobState.cs:511-558 | after a failed attempt a result is withheld until its delay is over, at least 5 seconds, and due from then on, at the latest after 930 |
| `PendingResults.AttemptsAreCounted` | NightOwl.Agent.Shared/JobState.cs:544-558 | over every run in which failed attempts are recorded of records on file, a result counts them all and holds the error of the last one |
| `PendingResults.CountStaysWithin` | NightOwl.Agent.Shared/JobState.cs:597-617 | no operation exceeds maxRecords, exactly unless it resurrects a result into a full queue |
| `PendingResults.CapacityHolds` | NightOwl.Agent.Shared/JobState.cs:544-617 | over every steady run the count stays within maxRecords and the bytes within the limit plus a fixed growth per record |
| `PendingResults.AdmissionIsWithinLimit` | NightOwl.Agent.Shared/JobState.cs:597-617 | a record is admitted exactly if count and bytes with it, and without a file it replaces, are within the limits |
| `PendingResults.FileWithinGrowth` | NightOwl.Agent.Shared/JobState.cs:548-551 | a record outgrows the size it had when accepted by no more than the fixed growth |
| `PendingResults.RetryDelayBounds` | NightOwl.Agent.Shared/JobState.cs:423-430 | the base delay never shrinks and lies in 5 to 900 seconds; with jitter the delay is above 0 and below 930 |
| `ReleaseTrust.ValidateBundlePolicy` | NightOwl.Agent.Shared/ReleaseTrust.cs:270-323 | accepts exactly proper, unique keys with one active, none of them active again after the current bundle revoked it; a regression is reported exactly when nothing else is wrong |
| `ReleaseTrust.CheckKeys` | NightOwl.Agent.Shared/ReleaseTrust.cs:272-310 | the first pass with its dictionary and counter decides exactly the policy without a current bundle |
| `ReleaseTrust.CheckRevocations` | NightOwl.Agent.Shared/ReleaseTrust.cs:311-321 | the second pass decides exactly whether revocations are kept |
| `ReleaseTrust.Validate` | NightOwl.Agent.Shared/ReleaseTrust.cs:171-256 | accepts exactly the acceptable downloads; the checks before the policy report their own error, in order |
| `ReleaseTrust.AcceptedMeans` | NightOwl.Agent.Shared/ReleaseTrust.cs:171-256 | an accepted bundle is signed by an unrevoked root, is no downgrade, has the installed hash if it has the installed version, and keeps revocations |
| `ReleaseTrust.AcceptedExactly` | NightOwl.Agent.Shared/ReleaseTrust.cs:171-252 | before the policy for its keys a download is accepted exactly if its metadata describe it, the first root of its id has signed it and is neither revoked nor of another kind, it is valid now, and it is no step back from the record |
| `ReleaseTrust.AcceptanceLasts` | NightOwl.Agent.Shared/ReleaseTrust.cs:232-252 | a download accepted once is refused later exactly because it has expired, or because something newer, or something else of its version, is on record, and the refusal says which |
| `ReleaseTrust.InstallationIsRecorded` | NightOwl.Agent.Shared/ReleaseTrust.cs:431-473 | a complete installation leaves the three files that came down and a record of version, hash and root that names as active and as revoked exactly the keys so in use |
| `ReleaseTrust.OnlyWhatWasAskedIsInstalled` | NightOwl.Agent.Shared/ReleaseTrust.cs:574-600 | whatever a synchronization installs, even in part, has the version, the hash and the root that were asked for |
| `ReleaseTrust.ReleaseTrustStore.Install` | NightOwl.Agent.Shared/ReleaseTrust.cs:431-473 | the files after any number of its four writes |
| `ReleaseTrust.ReleaseTrustStore.MarkNoUpdate` | NightOwl.Agent.Shared/ReleaseTrust.cs:475-498 | the state file after a synchronization without update |
| `ReleaseTrust.ReleaseTrustStore.WriteFailure` | NightOwl.Agent.Shared/ReleaseTrust.cs:500-508 | a failure is recorded over the fields kept |
| `ReleaseTrust.ReleaseTrustStore.Sync` | NightOwl.Agent.Shared/ReleaseTrust.cs:574-654 | the files after one synchronization, however far it gets, and when it is reported as failed |
| `ReleaseTrust.TrustIsMonotone` | NightOwl.Agent.Shared/ReleaseTrust.cs:240-252 | over any sequence of synchronizations, successful, failed or cut off, the installed version never decreases and an equal version has an equal hash |
| `ReleaseTrust.FailureKeepsInstalled` | NightOwl.Agent.Shared/ReleaseTrust.cs:500-508 | a rejected or cut synchronization keeps what is on record as installed; a rejected one keeps the bundle files too |
| `ReleaseTrust.RevokedStaysInactive` | NightOwl.Agent.Shared/ReleaseTrust.cs:311-321 | while every bundle on the way lists a key as revoked, the key is active at no point |
| `ReleaseTrust.RevocationEndsInAGap` | NightOwl.Agent.Shared/ReleaseTrust.cs:311-321 | a revoked key that is active at the end of a run went through a bundle, after bundles that all revoke it, that lists it neither as revoked nor as active |
| `ReleaseTrust.KeyMayBecomeActive` | NightOwl.Agent.Shared/ReleaseTrust.cs:311-321 | the policy allows some bundle with a key active exactly when the bundle in use does not revoke it |
| `ReleaseTrust.KeyCanBeActiveNext` | NightOwl.Agent.Shared/ReleaseTrust.cs:574-654 | with a usable root, one synchronization can leave a key active exactly when the bundle in use does not revoke it |
| `ReleaseTrust.SyncKeepsRevocation` | NightOwl.Agent.Shared/ReleaseTrust.cs:311-321 | one synchronization never makes a key active that the bundle in use revokes |
| `ReleaseTrust.DroppedKeyComesBack` | NightOwl.Agent.Shared/ReleaseTrust.cs:311-321 | three installed synchronizations with rising versions: a key is revoked in use, left out, and active in use |
| `ReleaseTrust.CrashIsRepaired` | NightOwl.Agent.Shared/ReleaseTrust.cs:452-470 | an installation cut between its writes is repaired by the same bundle: the files end up as if nothing had happened |
| `ReleaseTrust.FileGoesBack` | NightOwl.Agent.Shared/ReleaseTrust.cs:240-252 | a synchronization takes the bundle file back exactly when it installs a bundle older than the file, which needs a file ahead of the record |
| `ReleaseTrust.AgreementIsKept` | NightOwl.Agent.Shared/ReleaseTrust.cs:431-498 | while record and file agree and nothing is cut off they keep agreeing, and the file never goes back |
| `ReleaseTrust.CutInstallationLetsFileGoBack` | NightOwl.Agent.Shared/ReleaseTrust.cs:431-484 | how a cut installation lets an older bundle replace a newer file |
| `FileStores.StoredFile.WriteWithRetry` | NightOwl.Agent.Shared/NightOwlFileStore.cs:53-86 | the file holds its old content or the new one; which, how many retries and which delays are decided exactly by the attempts |
| `FileStores.DelayDoubles` | NightOwl.Agent.Shared/NightOwlFileStore.cs:129-133 | the retry delay is 100 ms doubled with every retry, up to a second |

## Left out

- Runner.Updater.RestoreManagedFiles: the backup is not damaged while the restore itself is copying; damage before it is a
  step of the protocol and is caught by the validation.
- Runner.Updater.WaitForHealthCheck: time is the number of polls left; the three-second interval and the clock are not
  modelled.
- Runner.Updater.ApplyStagedUpdate: called on a package the runner has just staged, of the release the job asked for if
  it asked for one; the direct `--apply-staged` entry bypasses the protocol.
- Runner.Updater.RunUpdate: the state store answers; exceptions from a failing or corrupted state file, and the handlers
  that mark an update failed because of them, are not modelled.
- Runner.Updater.ReplaceFiles: which exceptions lead to which error code is reduced to one code a step, and error
  messages, reasons and timestamps are not kept.
- Results written for the job queue, messages, the cleaning of the staging directory and the repair of the tray after an
  update: they follow the ending and do not change the record or the installation.
- UpdateRecords.UpdateState.MarkStage: stage and status names are compared in the spelling the updater writes; another
  spelling in the file is an unknown name. Null texts are not modelled.
- Protocol.EveryEndingIsWhole: one update at a time; saves by a second live runner are excluded by the runner's lifetime
  lock. Stale saves after an ending are covered by UpdateStateStores.TerminalIsAbsorbing.
- ManagedFiles.ValidateBackup: paths are in one canonical case with forward slashes; the file system's own case folding
  and reparse points are not modelled.
- Versions.CompareIsAntisymmetric: only ASCII digits, letters and blanks are folded, trimmed or read as numbers.
- LogTails.Read: the file does not shrink between the length query and the read. Lines are bytes between terminators;
  decoding UTF-8 line by line is not modelled.
- RotatingLogs.RotatingLog.Append: records are JSON objects, as every caller writes them; sanitization, reparse checks and
  the lease file are not modelled, the clock does not go back, and the policy is one an append would not refuse.
- PendingResults.PendingResultQueue.MarkAttemptFailed: the attempt counter does not wrap around, and texts are sequences
  of UTF-16 units.
- PendingResults.CapacityHolds: error codes have a bounded length, which the source leaves to its callers.
- PendingResults.PendingResultQueue.LoadAll: a file is sound or not; deserialization and the events raised for the
  diagnostics are not modelled. `IsAcknowledged` and `HasResult`, which look for a file name prefix, are not part of it.
- ReleaseTrust.ReleaseTrustStore.Install: the copy of the previous bundle kept as a backup, times and job ids are left out.
- ReleaseTrust.Validate: signatures and hashes are ideal, XML inspection is a flag of the key, and texts are not trimmed
  before hashes are compared.
- FileStores.StoredFile.WriteWithRetry: the temporary file and its best-effort deletion are not kept as state.
- JobStore (marking, final states, pruning of job records): independent of the queue and easy beside it.
- Windows service control, processes, elevation, shortcuts, HTTP, zip extraction, JSON text, RSA and SHA-256.
- The manual rollback and status commands, the unused staged launcher, diagnostics, tray, uninstaller, path migrations and
  access control lists, terminal consent, telemetry, and the Django service.
- The agent's own health evidence: only its confirmation on the record is modelled; the source of that part is not part of
  this model.
