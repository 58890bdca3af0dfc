/** The runner: the code that drives one update, resumes it after a crash and rolls it back. It works on a store and
    three directory trees; every atomic effect it has is recorded as one step of the protocol, so a crash at any moment
    leaves one of the worlds of `history`. */
module Runner {
  import opened Text
  import opened UpdateRecords
  import opened UpdateStateStores
  import opened ManagedFiles
  import opened Protocol
  import opened Recovery
  import opened Invocation
  import opened Versions
  import opened Replacement

  class Updater {
    const store: UpdateStateStore
    const args: Arguments
    var install: Files
    var staging: Files
    var backup: Option<Backup>

    /** The installation this update found, and every world since the runner started. */
    ghost const original: Files
    ghost var history: seq<World>

    ghost function Now(): World
      requires store.file.Stored?
      reads this, store
    {
      World(store.file.record, install, staging, backup, AskedBy(args))
    }

    /** The record is readable, the history is a run of the protocol that leads to the present, and the present keeps
        the protocol's invariant. */
    ghost predicate Valid()
      reads this, store
    {
      && store.file.Stored? && store.file.record.WellFormed()
      && IsRun(history) && history[|history| - 1] == Now()
      && Inv(original, Now())
    }

    /** A runner starts in whatever world the last one left. */
    constructor (store: UpdateStateStore, args: Arguments, install: Files, staging: Files, backup: Option<Backup>,
                 ghost original: Files)
      requires store.file.Stored? && store.file.record.WellFormed()
      requires Inv(original, World(store.file.record, install, staging, backup, AskedBy(args)))
      ensures Valid() && this.store == store && this.args == args && this.original == original
      ensures Now() == World(store.file.record, install, staging, backup, AskedBy(args)) && history == [Now()]
    {
      this.store, this.args := store, args;
      this.install, this.staging, this.backup := install, staging, backup;
      this.original := original;
      this.history := [World(store.file.record, install, staging, backup, AskedBy(args))];
    }

    /** The record in memory is the persisted one, unless the agent has ended the update behind the runner's back. */
    ghost predicate Tracks(state: UpdateState)
      requires store.file.Stored?
      reads this, store, state
    {
      && state.Snapshot().WellFormed()
      && state.id.updateId == store.file.record.id.updateId
      && (store.file.record.IsActive() ==> store.file.record == state.Snapshot())
    }

    /** Records the effect just made. */
    ghost method Note(a: Action)
      requires store.file.Stored? && store.file.record.WellFormed()
      requires IsRun(history) && Inv(original, history[|history| - 1])
      requires StepBy(a, history[|history| - 1], Now())
      modifies this`history
      ensures Valid() && history == old(history) + [Now()]
    {
      hide StepBy, Inv;
      StepKeepsInv(original, history[|history| - 1], Now());
      var longer := history + [Now()];
      assert longer[..|longer| - 1] == history;
      history := longer;
    }

    /** The agent's only move: confirming health on a record that waits for it. */
    method AgentMayAct(acts: bool)
      requires Valid()
      modifies store, this`history
      ensures Valid() && old(history) <= history
      ensures store.file.record == AgentMoved(old(store.file.record), acts)
    {
      if acts {
        AgentKeepsWellFormed(store.file.record);
        hide Inv, IsRun, AgentConfirmed;
        var confirm := (r: Record) => Some(AgentConfirmed(r));
        var _, _ := store.TryTransitionNonTerminal(store.file.record.id.updateId, confirm);
        Note(AgentConfirms);
      }
    }

    /** Saves the record in memory. A refused save means the update has already ended. */
    method Persist(state: UpdateState) returns (saved: bool)
      requires Valid() && state.Snapshot().WellFormed() && state.id.updateId == store.file.record.id.updateId
      requires store.file.record.IsActive() ==> CanWrite(Now(), state.Snapshot())
      modifies store, this`history
      ensures Valid() && old(history) <= history
      ensures saved <==> old(store.file.record.IsActive())
      ensures store.file == if saved then Stored(state.Snapshot()) else old(store.file)
    {
      hide Inv, IsRun, MayPersist;
      var result := store.Save(state);
      saved := result.value;
      if saved {
        Note(Action.Persist(state.Snapshot()));
      }
    }

    /** Moves the record in memory to a stage and saves it. */
    method Advance(state: UpdateState, stage: Stage) returns (saved: bool)
      requires Valid() && Tracks(state) && !stage.UnknownStage?
      requires store.file.record.IsActive() ==> CanWrite(Now(), Marked(store.file.record, stage))
      modifies store, this`history, state
      ensures Valid() && old(history) <= history && Tracks(state)
      ensures state.Snapshot() == Marked(old(state.Snapshot()), stage)
      ensures saved <==> old(store.file.record.IsActive())
      ensures store.file == if saved then Stored(state.Snapshot()) else old(store.file)
    {
      MarkedIsWellFormed(state.Snapshot(), stage);
      hide Inv, IsRun, CanWrite, Marked, Record.WellFormed, Record.IsActive;
      state.MarkStage(stage);
      saved := Persist(state);
    }

    /** TryTransitionNonTerminal on this update, for a change the protocol allows. */
    method Transition(change: Record -> Option<Record>) returns (applied: bool)
      requires Valid()
      requires store.file.record.IsActive() && change(store.file.record).Some? ==>
                 CanWrite(Now(), change(store.file.record).value)
      modifies store, this`history
      ensures Valid() && old(history) <= history
      ensures applied <==> old(store.file.record.IsActive()) && change(old(store.file.record)).Some?
      ensures store.file == if applied then Stored(change(old(store.file.record)).value) else old(store.file)
    {
      hide Inv, IsRun, MayPersist;
      var result, _ := store.TryTransitionNonTerminal(store.file.record.id.updateId, change);
      applied := result.value;
      if applied {
        Note(Action.Persist(store.file.record));
      }
    }

    // File operations. A budget says how many files are written before an error stops the operation.

    /** Any change to the backup directory while the backup is being made. */
    method WriteBackupDirectory(b: Option<Backup>)
      requires Valid() && store.file.record.IsActive() && store.file.record.stage.CreatingBackup?
      modifies this`backup, this`history
      ensures Valid() && old(history) <= history && backup == b
    {
      hide Inv, IsRun, IsProtected;
      backup := b;
      Note(WriteBackup(b));
    }

    /** CreateBackup: clears the directory, copies every managed file, and writes the manifest last. */
    method CreateBackup(budget: nat) returns (ok: bool)
      requires Valid() && store.file.record.IsActive() && store.file.record.stage.CreatingBackup?
      modifies this`backup, this`history
      ensures Valid() && old(history) <= history
      ensures ok <==> budget > |Managed(install)|
      ensures ok ==> backup == Some(BackupOf(install, store.file.record.id.updateId, store.file.record.fromVersion))
    {
      hide Inv, IsRun, IsProtected, Done, Managed, EntriesFor, EntryFor, StepBy;
      if backup.Some? {
        WriteBackupDirectory(None);
      }
      var copied: Files, entries: map<Path, Entry> := map[], map[];
      NoEntries();
      WriteBackupDirectory(Some(Backup(copied, None)));
      var source := Managed(install);
      DoneBegins(source, map[]);
      var todo, left := source.Keys, budget;
      while todo != {}
        invariant Valid() && old(history) <= history
        invariant todo <= source.Keys && left == budget - (|source| - |todo|)
        invariant copied == Done(source, todo) && entries == EntriesFor(copied)
      {
        if left == 0 {
          return false;
        }
        var p :| p in todo;
        DoneGrows(source, map[], todo, p);
        EntriesGrow(copied, p, source[p]);
        copied, entries := copied[p := source[p]], entries[p := EntryFor(source[p])];
        WriteBackupDirectory(Some(Backup(copied, None)));
        todo, left := todo - {p}, left - 1;
      }
      if left == 0 {
        return false;
      }
      DoneEnds(source);
      var manifest := Manifest(store.file.record.id.updateId, store.file.record.fromVersion, entries);
      WriteBackupDirectory(Some(Backup(copied, Some(manifest))));
      return true;
    }

    /** One file write that a crash can catch half done. */
    method WriteInstalled(p: Path, c: Content, restoring: bool)
      requires Valid() && store.file.record.IsActive()
      requires if restoring then store.file.record.stage.RollbackRestoringFiles? && !IsProtected(p)
               else store.file.record.stage.ReplacingFiles? && p in Managed(staging)
      modifies this`install, this`history
      ensures Valid() && old(history) <= history
      ensures install == old(install)[p := c]
    {
      hide Inv, IsRun, IsProtected;
      var torn: Content := *;
      install := install[p := torn];
      Note(if restoring then RestoreFile(p, torn) else CopyStaged(p, torn));
      install := install[p := c];
      Note(if restoring then RestoreFile(p, c) else CopyStaged(p, c));
    }

    /** CopyStagedFiles: every managed file of the package over the installation. */
    method CopyStagedFiles(budget: nat) returns (ok: bool)
      requires Valid() && store.file.record.IsActive() && store.file.record.stage.ReplacingFiles?
      modifies this`install, this`history
      ensures Valid() && old(history) <= history
      ensures ok <==> budget >= |Managed(staging)|
      ensures ok ==> install == Overlay(old(install), staging) && CopyFinished(Now())
      ensures Overlay(install, staging) == Overlay(old(install), staging)
    {
      hide Inv, IsRun, IsProtected, Done, Managed, Overlay, CopyFinished;
      var source, before := Managed(staging), install;
      DoneBegins(source, install);
      var todo, left := source.Keys, budget;
      while todo != {}
        invariant Valid() && old(history) <= history
        invariant todo <= source.Keys && left == budget - (|source| - |todo|)
        invariant install == before + Done(source, todo)
      {
        if left == 0 {
          PartOfPackageIsOverwritten(before, staging, todo);
          return false;
        }
        var p :| p in todo;
        DoneGrows(source, before, todo, p);
        WriteInstalled(p, source[p], false);
        todo, left := todo - {p}, left - 1;
      }
      PartOfPackageIsOverwritten(before, staging, todo);
      DoneEnds(source);
      WholePackageIsOverlay(before, staging);
      OverlayFinishesCopy(Now(), before);
      return true;
    }

    /** CopyStagedFilesWithRetry: attempts until one gets through or time runs out. */
    method CopyStagedFilesWithRetry(attempts: seq<nat>) returns (ok: bool)
      requires Valid() && store.file.record.IsActive() && store.file.record.stage.ReplacingFiles?
      modifies this`install, this`history
      ensures Valid() && old(history) <= history
      ensures ok <==> CopySucceeds(attempts, staging)
      ensures ok ==> install == Overlay(old(install), staging) && CopyFinished(Now())
    {
      hide Inv, IsRun, IsProtected, CopyFinished, Overlay;
      for i := 0 to |attempts|
        invariant Valid() && old(history) <= history
        invariant Overlay(install, staging) == Overlay(old(install), staging)
        invariant forall k :: 0 <= k < i ==> attempts[k] < |Managed(staging)|
      {
        ok := CopyStagedFiles(attempts[i]);
        if ok {
          return;
        }
      }
      return false;
    }

    /** WriteLocalVersion: the version file names the installed release. */
    method WriteLocalVersion(content: Content, completes: bool)
      requires Valid() && store.file.record.IsActive() && store.file.record.stage.FilesReplaced?
      modifies this`install, this`history
      ensures Valid() && old(history) <= history
      ensures completes ==> install == old(install)[VERSION_FILE := content]
    {
      hide Inv, IsRun, IsProtected;
      var torn: Content := *;
      install := install[VERSION_FILE := torn];
      Note(WriteVersion(torn));
      if completes {
        install := install[VERSION_FILE := content];
        Note(WriteVersion(content));
      }
    }

    /** The first half of a restore: every managed file goes. */
    method DeleteManagedFiles(budget: nat) returns (left: nat, ok: bool)
      requires Valid() && store.file.record.IsActive() && store.file.record.stage.RollbackRestoringFiles?
      modifies this`install, this`history
      ensures Valid() && old(history) <= history
      ensures ok <==> budget >= old(|Managed(install).Keys|)
      ensures ok ==> install == ProtectedPart(old(install)) && left == budget - old(|Managed(install).Keys|)
    {
      hide Inv, IsRun, IsProtected, Managed, ProtectedPart;
      ghost var before := install;
      var todo := Managed(install).Keys;
      left := budget;
      while todo != {}
        invariant Valid() && old(history) <= history
        invariant Managed(install).Keys == todo && left == budget - (|Managed(before).Keys| - |todo|)
        invariant ProtectedPart(install) == ProtectedPart(before)
      {
        if left == 0 {
          return 0, false;
        }
        var p :| p in todo;
        DeletingOne(install, p);
        install := install - {p};
        Note(DeleteManaged(p));
        todo, left := todo - {p}, left - 1;
      }
      DeletedAll(install);
      return left, true;
    }

    /** RestoreManagedFiles: deletes the managed files, copies the backup over, and validates the backup again. */
    method RestoreManagedFiles(budget: nat) returns (ok: bool)
      requires Valid() && store.file.record.IsActive() && store.file.record.stage.RollbackRestoringFiles?
      requires ValidBackup(backup, store.file.record.id.updateId, store.file.record.fromVersion)
      modifies this`install, this`history
      ensures Valid() && old(history) <= history
      ensures ok <==> budget >= old(|Managed(install).Keys|) + |backup.value.manifest.value.files|
      ensures ok ==> install == Restored(old(install), backup.value)
    {
      hide Inv, IsRun, IsProtected;
      ghost var before := install;
      var left, deleted := DeleteManagedFiles(budget);
      if !deleted {
        return false;
      }
      ok := CopyBackedUpFiles(left);
      if ok {
        ok := ValidateBackup(backup, store.file.record.id.updateId, store.file.record.fromVersion);
      }
    }

    /** The second half of a restore: every file the manifest lists comes back. */
    method CopyBackedUpFiles(budget: nat) returns (ok: bool)
      requires Valid() && store.file.record.IsActive() && store.file.record.stage.RollbackRestoringFiles?
      requires ValidBackup(backup, store.file.record.id.updateId, store.file.record.fromVersion)
      modifies this`install, this`history
      ensures Valid() && old(history) <= history
      ensures ok <==> budget >= |backup.value.manifest.value.files|
      ensures ok ==> install == old(install) + BackedUp(backup.value)
    {
      hide Inv, IsRun, IsProtected, Done;
      var source, before := BackedUp(backup.value), install;
      DoneBegins(source, install);
      var todo, left := source.Keys, budget;
      while todo != {}
        invariant Valid() && old(history) <= history
        invariant todo <= source.Keys && left == budget - (|source| - |todo|)
        invariant install == before + Done(source, todo)
      {
        if left == 0 {
          return false;
        }
        var p :| p in todo;
        assert EntryIntact(backup.value, p, backup.value.manifest.value.files[p]);
        DoneGrows(source, before, todo, p);
        WriteInstalled(p, source[p], true);
        todo, left := todo - {p}, left - 1;
      }
      DoneEnds(source);
      return true;
    }

    // Waiting for the agent, and rolling back.

    /** WaitForHealthCheckCore: polls the record and the service until one of them settles the matter. */
    method WaitForHealthCheck(expectRollback: bool, polls: seq<Poll>) returns (result: WaitResult)
      requires Valid()
      modifies store, this`history
      ensures Valid() && old(history) <= history
      ensures (result, store.file.record) == WaitOutcome(old(store.file.record), expectRollback, polls)
    {
      hide Inv, IsRun, AgentMoved;
      ghost var r := store.file.record;
      for i := 0 to |polls|
        invariant Valid() && old(history) <= history
        invariant WaitOutcome(r, expectRollback, polls) == WaitOutcome(store.file.record, expectRollback, polls[i..])
      {
        AgentMayAct(polls[i].confirm);
        var current := store.file.record;
        assert polls[i..][0] == polls[i] && polls[i..][1..] == polls[i + 1..];
        if !expectRollback && current.stage.Completed? {
          return WaitCompleted;
        }
        if expectRollback && current.stage.RolledBack? {
          return WaitRolledBack;
        }
        if current.stage.RollbackFailed? || current.stage.Failed? || (current.rollbackRequired && !expectRollback) {
          return FailedState;
        }
        if polls[i].status.HasExited() {
          return ServiceExitedEarly;
        }
      }
      return Timeout;
    }

    /** Marks the record in memory as a failed rollback and saves it; refused when the agent was faster. */
    method FailRollback(state: UpdateState, code: string)
      requires Valid() && Tracks(state)
      requires store.file.record.IsActive() ==>
                 Phase(store.file.record.stage) == 4 || Phase(store.file.record.stage) == 5 || store.file.record.stage.UnknownStage?
      modifies store, this`history, state
      ensures Valid() && old(history) <= history
      ensures store.file.record == if old(store.file.record.IsActive()) then MarkedRollbackFailed(old(store.file.record), code)
                                   else old(store.file.record)
      ensures old(store.file.record.IsActive()) ==> !store.file.record.IsActive() && store.file.record.stage.RollbackFailed?
    {
      if store.file.record.IsActive() {
        RollbackFailedMove(Now(), code);
      }
      MarkedRollbackFailedIsWellFormed(state.Snapshot(), code);
      hide Inv, IsRun, CanWrite, Record.WellFormed, MarkedRollbackFailed, Phase;
      state.MarkRollbackFailed(code);
      var _ := Persist(state);
    }

    /** TryBeginRollback: the first attempt of a required rollback, or another go at one already begun. */
    method TryBeginRollback() returns (started: bool)
      requires Valid()
      modifies store, this`history
      ensures Valid() && old(history) <= history
      ensures started <==> CanBeginRollback(old(store.file.record))
      ensures store.file.record == if started then BegunRollback(old(store.file.record)) else old(store.file.record)
    {
      var begin := (r: Record) =>
        if r.rollbackAttempt == 0 && r.stage.RollbackRequired? then
          Some(Marked(r.(rollbackAttempt := 1), RollbackStarting))
        else if !IsRollbackWork(r.stage) || r.rollbackAttempt != 1 then None
        else Some(Marked(r, RollbackStarting));
      var r := store.file.record;
      if CanBeginRollback(r) {
        BeginRollbackMove(Now());
        assert r.rollbackAttempt == 1 ==> r.(rollbackAttempt := 1) == r;
        assert begin(r) == Some(BegunRollback(r));
      } else {
        assert r.IsActive() ==> begin(r) == None;
      }
      hide Inv, IsRun, CanWrite, Marked, BegunRollback, CanBeginRollback, IsRollbackWork;
      started := Transition(begin);
    }

    /** The end of a rollback nobody confirmed: the record is loaded again, unless the agent is faster still. */
    method FailUnconfirmed(result: WaitResult, late: bool) returns (exit: int)
      requires Valid()
      requires store.file.record.IsActive() ==> store.file.record.stage.RollbackWaitingHealthCheck?
      modifies store, this`history
      ensures Valid() && old(history) <= history && exit == 1
      ensures var saved := AgentMoved(old(store.file.record), late);
              store.file.record.stage == if saved.IsActive() then RollbackFailed else saved.stage
    {
      if store.file.record.IsActive() {
        WaitingPhases(store.file.record);
      }
      AgentKeepsWellFormed(store.file.record);
      AgentConfirmsOnce(store.file.record);
      hide Inv, IsRun, Phase, AgentConfirmed, MarkedRollbackFailed, Record.WellFormed, Record.IsActive;
      var code := if result.Timeout? then "ROLLBACK_HEALTHCHECK_TIMEOUT"
                  else if result.FailedState? && !IsBlank(store.file.record.rollbackErrorCode) then
                    store.file.record.rollbackErrorCode
                  else DEFAULT_ROLLBACK_ERROR;
      AgentMayAct(late);
      var current := new UpdateState(store.file.record);
      FailRollback(current, code);
      return 1;
    }

    /** From the restored version waiting for its confirmation to the end. */
    method ConfirmRollback(state: UpdateState, s: RollbackScript) returns (exit: int)
      requires Valid() && Tracks(state)
      requires store.file.record.IsActive() && store.file.record.stage.RollbackWaitingHealthCheck?
      modifies store, this`history, state
      ensures Valid() && old(history) <= history
      ensures Outcome(exit, store.file.record.stage) == ConfirmationOutcome(old(store.file.record), s)
    {
      var waiting := store.file.record;
      WaitingPhases(waiting);
      AgentKeepsWellFormed(waiting);
      WaitKeepsPhase(AgentMoved(waiting, s.health.early), true, s.health.polls);
      hide Inv, IsRun, Phase, AgentConfirmed, MarkedRollbackFailed, Record.WellFormed, WaitOutcome;
      AgentMayAct(s.health.early);
      if !s.starts {
        FailRollback(state, "ROLLBACK_SERVICE_START_FAILED");
        return 1;
      }
      var result := WaitForHealthCheck(true, s.health.polls);
      if result.WaitRolledBack? {
        WaitReportsTheRecord(AgentMoved(waiting, s.health.early), true, s.health.polls);
        return 0;
      }
      exit := FailUnconfirmed(result, s.health.late);
    }

    /** MarkStage and PersistRecoveryStage on an active record: nobody else can have ended it in such a stage, so the
        save is never refused here. */
    method MoveTo(state: UpdateState, stage: Stage)
      requires Valid() && Tracks(state) && store.file.record.IsActive()
      requires Follows(store.file.record.stage, stage) && FilesAllow(Now(), stage)
      requires !IsTerminal(stage) && !stage.RollbackStarting? && !stage.UnknownStage?
      modifies store, this`history, state
      ensures Valid() && old(history) <= history && Tracks(state)
      ensures store.file.record == Marked(old(store.file.record), stage)
      ensures store.file.record.IsActive() && store.file.record.stage == stage
      ensures store.file.record.id == old(store.file.record.id)
      ensures store.file.record.fromVersion == old(store.file.record.fromVersion)
      ensures store.file.record.rollbackAttempt == old(store.file.record.rollbackAttempt)
    {
      StageMove(Now(), stage);
      MarkedFacts(store.file.record, stage);
      hide Inv, IsRun, FilesAllow, Follows, CanWrite, Marked, Record.WellFormed, Record.IsActive;
      var saved := Advance(state, stage);
      assert saved;
    }

    /** The first half of the rollback: the service must stop. */
    method StopForRollback(state: UpdateState, stops: bool)
      requires Valid() && Tracks(state)
      requires store.file.record.IsActive() && store.file.record.stage.RollbackStarting?
      modifies store, this`history, state
      ensures Valid() && old(history) <= history
      ensures !stops ==> store.file.record.stage.RollbackFailed? && !store.file.record.IsActive()
      ensures stops ==> Tracks(state) && store.file.record.IsActive() && store.file.record.stage.RollbackStoppingService?
                        && store.file.record.id == old(store.file.record.id)
                        && store.file.record.fromVersion == old(store.file.record.fromVersion)
    {
      hide Inv, IsRun, Record.IsActive, Record.WellFormed, Marked, MarkedRollbackFailed;
      MoveTo(state, RollbackStoppingService);
      if !stops {
        FailRollback(state, "ROLLBACK_SERVICE_STOP_FAILED");
      }
    }

    /** The second half: the backup must validate, before and after the files are restored. */
    method RestoreForRollback(state: UpdateState, budget: nat) returns (ok: bool)
      requires Valid() && Tracks(state)
      requires store.file.record.IsActive() && store.file.record.stage.RollbackStoppingService?
      modifies store, this`install, this`history, state
      ensures Valid() && old(history) <= history
      ensures ok <==> RestoreSucceeds(old(Now()), budget)
      ensures !ok ==> store.file.record.stage.RollbackFailed? && !store.file.record.IsActive()
      ensures ok ==> Tracks(state) && store.file.record.IsActive() && store.file.record.stage.RollbackRestoringFiles?
                     && RestoreFinished(Now())
    {
      hide Inv, IsRun, Record.IsActive, Marked, MarkedRollbackFailed, ValidBackup, RestoreFinished, RestoreSucceeds,
           Follows, FilesAllow;
      RollbackStageOrder();
      NeedsNoFiles(Now(), RollbackRestoringFiles);
      ghost var w := Now();
      MoveTo(state, RollbackRestoringFiles);
      RestoreSucceedsAlike(w, Now(), budget);
      InvalidBackupCannotRestore(Now(), budget);
      ok := ValidateBackup(backup, state.id.updateId, state.fromVersion);
      if ok {
        ok := RestoreValidated(state, budget);
      } else {
        FailRollback(state, "ROLLBACK_BACKUP_INVALID");
      }
    }

    method RestoreValidated(state: UpdateState, budget: nat) returns (ok: bool)
      requires Valid() && Tracks(state)
      requires store.file.record.IsActive() && store.file.record.stage.RollbackRestoringFiles?
      requires ValidBackup(backup, store.file.record.id.updateId, store.file.record.fromVersion)
      modifies store, this`install, this`history, state
      ensures Valid() && old(history) <= history
      ensures ok <==> RestoreSucceeds(old(Now()), budget)
      ensures !ok ==> store.file.record.stage.RollbackFailed? && !store.file.record.IsActive()
      ensures ok ==> Tracks(state) && store.file.record.IsActive() && store.file.record.stage.RollbackRestoringFiles?
                     && RestoreFinished(Now())
    {
      hide Inv, IsRun, Record.IsActive, Record.WellFormed, MarkedRollbackFailed, ValidManifest, Restored;
      RestoreIsIdempotent(install, backup.value, state.id.updateId, state.fromVersion);
      ok := RestoreManagedFiles(budget);
      if ok {
        SaveRestoredCount(state);
      } else {
        FailRollback(state, "ROLLBACK_FILE_RESTORE_FAILED");
      }
    }

    method SaveRestoredCount(state: UpdateState)
      requires Valid() && Tracks(state) && backup.Some? && backup.value.manifest.Some?
      requires store.file.record.IsActive() && store.file.record.stage.RollbackRestoringFiles?
      modifies store, this`history, state
      ensures Valid() && old(history) <= history && Tracks(state)
      ensures store.file.record == old(store.file.record).(restoredFileCount := |backup.value.manifest.value.files|)
      ensures store.file.record.IsActive()
    {
      RestoredCountMove(Now(), |backup.value.manifest.value.files|);
      hide Inv, IsRun, CanWrite;
      state.restoredFileCount := |backup.value.manifest.value.files|;
      var _ := Persist(state);
    }

    /** A rollback that has begun: its outcome is decided by the restore and the confirmation. */
    method RunRollback(s: RollbackScript) returns (exit: int)
      requires Valid() && store.file.record.IsActive() && store.file.record.stage.RollbackStarting?
      modifies store, this`install, this`history
      ensures Valid() && old(history) <= history
      ensures var waiting := Marked(old(store.file.record), RollbackWaitingHealthCheck);
              Outcome(exit, store.file.record.stage)
              == if s.stops && RestoreSucceeds(old(Now()), s.restoreBudget) then ConfirmationOutcome(waiting, s)
                 else Outcome(1, RollbackFailed)
    {
      hide Inv, IsRun, Marked, Record.IsActive, ConfirmationOutcome, ValidBackup, RestoreFinished, Follows, FilesAllow;
      ghost var waiting := Marked(store.file.record, RollbackWaitingHealthCheck);
      MarkedFacts(store.file.record, RollbackWaitingHealthCheck);
      var state := new UpdateState(store.file.record);
      StopForRollback(state, s.stops);
      if !s.stops {
        return 1;
      }
      var restored := RestoreForRollback(state, s.restoreBudget);
      if !restored {
        return 1;
      }
      exit := StartRestored(state, s);
    }

    /** Starts the restored version and waits for its confirmation. */
    method StartRestored(state: UpdateState, s: RollbackScript) returns (exit: int)
      requires Valid() && Tracks(state)
      requires store.file.record.IsActive() && store.file.record.stage.RollbackRestoringFiles? && RestoreFinished(Now())
      modifies store, this`history, state
      ensures Valid() && old(history) <= history
      ensures forall waiting: Record :: waiting.IsActive() && waiting.stage.RollbackWaitingHealthCheck? ==>
                Outcome(exit, store.file.record.stage) == ConfirmationOutcome(waiting, s)
    {
      RollbackStageOrder();
      assert FilesAllow(Now(), RollbackStartingService);
      hide Inv, IsRun, Marked, Record.IsActive, ConfirmationOutcome, ValidBackup, RestoreFinished, Follows, FilesAllow;
      MoveTo(state, RollbackStartingService);
      NeedsNoFiles(Now(), RollbackWaitingHealthCheck);
      MoveTo(state, RollbackWaitingHealthCheck);
      ghost var here := store.file.record;
      exit := ConfirmRollback(state, s);
      forall waiting: Record | waiting.IsActive() && waiting.stage.RollbackWaitingHealthCheck?
        ensures Outcome(exit, store.file.record.stage) == ConfirmationOutcome(waiting, s)
      {
        ConfirmationOfAnyWaitingRecord(here, waiting, s);
      }
    }

    /** ExecuteAutomaticRollbackCore. */
    method ExecuteAutomaticRollback(s: RollbackScript) returns (exit: int)
      requires Valid()
      modifies store, this`install, this`history
      ensures Valid() && old(history) <= history
      ensures Outcome(exit, store.file.record.stage)
              == RollbackOutcome(old(store.file.record), RestoreSucceeds(old(Now()), s.restoreBudget), s)
      ensures !old(store.file.record.IsActive()) ==> store.file == old(store.file) && install == old(install)
    {
      var found := store.file.record;
      BegunFacts(found);
      var started := TryBeginRollback();
      if !started {
        exit := ReportUnstarted(s.health.late);
        return;
      }
      hide Inv, IsRun, BegunRollback, ConfirmationOutcome, ValidBackup;
      exit := RunRollback(s);
    }

    /** What a rollback that did not start reports, and how it ends an update whose attempt is used up. */
    method ReportUnstarted(late: bool) returns (exit: int)
      requires Valid() && !CanBeginRollback(store.file.record)
      modifies store, this`history
      ensures Valid() && old(history) <= history
      ensures forall restores, s: RollbackScript :: s.health.late == late ==>
                Outcome(exit, store.file.record.stage) == RollbackOutcome(old(store.file.record), restores, s)
      ensures !old(store.file.record.IsActive()) ==> store.file == old(store.file)
    {
      var r := store.file.record;
      if r.stage.Completed? {
        return 0;
      }
      if !r.IsActive() {
        return TerminalExit(r);
      }
      if r.rollbackAttempt >= 1 {
        var state := new UpdateState(r);
        UsedUpAttempt(original, Now());
        AgentKeepsWellFormed(r);
        hide Inv, IsRun, Phase, AgentConfirmed, MarkedRollbackFailed, Record.WellFormed;
        AgentMayAct(late);
        FailRollback(state, DEFAULT_ROLLBACK_ERROR);
      }
      return 1;
    }

    // Recovery after a crash.

    /** A rollback on a record that can be rolled back always ends the update. */
    method RollBack(s: RollbackScript) returns (exit: int)
      requires Valid()
      requires store.file.record.IsActive() ==> Phase(store.file.record.stage) == 4
      modifies store, this`install, this`history
      ensures Valid() && old(history) <= history
      ensures !store.file.record.IsActive() && Truthful(exit, store.file.record, s)
      ensures old(store.file.record.IsActive()) ==> !store.file.record.stage.Completed?
      ensures Outcome(exit, store.file.record.stage)
              == RollbackOutcome(old(store.file.record), RestoreSucceeds(old(Now()), s.restoreBudget), s)
    {
      if store.file.record.IsActive() {
        RollbackPhaseCanEnd(original, Now());
      }
      ghost var w := Now();
      InvIsCoherent(original, w);
      hide IsRun, RollbackOutcome, RestoreSucceeds, CanBeginRollback, Inv, Phase;
      exit := ExecuteAutomaticRollback(s);
      InvIsCoherent(original, Now());
      RollbackOutcomeIsFinal(w.rec, RestoreSucceeds(w, s.restoreBudget), s, exit, store.file.record);
    }

    /** Marks the persisted record as needing a rollback, and rolls back unless the update has ended by itself. */
    method RequireRollback(code: string, s: RollbackScript) returns (exit: int)
      requires Valid() && !IsBlank(code)
      requires store.file.record.IsActive() ==>
                 || Phase(store.file.record.stage) == 2 || Phase(store.file.record.stage) == 3
                 || (store.file.record.stage.UnknownStage?
                     && ValidBackup(backup, store.file.record.id.updateId, store.file.record.fromVersion))
      modifies store, this`install, this`history
      ensures Valid() && old(history) <= history
      ensures !store.file.record.IsActive() && Truthful(exit, store.file.record, s)
      ensures old(store.file.record.IsActive()) ==>
                && Outcome(exit, store.file.record.stage)
                   == RequiredEnding(old(store.file.record), RestoreSucceeds(old(Now()), s.restoreBudget), s)
                && store.file.record.errorCode == code && !store.file.record.stage.Completed?
      ensures !old(store.file.record.IsActive()) ==>
                store.file == old(store.file) && exit == TerminalExit(store.file.record)
    {
      ghost var before := Now();
      if store.file.record.IsActive() {
        RollbackRequiredMove(Now(), code);
        RollbackRequiredFacts(store.file.record, code);
        RequiredRollbackEnds(original, before, code, RestoreSucceeds(before, s.restoreBudget), s);
      }
      hide Inv, IsRun, CanWrite, MarkedRollbackRequired, ValidBackup, RestoreSucceeds, RollbackOutcome, RequiredEnding,
           Truthful;
      var require := (r: Record) => Some(MarkedRollbackRequired(r, code));
      var _ := Transition(require);
      if store.file.record.IsActive() {
        RestoreSucceedsAlike(before, Now(), s.restoreBudget);
        exit := RollBackRequired(s);
      } else {
        TerminalIsTruthful(store.file.record, s);
        exit := TerminalExit(store.file.record);
      }
    }

    /** The rollback of a record marked for it; the reason stays on record. */
    method RollBackRequired(s: RollbackScript) returns (exit: int)
      requires Valid() && store.file.record.IsActive() && Phase(store.file.record.stage) == 4
      modifies store, this`install, this`history
      ensures Valid() && old(history) <= history
      ensures !store.file.record.IsActive() && Truthful(exit, store.file.record, s)
      ensures !store.file.record.stage.Completed?
      ensures store.file.record.errorCode == old(store.file.record.errorCode)
      ensures Outcome(exit, store.file.record.stage)
              == RollbackOutcome(old(store.file.record), RestoreSucceeds(old(Now()), s.restoreBudget), s)
    {
      hide Inv, IsRun, RestoreSucceeds, RollbackOutcome, Truthful, Phase;
      RunsAreNonempty(history);
      ghost var k := |history| - 1;
      exit := RollBack(s);
      RunIsForward(history, k, |history| - 1);
    }

    /** BeginInterruptedRollback. */
    method BeginInterruptedRollback(s: RollbackScript) returns (exit: int)
      requires Valid()
      requires store.file.record.IsActive() ==>
                 || Phase(store.file.record.stage) == 2 || Phase(store.file.record.stage) == 3
                 || (store.file.record.stage.UnknownStage?
                     && ValidBackup(backup, store.file.record.id.updateId, store.file.record.fromVersion))
      modifies store, this`install, this`history
      ensures Valid() && old(history) <= history
      ensures !store.file.record.IsActive() && Truthful(exit, store.file.record, s)
      ensures old(store.file.record.IsActive()) ==>
                && Outcome(exit, store.file.record.stage)
                   == RequiredEnding(old(store.file.record), RestoreSucceeds(old(Now()), s.restoreBudget), s)
                && store.file.record.errorCode == "UPDATE_INTERRUPTED" && !store.file.record.stage.Completed?
    {
      hide Inv, IsRun, Phase, ValidBackup, Truthful, RequiredEnding, RestoreSucceeds;
      assert !IsWhite("UPDATE_INTERRUPTED"[0]);
      exit := RequireRollback("UPDATE_INTERRUPTED", s);
    }

    /** FailSafeInterruptedUpdateCore: an unknown stage is rolled back if its backup validates, and failed if not. */
    method FailSafeInterruptedUpdate(s: RollbackScript) returns (exit: int)
      requires Valid() && store.file.record.IsActive() && store.file.record.stage.UnknownStage?
      modifies store, this`install, this`history
      ensures Valid() && old(history) <= history
      ensures !store.file.record.IsActive() && Truthful(exit, store.file.record, s)
      ensures if old(!IsBlank(store.file.record.backupPath)
                     && ValidBackup(backup, store.file.record.id.updateId, store.file.record.fromVersion)) then
                && Outcome(exit, store.file.record.stage)
                   == RequiredEnding(old(store.file.record), RestoreSucceeds(old(Now()), s.restoreBudget), s)
                && store.file.record.errorCode == "UPDATE_INTERRUPTED"
              else
                && exit == 1 && install == old(install)
                && store.file.record == MarkedRollbackFailed(old(store.file.record), "ROLLBACK_BACKUP_INVALID")
    {
      var valid := false;
      if !IsBlank(store.file.record.backupPath) {
        valid := ValidateBackup(backup, store.file.record.id.updateId, store.file.record.fromVersion);
      }
      hide Inv, IsRun, ValidBackup, IsBlank, RequiredEnding, RestoreSucceeds, Truthful;
      if valid {
        exit := BeginInterruptedRollback(s);
        return;
      }
      RollbackFailedMove(Now(), "ROLLBACK_BACKUP_INVALID");
      MarkedRollbackFailedIsWellFormed(store.file.record, "ROLLBACK_BACKUP_INVALID");
      hide CanWrite, MarkedRollbackFailed;
      var fail := (r: Record) => Some(MarkedRollbackFailed(r, "ROLLBACK_BACKUP_INVALID"));
      var _ := Transition(fail);
      RollbackFailedIsTruthful(store.file.record, s);
      return 1;
    }

    /** FailPreReplacement: the update ends as failed with nothing replaced. The restart of the service is best effort. */
    method FailPreReplacement() returns (exit: int)
      requires Valid()
      requires store.file.record.IsActive() ==>
                 Phase(store.file.record.stage) <= 1 && !store.file.record.stage.UnknownStage?
      modifies store, this`history
      ensures Valid() && old(history) <= history && exit == 1
      ensures store.file.record == if old(store.file.record.IsActive()) then
                                     MarkedFailed(old(store.file.record), "UPDATE_INTERRUPTED")
                                   else old(store.file.record)
      ensures !store.file.record.IsActive()
      ensures old(store.file.record.IsActive()) ==>
                store.file.record.stage.Failed? && store.file.record.errorCode == "UPDATE_INTERRUPTED"
    {
      if store.file.record.IsActive() {
        FailedMove(Now(), "UPDATE_INTERRUPTED");
        MarkedFailedFacts(store.file.record, "UPDATE_INTERRUPTED");
      }
      hide Inv, IsRun, CanWrite, MarkedFailed, Phase;
      var fail := (r: Record) => Some(MarkedFailed(r, "UPDATE_INTERRUPTED"));
      var _ := Transition(fail);
      return 1;
    }

    /** Fails the confirmation of a rollback; if the agent was faster, the record stays rolled back and the exit code
        says so. */
    method FailWaitingRollback(code: string) returns (exit: int)
      requires Valid()
      requires store.file.record.IsActive() ==> Phase(store.file.record.stage) == 5
      modifies store, this`history
      ensures Valid() && old(history) <= history
      ensures !store.file.record.IsActive()
      ensures store.file.record == if old(store.file.record.IsActive()) then MarkedRollbackFailed(old(store.file.record), code)
                                   else old(store.file.record)
      ensures exit == if store.file.record.stage.RolledBack? then 0 else 1
    {
      if store.file.record.IsActive() {
        RollbackFailedMove(Now(), code);
        MarkedRollbackFailedIsWellFormed(store.file.record, code);
      }
      hide Inv, IsRun, CanWrite, MarkedRollbackFailed, Phase;
      var fail := (r: Record) => Some(MarkedRollbackFailed(r, code));
      var _ := Transition(fail);
      exit := if store.file.record.stage.RolledBack? then TerminalExit(store.file.record) else 1;
    }

    // Resuming an interrupted health check.

    /** ResumeInterruptedHealthCheck, from its version check on: the version found must be the one the record expects. */
    method ResumeInterruptedHealthCheck(s: Environment) returns (exit: int)
      requires Valid() && store.file.record.IsActive()
      requires Phase(store.file.record.stage) == 3 || Phase(store.file.record.stage) == 5
      modifies store, this`install, this`history
      ensures Valid() && old(history) <= history
      ensures !store.file.record.IsActive() && Truthful(exit, store.file.record, s.rollback)
      ensures HealthEnds(old(Now()), s, exit, store.file.record)
    {
      var state := store.file.record;
      var restoring := state.stage.RollbackWaitingHealthCheck?;
      var expected := if restoring then state.fromVersion else state.id.targetVersion;
      AgentMoveKeepsHealthPhase(state, s.before);
      FirstAttempt(original, Now());
      hide Inv, IsRun, Phase, AgentConfirmed, Truthful, Record.IsActive, Record.WellFormed, Marked, CompareVersions,
           LoadInstalledVersion, IsBlank, ConfirmationEnds, HealthFails;
      AgentMayAct(s.before);
      var installed := LoadInstalledVersion(install, s.configured);
      var found := !IsBlank(expected) && CompareVersions(installed, expected) == 0;
      exit := ResumeFound(restoring, state.stage.WaitingHealthCheck?, found, s);
    }

    /** From the version check on. */
    method ResumeFound(restoring: bool, waiting: bool, found: bool, s: Environment) returns (exit: int)
      requires Valid() && !(restoring && waiting)
      requires store.file.record.IsActive() ==>
                 && store.file.record.rollbackAttempt == (if restoring then 1 else 0)
                 && if restoring then store.file.record.stage.RollbackWaitingHealthCheck?
                    else if waiting then store.file.record.stage.WaitingHealthCheck?
                    else store.file.record.stage.StartingService? || store.file.record.stage.ServiceStarted?
      requires restoring && !store.file.record.IsActive() ==> store.file.record.stage.RolledBack?
      modifies store, this`install, this`history
      ensures Valid() && old(history) <= history
      ensures !store.file.record.IsActive() && Truthful(exit, store.file.record, s.rollback)
      ensures !old(store.file.record.IsActive()) ==> store.file == old(store.file) && exit == TerminalExit(store.file.record)
      ensures old(store.file.record.IsActive()) ==>
                if found then ConfirmationEnds(restoring, old(Now()), s, exit, store.file.record)
                else HealthFails(restoring, old(Now()), s.rollback, "ROLLBACK_VERSION_MISMATCH",
                                 "UPDATE_HEALTHCHECK_VERSION_MISMATCH", exit, store.file.record)
    {
      hide Inv, IsRun, AgentConfirmed, Truthful, Record.IsActive, Record.WellFormed, Marked, ConfirmationEnds, HealthFails;
      if found {
        exit := ResumeMatching(restoring, waiting, s);
      } else {
        exit := FailHealth(restoring, "ROLLBACK_VERSION_MISMATCH", "UPDATE_HEALTHCHECK_VERSION_MISMATCH", s.rollback);
      }
    }

    /** The version is the expected one: an update goes on to wait, and the record is loaded again. */
    method ResumeMatching(restoring: bool, waiting: bool, s: Environment) returns (exit: int)
      requires Valid() && !(restoring && waiting)
      requires store.file.record.IsActive() ==>
                 && store.file.record.rollbackAttempt == (if restoring then 1 else 0)
                 && if restoring then store.file.record.stage.RollbackWaitingHealthCheck?
                    else if waiting then store.file.record.stage.WaitingHealthCheck?
                    else store.file.record.stage.StartingService? || store.file.record.stage.ServiceStarted?
      modifies store, this`install, this`history
      ensures Valid() && old(history) <= history
      ensures !store.file.record.IsActive() && Truthful(exit, store.file.record, s.rollback)
      ensures old(store.file.record.IsActive()) ==>
                ConfirmationEnds(restoring, old(Now()), s, exit, store.file.record)
      ensures !old(store.file.record.IsActive()) ==> store.file == old(store.file) && exit == TerminalExit(store.file.record)
    {
      MarkedFacts(store.file.record, WaitingHealthCheck);
      hide Inv, IsRun, Truthful, Record.IsActive, Record.WellFormed, Marked, Phase, ConfirmationEnds;
      ghost var before := Now();
      EnterHealthCheck(restoring || waiting);
      if !store.file.record.IsActive() {
        TerminalIsTruthful(store.file.record, s.rollback);
        return TerminalExit(store.file.record);
      }
      ConfirmationEndsAlike(restoring, before, Now(), s);
      exit := ConfirmResumed(restoring, s);
    }

    /** An update not yet waiting for its health check starts to wait. */
    method EnterHealthCheck(waiting: bool)
      requires Valid()
      requires store.file.record.IsActive() && !waiting ==>
                 store.file.record.stage.StartingService? || store.file.record.stage.ServiceStarted?
      modifies store, this`history
      ensures Valid() && old(history) <= history
      ensures store.file.record == if old(store.file.record.IsActive()) && !waiting
                                   then Marked(old(store.file.record), WaitingHealthCheck) else old(store.file.record)
    {
      if store.file.record.IsActive() && !waiting {
        UpdateStageOrder();
        NeedsNoFiles(Now(), WaitingHealthCheck);
        StageMove(Now(), WaitingHealthCheck);
      }
      if !waiting {
        hide Inv, IsRun, CanWrite, Marked;
        var enter := (r: Record) => Some(Marked(r, WaitingHealthCheck));
        var _ := Transition(enter);
      }
    }

    /** Starts the service if it is down and waits for the agent; answers whether the wait saw what it waited for. */
    method AwaitResumed(restoring: bool, s: Environment) returns (seen: bool)
      requires Valid() && store.file.record.IsActive()
      requires if restoring then store.file.record.stage.RollbackWaitingHealthCheck?
               else store.file.record.stage.WaitingHealthCheck?
      modifies store, this`history
      ensures Valid() && old(history) <= history
      ensures store.file.record == old(store.file.record) || store.file.record == AgentConfirmed(old(store.file.record))
      ensures store.file.record == AgentConfirmed(old(store.file.record)) <==> ConfirmedResumed(s)
      ensures seen ==> ConfirmedResumed(s)
    {
      hide Inv, IsRun, Phase, AgentConfirmed, WaitOutcome, Record.IsActive, Record.WellFormed, ConfirmedWhilePolling;
      HealthWaitFacts(store.file.record);
      ResumedConfirmation(original, Now(), restoring, s);
      AgentMayAct(s.health.early);
      if !s.running && !s.starts {
        return false;
      }
      var result := WaitForHealthCheck(restoring, s.health.polls);
      seen := if restoring then result.WaitRolledBack? else result.WaitCompleted?;
      if !seen {
        AgentMayAct(s.health.late);
      }
    }

    /** What a resumed health check comes to. */
    method ConfirmResumed(restoring: bool, s: Environment) returns (exit: int)
      requires Valid() && store.file.record.IsActive()
      requires if restoring then store.file.record.stage.RollbackWaitingHealthCheck?
               else store.file.record.stage.WaitingHealthCheck? && store.file.record.rollbackAttempt == 0
      modifies store, this`install, this`history
      ensures Valid() && old(history) <= history
      ensures !store.file.record.IsActive() && Truthful(exit, store.file.record, s.rollback)
      ensures ConfirmationEnds(restoring, old(Now()), s, exit, store.file.record)
    {
      HealthWaitFacts(store.file.record);
      hide Inv, IsRun, Phase, AgentConfirmed, Record.IsActive, Record.WellFormed, Truthful, ConfirmedResumed,
           HealthFails;
      var seen := AwaitResumed(restoring, s);
      if seen {
        TerminalIsTruthful(store.file.record, s.rollback);
        return 0;
      }
      exit := FailHealth(restoring,
                         if s.running || s.starts then "ROLLBACK_HEALTHCHECK_TIMEOUT" else "ROLLBACK_SERVICE_START_FAILED",
                         if s.running || s.starts then "UPDATE_HEALTHCHECK_TIMEOUT" else "UPDATE_SERVICE_START_FAILED",
                         s.rollback);
    }

    /** A health check that is not met fails a rollback and rolls back an update, unless the agent was faster. */
    method FailHealth(restoring: bool, rollbackCode: string, updateCode: string, s: RollbackScript) returns (exit: int)
      requires Valid() && rollbackCode != "" && !IsWhite(rollbackCode[0]) && updateCode != "" && !IsWhite(updateCode[0])
      requires store.file.record.IsActive() ==>
                 if restoring then Phase(store.file.record.stage) == 5
                 else Phase(store.file.record.stage) == 3 && store.file.record.rollbackAttempt == 0
      requires restoring && !store.file.record.IsActive() ==> store.file.record.stage.RolledBack?
      modifies store, this`install, this`history
      ensures Valid() && old(history) <= history
      ensures !store.file.record.IsActive() && Truthful(exit, store.file.record, s)
      ensures !old(store.file.record.IsActive()) ==> store.file == old(store.file) && exit == TerminalExit(store.file.record)
      ensures old(store.file.record.IsActive()) ==>
                HealthFails(restoring, old(Now()), s, rollbackCode, updateCode, exit, store.file.record)
    {
      if restoring {
        if store.file.record.IsActive() {
          MarkedRollbackFailedIsWellFormed(store.file.record, rollbackCode);
        }
        hide Inv, IsRun, Phase, RestoreSucceeds, RollbackEnding;
        exit := FailWaitingRollback(rollbackCode);
      } else {
        hide Inv, IsRun, Phase, Truthful, RestoreSucceeds, RollbackEnding;
        exit := RequireRollback(updateCode, s);
      }
    }

    // Replacing the files.

    /** The first half of PrepareReplacement: a backup that validates, or the end of the update. */
    method BackUp(state: UpdateState, recreate: bool, recovering: bool, budget: nat) returns (ok: bool)
      requires Valid() && Tracks(state) && store.file.record.IsActive()
      requires if recreate then IsNormal(store.file.record.stage) || store.file.record.stage.CreatingBackup?
               else IsPreReplacement(store.file.record.stage) && !store.file.record.stage.CreatingBackup?
      modifies store, this`backup, this`history, state
      ensures Valid() && old(history) <= history
      ensures ok <==> BackupSettles(old(Now()), recreate, budget)
      ensures ok ==> Tracks(state) && Continues(old(store.file.record), store.file.record, BackupCreated)
      ensures ok ==> ValidBackup(backup, store.file.record.id.updateId, store.file.record.fromVersion)
      ensures !ok ==> store.file.record.stage.Failed? && !store.file.record.IsActive()
                      && store.file.record.errorCode == if recovering then "UPDATE_INTERRUPTED" else "UPDATE_BACKUP_FAILED"
    {
      PreparationPhases();
      hide Inv, IsRun, Record.IsActive, Record.WellFormed, FilesAllow, Phase, BackupSettles, IsNormal, ValidBackup;
      ok := SettleBackup(state, recreate, budget);
      if ok {
        MoveTo(state, BackupCreated);
      } else if recovering {
        var _ := FailPreReplacement();
      } else {
        FailUpdate(state, "UPDATE_BACKUP_FAILED");
      }
    }

    /** Takes the backup, if it has to be taken, and validates it. */
    method SettleBackup(state: UpdateState, recreate: bool, budget: nat) returns (ok: bool)
      requires Valid() && Tracks(state) && store.file.record.IsActive()
      requires if recreate then IsNormal(store.file.record.stage) || store.file.record.stage.CreatingBackup?
               else IsPreReplacement(store.file.record.stage) && !store.file.record.stage.CreatingBackup?
      modifies store, this`backup, this`history, state
      ensures Valid() && old(history) <= history && Tracks(state)
      ensures ok <==> BackupSettles(old(Now()), recreate, budget)
      ensures ok ==> FilesAllow(Now(), BackupCreated)
                     && ValidBackup(backup, store.file.record.id.updateId, store.file.record.fromVersion)
      ensures IsPreReplacement(store.file.record.stage)
      ensures Continues(old(store.file.record), store.file.record, store.file.record.stage)
    {
      PreparationPhases();
      hide Inv, IsRun, ValidBackup, Record.IsActive, Record.WellFormed, BackupOf, FilesAllow, Phase;
      if recreate {
        Continue(state, CreatingBackup);
        ok := CreateBackup(budget);
        if !ok {
          return;
        }
      }
      ok := ValidateBackup(backup, state.id.updateId, state.fromVersion);
      if ok {
        BackupAllowed(Now(), recreate);
      }
    }

    /** MarkFailed and Save on an update that has replaced nothing. */
    method FailUpdate(state: UpdateState, code: string)
      requires Valid() && Tracks(state) && store.file.record.IsActive()
      requires Phase(store.file.record.stage) <= 1 && !store.file.record.stage.UnknownStage?
      modifies store, this`history, state
      ensures Valid() && old(history) <= history
      ensures store.file.record == MarkedFailed(old(store.file.record), code)
      ensures store.file.record.stage.Failed? && !store.file.record.IsActive()
      ensures code != "" && !IsWhite(code[0]) ==> store.file.record.errorCode == code
    {
      FailedMove(Now(), code);
      MarkedFailedFacts(store.file.record, code);
      hide Inv, IsRun, CanWrite, MarkedFailed, Phase;
      state.MarkFailed(code);
      var saved := Persist(state);
      assert saved;
    }

    /** A stage of the ordinary course of an update that asks nothing of the files. */
    method Continue(state: UpdateState, stage: Stage)
      requires Valid() && Tracks(state) && store.file.record.IsActive()
      requires Follows(store.file.record.stage, stage) && NeedsNothing(stage) && Phase(stage) <= 3 && !stage.UnknownStage?
      modifies store, this`history, state
      ensures Valid() && old(history) <= history && Tracks(state)
      ensures Continues(old(store.file.record), store.file.record, stage)
    {
      NeedsNoFiles(Now(), stage);
      hide Inv, IsRun, Record.IsActive, Record.WellFormed, FilesAllow, Follows, NeedsNothing;
      MoveTo(state, stage);
    }

    /** The second half of PrepareReplacement: the service stops and every process lets go of its files. */
    method StopAndQuiesce(state: UpdateState, stops: bool, quiesces: bool) returns (ok: bool)
      requires Valid() && Tracks(state) && store.file.record.IsActive() && store.file.record.stage.BackupCreated?
      modifies store, this`history, state
      ensures Valid() && old(history) <= history
      ensures ok <==> stops && quiesces
      ensures ok ==> Tracks(state) && Continues(old(store.file.record), store.file.record, Quiescing)
      ensures !ok ==> store.file.record.stage.Failed? && !store.file.record.IsActive()
                      && store.file.record.errorCode == "UPDATE_INTERRUPTED"
    {
      UpdateStageOrder();
      PreparationPhases();
      hide Inv, IsRun, Record.IsActive, Record.WellFormed, FilesAllow, Follows, Phase;
      Continue(state, StoppingService);
      if stops {
        Continue(state, ServiceStopped);
        Continue(state, Quiescing);
      }
      ok := stops && quiesces;
      if !ok {
        var _ := FailPreReplacement();
        assert store.file.record.stage.Failed?;
      }
    }

    /** PrepareReplacement. */
    method PrepareReplacement(state: UpdateState, recreate: bool, recovering: bool, e: Environment) returns (ok: bool)
      requires Valid() && Tracks(state) && store.file.record.IsActive()
      requires if recreate then IsNormal(store.file.record.stage) || store.file.record.stage.CreatingBackup?
               else IsPreReplacement(store.file.record.stage) && !store.file.record.stage.CreatingBackup?
      modifies store, this`backup, this`history, state
      ensures Valid() && old(history) <= history
      ensures ok <==> BackupSettles(old(Now()), recreate, e.backupBudget) && e.stops && e.quiesces
      ensures ok ==> Tracks(state) && Continues(old(store.file.record), store.file.record, Quiescing)
      ensures ok ==> ValidBackup(backup, store.file.record.id.updateId, store.file.record.fromVersion)
      ensures !ok ==> store.file.record.stage.Failed? && !store.file.record.IsActive()
                      && store.file.record.errorCode
                         == if recovering || BackupSettles(old(Now()), recreate, e.backupBudget) then "UPDATE_INTERRUPTED"
                            else "UPDATE_BACKUP_FAILED"
    {
      hide Inv, IsRun, BackupSettles, Record.IsActive, ValidBackup;
      ok := BackUp(state, recreate, recovering, e.backupBudget);
      if ok {
        ok := StopAndQuiesce(state, e.stops, e.quiesces);
      }
    }

    /** MarkRollbackRequired on the record in memory, and the rollback that follows unless the agent was faster. */
    method RollBackAfter(state: UpdateState, code: string, s: RollbackScript) returns (exit: int)
      requires Valid() && Tracks(state) && code != "" && !IsWhite(code[0])
      requires store.file.record.IsActive() ==>
                 && (Phase(store.file.record.stage) == 2 || Phase(store.file.record.stage) == 3)
                 && ValidBackup(backup, store.file.record.id.updateId, store.file.record.fromVersion)
      modifies store, this`install, this`history, state
      ensures Valid() && old(history) <= history
      ensures !store.file.record.IsActive() && Truthful(exit, store.file.record, s)
      ensures if old(store.file.record.IsActive()) then RolledBackBecause(code, s, exit)
              else store.file == old(store.file) && exit == TerminalExit(store.file.record)
    {
      hide Inv, IsRun, CanWrite, Record.WellFormed, Truthful, Phase, RestoreSucceeds, RollbackOutcome, RolledBackFrom,
           ValidBackup, RollbackEnding, Record.IsActive, TerminalExit;
      ghost var before := Now();
      if store.file.record.IsActive() {
        PhasesAreApart(store.file.record.stage);
        RollbackRequiredMove(Now(), code);
        RollbackRequiredFacts(store.file.record, code);
        RequiredRollbackEnds(original, before, code, RestoreSucceeds(before, s.restoreBudget), s);
        RestoreWithin(original, before, s);
      }
      MarkedRollbackRequiredIsWellFormed(state.Snapshot(), code);
      MarkedCodeIsKept(state.Snapshot(), code);
      hide MarkedRollbackRequired;
      state.MarkRollbackRequired(code);
      var saved := Persist(state);
      if saved {
        RestoreSucceedsAlike(before, Now(), s.restoreBudget);
        exit := RollBackRequired(s);
      } else {
        TerminalIsTruthful(store.file.record, s);
        exit := TerminalExit(store.file.record);
      }
    }

    /** The update was rolled back for a reason, as far as its environment let it. */
    ghost predicate RolledBackBecause(code: string, s: RollbackScript, exit: int)
      requires store.file.Stored?
      reads this, store
    {
      && RolledBackFrom(original, staging, Outcome(exit, store.file.record.stage), s)
      && store.file.record.errorCode == code && !store.file.record.stage.Completed?
    }

    /** The package goes over the installation; answers whether all of it did. */
    method CopyPackage(state: UpdateState, copies: seq<nat>) returns (ok: bool)
      requires Valid() && Tracks(state) && store.file.record.IsActive() && store.file.record.stage.Quiescing?
      modifies store, this`install, this`history, state
      ensures Valid() && old(history) <= history && Tracks(state)
      ensures ok <==> CopySucceeds(copies, staging)
      ensures Continues(old(store.file.record), store.file.record, if ok then FilesReplaced else ReplacingFiles)
      ensures ok ==> install == Overlay(old(install), staging)
    {
      UpdateStageOrder();
      hide Inv, IsRun, Record.IsActive, Record.WellFormed, CopySucceeds, Overlay, Follows, CopyFinished;
      Continue(state, ReplacingFiles);
      ok := CopyStagedFilesWithRetry(copies);
      if ok {
        assert FilesAllow(Now(), FilesReplaced);
        MoveTo(state, FilesReplaced);
      }
    }

    /** The replacement proper, from a quiet installation to the end of the update. */
    method ReplaceFiles(state: UpdateState, content: Content, e: Environment) returns (exit: int)
      requires Valid() && Tracks(state) && store.file.record.IsActive() && store.file.record.stage.Quiescing?
      requires content.VersionInfo? && EqualsIgnoreCase(content.version, store.file.record.id.targetVersion)
      requires ValidBackup(backup, store.file.record.id.updateId, store.file.record.fromVersion)
      modifies store, this`install, this`history, state
      ensures Valid() && old(history) <= history
      ensures !store.file.record.IsActive() && Truthful(exit, store.file.record, e.rollback)
      ensures if ReplacementSucceeds(old(Now()), e, content) && ConfirmedInTime(e) then
                store.file.record.stage.Completed? && exit == 0
              else RolledBackBecause(ReplacementFailure(old(Now()), content, e), e.rollback, exit)
    {
      HealthPhases();
      hide Inv, IsRun, Record.IsActive, CopySucceeds, PostUpdateValid, Overlay, ConfirmedInTime, Truthful, EqualsIgnoreCase,
           Phase, ValidBackup, RolledBackBecause, WaitFailure;
      var copied := CopyPackage(state, e.copies);
      if copied {
        exit := FinishReplacement(state, content, e);
      } else {
        exit := RollBackAfter(state, "UPDATE_FILE_REPLACE_FAILED", e.rollback);
      }
    }

    /** The version file names the new release, and the service may be started. */
    method AnnounceVersion(state: UpdateState, content: Content)
      requires Valid() && Tracks(state) && store.file.record.IsActive() && store.file.record.stage.FilesReplaced?
      requires content.VersionInfo? && EqualsIgnoreCase(content.version, store.file.record.id.targetVersion)
      modifies store, this`install, this`history, state
      ensures Valid() && old(history) <= history && Tracks(state)
      ensures Continues(old(store.file.record), store.file.record, StartingService)
      ensures install == old(install)[VERSION_FILE := content]
    {
      UpdateStageOrder();
      hide Inv, IsRun, Record.IsActive, Record.WellFormed, Follows, EqualsIgnoreCase, CopyFinished;
      WriteLocalVersion(content, true);
      assert FilesAllow(Now(), StartingService);
      MoveTo(state, StartingService);
    }

    /** The version file, the check of what is now installed, and the health check. */
    method FinishReplacement(state: UpdateState, content: Content, e: Environment) returns (exit: int)
      requires Valid() && Tracks(state) && store.file.record.IsActive() && store.file.record.stage.FilesReplaced?
      requires content.VersionInfo? && EqualsIgnoreCase(content.version, store.file.record.id.targetVersion)
      requires ValidBackup(backup, store.file.record.id.updateId, store.file.record.fromVersion)
      modifies store, this`install, this`history, state
      ensures Valid() && old(history) <= history
      ensures !store.file.record.IsActive() && Truthful(exit, store.file.record, e.rollback)
      ensures var valid := PostUpdateValid(old(install)[VERSION_FILE := content], e.configPresent, content.version);
              if e.writesVersion && valid && ConfirmedInTime(e) then store.file.record.stage.Completed? && exit == 0
              else RolledBackBecause(if !e.writesVersion then "UPDATE_INTERRUPTED"
                                     else if !valid then "UPDATE_HEALTHCHECK_VERSION_MISMATCH"
                                     else WaitFailure(e), e.rollback, exit)
    {
      HealthPhases();
      hide Inv, IsRun, Record.IsActive, PostUpdateValid, Follows, ConfirmedInTime, Truthful, EqualsIgnoreCase, Phase,
           ValidBackup, RolledBackBecause, WaitFailure;
      if !e.writesVersion {
        WriteLocalVersion(content, false);
        exit := RollBackInterrupted(e.rollback);
        return;
      }
      AnnounceVersion(state, content);
      if PostUpdateValid(install, e.configPresent, content.version) {
        Continue(state, WaitingHealthCheck);
        exit := ConfirmUpdate(state, e);
      } else {
        exit := RollBackAfter(state, "UPDATE_HEALTHCHECK_VERSION_MISMATCH", e.rollback);
      }
    }

    /** BeginInterruptedRollback where an apply goes wrong in the middle of its replacement. */
    method RollBackInterrupted(s: RollbackScript) returns (exit: int)
      requires Valid() && store.file.record.IsActive() && store.file.record.stage.FilesReplaced?
      requires ValidBackup(backup, store.file.record.id.updateId, store.file.record.fromVersion)
      modifies store, this`install, this`history
      ensures Valid() && old(history) <= history
      ensures !store.file.record.IsActive() && Truthful(exit, store.file.record, s)
      ensures RolledBackBecause("UPDATE_INTERRUPTED", s, exit)
    {
      RestoreWithin(original, Now(), s);
      NoAttemptYet(original, Now());
      HealthPhases();
      hide Inv, IsRun, Phase, ValidBackup, Truthful, RestoreSucceeds, RolledBackFrom, RollbackEnding;
      exit := BeginInterruptedRollback(s);
    }

    /** Starts the new version and waits for the agent to confirm it; answers why the update must be rolled back. */
    method StartAndWait(e: Environment) returns (failure: Option<string>)
      requires Valid() && store.file.record.IsActive() && store.file.record.stage.WaitingHealthCheck?
      modifies store, this`history
      ensures Valid() && old(history) <= history
      ensures store.file.record == old(store.file.record) || store.file.record == AgentConfirmed(old(store.file.record))
      ensures failure.None? ==> ConfirmedInTime(e)
      ensures store.file.record == AgentConfirmed(old(store.file.record)) <==> ConfirmedInTime(e)
      ensures failure.Some? ==> failure.value != "" && !IsWhite(failure.value[0])
      ensures failure.Some? && !ConfirmedInTime(e) ==> failure.value == WaitFailure(e)
    {
      hide Inv, IsRun, AgentConfirmed, WaitOutcome, Record.IsActive, ConfirmedWhilePolling;
      ghost var waiting := store.file.record;
      HealthWaitFacts(waiting);
      FlagIsOff(original, Now());
      UpdateConfirmation(waiting, e);
      AgentMayAct(e.health.early);
      if !e.starts {
        return Some("UPDATE_SERVICE_START_FAILED");
      }
      var result := WaitForHealthCheck(false, e.health.polls);
      if result.WaitCompleted? {
        return None;
      }
      // The wait cannot end on a failed record here, so no reason is ever taken over from the record.
      assert !result.FailedState?;
      failure := Some(if result.ServiceExitedEarly? then "UPDATE_PROCESS_EXITED_EARLY" else "UPDATE_HEALTHCHECK_TIMEOUT");
      AgentMayAct(e.health.late);
    }

    /** The health check of an update, and the rollback when it is not met. */
    method ConfirmUpdate(state: UpdateState, e: Environment) returns (exit: int)
      requires Valid() && Tracks(state) && store.file.record.IsActive() && store.file.record.stage.WaitingHealthCheck?
      requires ValidBackup(backup, store.file.record.id.updateId, store.file.record.fromVersion)
      modifies store, this`install, this`history, state
      ensures Valid() && old(history) <= history
      ensures !store.file.record.IsActive() && Truthful(exit, store.file.record, e.rollback)
      ensures if ConfirmedInTime(e) then store.file.record.stage.Completed? && exit == 0
              else RolledBackBecause(WaitFailure(e), e.rollback, exit)
    {
      HealthWaitFacts(store.file.record);
      AgentKeepsWellFormed(store.file.record);
      hide Inv, IsRun, Phase, AgentConfirmed, Record.IsActive, Record.WellFormed, Truthful, ConfirmedInTime, ValidBackup,
           RolledBackBecause, WaitFailure;
      var failure := StartAndWait(e);
      if failure.Some? {
        exit := RollBackAfter(state, failure.value, e.rollback);
      } else {
        TerminalIsTruthful(store.file.record, e.rollback);
        exit := 0;
      }
    }

    /** The try block of ApplyStagedUpdate. */
    method Replace(state: UpdateState, recreate: bool, recovering: bool, content: Content, e: Environment)
      returns (exit: int)
      requires Valid() && Tracks(state) && store.file.record.IsActive()
      requires if recreate then IsNormal(store.file.record.stage) || store.file.record.stage.CreatingBackup?
               else IsPreReplacement(store.file.record.stage) && !store.file.record.stage.CreatingBackup?
      requires content.VersionInfo? && EqualsIgnoreCase(content.version, store.file.record.id.targetVersion)
      modifies store, this`install, this`backup, this`history, state
      ensures Valid() && old(history) <= history
      ensures !store.file.record.IsActive() && Truthful(exit, store.file.record, e.rollback)
      ensures store.file.record.stage.Completed? <==> UpdateGoesThrough(old(Now()), recreate, content, e)
      ensures UpdateEnds(old(Now()), recreate, recovering, content, e, exit, store.file.record)
      ensures store.file.record.stage.Failed? || KeepsIdentity(store.file.record, old(store.file.record))
    {
      UntouchedBeforeReplacement(original, Now());
      hide Inv, IsRun, Record.IsActive, ReplacementSucceeds, ConfirmedInTime, Truthful, EqualsIgnoreCase, BackupSettles,
           ReplacementFailure, RolledBackFrom, ValidBackup, UpdateGoesThrough;
      ghost var before := Now();
      var ready := PrepareReplacement(state, recreate, recovering, e);
      if ready {
        ReplacementSeesFiles(before, Now(), e, content);
        exit := ReplaceKeepingIdentity(state, content, e);
      } else {
        FailedIsTruthful(store.file.record, e.rollback);
        exit := 1;
      }
      EndsByGoingThrough(before, recreate, recovering, content, e, exit, store.file.record);
    }

    /** Replacing the files changes nothing of what the update is about. */
    method ReplaceKeepingIdentity(state: UpdateState, content: Content, e: Environment) returns (exit: int)
      requires Valid() && Tracks(state) && store.file.record.IsActive() && store.file.record.stage.Quiescing?
      requires content.VersionInfo? && EqualsIgnoreCase(content.version, store.file.record.id.targetVersion)
      requires ValidBackup(backup, store.file.record.id.updateId, store.file.record.fromVersion)
      modifies store, this`install, this`history, state
      ensures Valid() && old(history) <= history
      ensures !store.file.record.IsActive() && Truthful(exit, store.file.record, e.rollback)
      ensures if ReplacementSucceeds(old(Now()), e, content) && ConfirmedInTime(e) then
                store.file.record.stage.Completed? && exit == 0
              else RolledBackBecause(ReplacementFailure(old(Now()), content, e), e.rollback, exit)
      ensures KeepsIdentity(store.file.record, old(store.file.record))
    {
      hide Inv, IsRun, Record.IsActive, ReplacementSucceeds, ConfirmedInTime, Truthful, EqualsIgnoreCase,
           ReplacementFailure, RolledBackBecause, ValidBackup;
      RunsAreNonempty(history);
      ghost var k := |history| - 1;
      exit := ReplaceFiles(state, content, e);
      RunIsForward(history, k, |history| - 1);
    }

    /** LoadOrCreateRunnerState: the record on file must be the one this runner was started for. */
    method OwnsRecord() returns (owned: bool)
      requires store.file.Stored? && store.file.record.WellFormed()
      ensures owned <==> RunnerOwns(store.file.record, args)
    {
      if IsBlank(args.updateId) {
        return false;
      }
      var decision := DecideInvocation(Some(store.file.record), args);
      owned := decision.Resume? || decision.Terminal?;
    }

    /** ApplyStagedUpdate on an update whose apply was interrupted before the first file was replaced. */
    method ApplyInterrupted(e: Environment) returns (exit: Result<int>)
      requires Valid() && store.file.record.IsActive() && IsPreReplacement(store.file.record.stage)
      modifies store, this`install, this`backup, this`history
      ensures Valid() && old(history) <= history
      ensures exit.Err? <==> !e.admin || !RunnerOwns(old(store.file.record), args) || !ReleaseReadable(staging)
      ensures exit.Err? ==> store.file == old(store.file) && install == old(install)
      ensures exit.Ok? ==> !store.file.record.IsActive() && Truthful(exit.value, store.file.record, e.rollback)
      ensures exit.Ok? ==>
                (store.file.record.stage.Completed?
                 <==> old(MatchesInterrupted(store.file.record, staging[RELEASE_FILE], LoadInstalledVersion(install, e.configured)))
                      && UpdateGoesThrough(old(Now()), old(store.file.record.stage.CreatingBackup?),
                           old(VersionContent(staging[RELEASE_FILE], store.file.record.id.expectedSha256)), e))
      ensures exit.Ok? ==> InterruptedEnds(old(Now()), e, exit.value, store.file.record)
    {
      PreparationPhases();
      hide Inv, IsRun, Record.IsActive, UpdateGoesThrough, MatchesInterrupted, Truthful, RunnerOwns, LoadInstalledVersion,
           Phase, EqualsIgnoreCase, UpdateEnds;
      var owned := OwnsRecord();
      if !e.admin || !owned || !ReleaseReadable(staging) {
        return Err("The staged update cannot be applied.");
      }
      var state := new UpdateState(store.file.record);
      var release := staging[RELEASE_FILE];
      if MatchesInterrupted(store.file.record, release, LoadInstalledVersion(install, e.configured)) {
        MatchNamesTheTarget(store.file.record, release, LoadInstalledVersion(install, e.configured));
        var code := Replace(state, state.currentStage.CreatingBackup?, true,
                            VersionContent(release, state.id.expectedSha256), e);
        exit := Ok(code);
      } else {
        var code := FailPreReplacement();
        FailedIsTruthful(store.file.record, e.rollback);
        exit := Ok(code);
      }
    }

    /** ResumeInterruptedApply: whatever goes wrong before the first file is replaced fails the update. */
    method ResumeInterruptedApply(e: Environment) returns (exit: int)
      requires Valid() && store.file.record.IsActive() && IsPreReplacement(store.file.record.stage)
      modifies store, this`install, this`backup, this`history
      ensures Valid() && old(history) <= history
      ensures !store.file.record.IsActive() && Truthful(exit, store.file.record, e.rollback)
      ensures old(!ApplyUsable(store.file.record, staging, e, args)) ==>
                && exit == 1 && install == old(install)
                && store.file.record == MarkedFailed(old(store.file.record), "UPDATE_INTERRUPTED")
      ensures old(ApplyUsable(store.file.record, staging, e, args)) ==>
                (store.file.record.stage.Completed?
                 <==> old(MatchesInterrupted(store.file.record, staging[RELEASE_FILE], LoadInstalledVersion(install, e.configured)))
                      && UpdateGoesThrough(old(Now()), old(store.file.record.stage.CreatingBackup?),
                           old(VersionContent(staging[RELEASE_FILE], store.file.record.id.expectedSha256)), e))
      ensures ApplyEnds(old(Now()), args, e, exit, store.file.record)
    {
      PreparationPhases();
      hide Inv, IsRun, Record.IsActive, UpdateGoesThrough, MatchesInterrupted, Truthful, RunnerOwns, LoadInstalledVersion,
           Phase, VersionContent, InterruptedEnds;
      var usable := !IsBlank(store.file.record.stagingPath) && !IsBlank(store.file.record.backupPath)
                    && e.stagingExists && RELEASE_FILE in staging;
      if usable {
        var applied := ApplyInterrupted(e);
        if applied.Ok? {
          return applied.value;
        }
      }
      exit := FailPreReplacement();
      FailedIsTruthful(store.file.record, e.rollback);
    }

    /** DispatchRecovery: None asks the caller to go on with an update that has not come to its backup yet; on every other
        record, one recovery ends the update and reports the ending. */
    method DispatchRecovery(e: Environment) returns (exit: Option<int>)
      requires Valid()
      modifies store, this`install, this`backup, this`history
      ensures Valid() && old(history) <= history
      ensures exit.None? <==> IsNormal(old(store.file.record.stage))
      ensures exit.None? ==> store.file == old(store.file) && install == old(install) && history == old(history)
      ensures exit.Some? ==> !store.file.record.IsActive() && Truthful(exit.value, store.file.record, e.rollback)
      ensures exit.Some? ==> RecoveryEnds(old(Now()), args, e, exit.value, store.file.record)
      ensures !old(store.file.record.IsActive()) ==> store.file == old(store.file) && install == old(install)
    {
      InvIsCoherent(original, Now());
      ClassificationFollowsPhase(store.file.record);
      TerminalMeansInactive(store.file.record);
      var action := ClassifyRecovery(store.file.record);
      EndedStages();
      hide Inv, IsRun, Coherent, ClassifyRecovery, Truthful, Record.IsActive, IsNormal, IsPreReplacement, IsTerminal, Phase,
           ApplyEnds, HealthEnds, RestoreSucceeds, ValidBackup, RollbackEnding;
      if action.Normal? {
        return None;
      } else if action.AlreadyTerminal? {
        TerminalIsTruthful(store.file.record, e.rollback);
        return Some(TerminalExit(store.file.record));
      }
      var code := Recover(action, e);
      exit := Some(code);
    }

    /** The recoveries that act. */
    method Recover(action: RecoveryAction, e: Environment) returns (exit: int)
      requires Valid() && store.file.record.IsActive() && action == ClassifyRecovery(store.file.record)
      requires !action.Normal? && !action.AlreadyTerminal?
      modifies store, this`install, this`backup, this`history
      ensures Valid() && old(history) <= history
      ensures !store.file.record.IsActive() && Truthful(exit, store.file.record, e.rollback)
      ensures RecoveryEnds(old(Now()), args, e, exit, store.file.record)
    {
      ghost var w := Now();
      ClassificationFollowsPhase(store.file.record);
      OnlyUnknownStagesFailSafe(store.file.record);
      PhasesAreApart(store.file.record.stage);
      AttemptsByPhase(original, w, e);
      hide Inv, IsRun, ClassifyRecovery, Truthful, Record.IsActive, IsNormal, IsPreReplacement, IsTerminal, Phase, ValidBackup,
           ApplyEnds, HealthEnds, RestoreSucceeds, RollbackEnding, RollbackOutcome;
      if action.Rollback? {
        exit := RollBackRequired(e.rollback);
      } else if action.StartRollback? {
        exit := BeginInterruptedRollback(e.rollback);
      } else if action.ResumeApply? {
        exit := ResumeInterruptedApply(e);
      } else if action.HealthCheck? {
        exit := ResumeInterruptedHealthCheck(e);
      } else {
        exit := FailSafeInterruptedUpdate(e.rollback);
      }
    }

    /** ReturnRecoveredResult: a recovery that ended well says so, whatever it thought of itself. */
    method ReturnRecovered(initial: Stage, code: int, ghost s: RollbackScript) returns (exit: int)
      requires Valid() && Truthful(code, store.file.record, s)
      ensures Truthful(exit, store.file.record, s)
      ensures store.file.record.stage.Completed? || initial.RollbackWaitingHealthCheck? ==>
                (exit == 0 <==> store.file.record.IsGoodEnd())
      ensures exit == if store.file.record.stage.Completed? || initial.RollbackWaitingHealthCheck? then
                        TerminalExit(store.file.record) else code
    {
      TerminalIsTruthful(store.file.record, s);
      hide Truthful, Inv, IsRun;
      if store.file.record.stage.Completed? || initial.RollbackWaitingHealthCheck? {
        exit := TerminalExit(store.file.record);
      } else {
        exit := code;
      }
    }

    // The ordinary course of an update.

    /** The release is the one a job has spelled out, if it has. */
    predicate AskedFor(version: string, sha256: string) {
      AskedBy(args).Some? ==> version == AskedBy(args).value.version && sha256 == AskedBy(args).value.sha256
    }

    /** Saves details of an update that has not come to its backup yet. */
    method SaveDetails(state: UpdateState)
      requires Valid() && store.file.record.IsActive() && IsNormal(store.file.record.stage)
      requires Preparing(store.file.record, state.Snapshot(), AskedBy(args))
      modifies store, this`history
      ensures Valid() && old(history) <= history
      ensures store.file == Stored(state.Snapshot()) && Tracks(state)
    {
      PreparingMove(Now(), state.Snapshot());
      hide Inv, IsRun, CanWrite, Record.WellFormed, Record.IsActive, Preparing, IsNormal;
      var saved := Persist(state);
      assert saved;
    }

    /** ApplyStagedUpdate as a runner calls it on a package it has just staged. */
    method ApplyStagedUpdate(stagedPath: string, sha256: string, e: Environment) returns (exit: Result<int>)
      requires Valid() && store.file.record.IsActive() && IsNormal(store.file.record.stage)
      requires ReleaseReadable(staging) ==> AskedFor(staging[RELEASE_FILE].version, sha256)
      modifies store, this`install, this`backup, this`history
      ensures Valid() && old(history) <= history
      ensures exit.Err? <==> !e.admin || !RunnerOwns(old(store.file.record), args) || !ReleaseReadable(staging)
      ensures exit.Err? ==> store.file == old(store.file) && install == old(install)
      ensures exit.Ok? ==> !store.file.record.IsActive() && Truthful(exit.value, store.file.record, e.rollback)
      ensures exit.Ok? ==>
                var installed := LoadInstalledVersion(old(install), e.configured);
                var release := staging[RELEASE_FILE];
                (store.file.record.stage.Completed?
                 <==> UpdateGoesThrough(
                        old(Now()).(rec := Retargeted(old(store.file.record), installed, release, stagedPath, sha256)),
                        true, VersionContent(release, sha256), e))
                && UpdateEnds(
                     old(Now()).(rec := Retargeted(old(store.file.record), installed, release, stagedPath, sha256)),
                     true, false, VersionContent(release, sha256), e, exit.value, store.file.record)
      ensures exit.Ok? ==>
                || store.file.record.stage.Failed?
                || (store.file.record.fromVersion == LoadInstalledVersion(old(install), e.configured)
                    && store.file.record.id.targetVersion == staging[RELEASE_FILE].version)
    {
      hide Inv, IsRun, Record.IsActive, UpdateGoesThrough, Truthful, RunnerOwns, LoadInstalledVersion, Retargeted, IsNormal,
           UpdateEnds;
      var owned := OwnsRecord();
      if !e.admin || !owned || !ReleaseReadable(staging) {
        return Err("The staged update cannot be applied.");
      }
      var release := staging[RELEASE_FILE];
      var state := Retarget(LoadInstalledVersion(install, e.configured), release, stagedPath, sha256);
      var code := Replace(state, true, false, VersionContent(release, sha256), e);
      exit := Ok(code);
    }

    /** The update is tied to the staged release and to the version it replaces. */
    method Retarget(installed: string, release: Content, stagedPath: string, sha256: string) returns (state: UpdateState)
      requires Valid() && store.file.record.IsActive() && IsNormal(store.file.record.stage) && release.VersionInfo?
      requires AskedFor(release.version, sha256)
      modifies store, this`history
      ensures Valid() && old(history) <= history && fresh(state) && Tracks(state)
      ensures store.file == Stored(Retargeted(old(store.file.record), installed, release, stagedPath, sha256))
      ensures store.file.record.IsActive() && IsNormal(store.file.record.stage)
      ensures store.file.record.fromVersion == installed && store.file.record.id.targetVersion == release.version
    {
      var r := store.file.record;
      InvIsCoherent(original, Now());
      state := new UpdateState(r);
      state.fromVersion := installed;
      state.id := state.id.(targetVersion := release.version, expectedSha256 := sha256);
      state.stagingPath := stagedPath;
      state.backupPath := BackupPathFor(state.id.updateId);
      RetargetedIsPreparing(r, installed, release, stagedPath, sha256, AskedBy(args));
      assert state.Snapshot() == Retargeted(r, installed, release, stagedPath, sha256);
      hide Inv, IsRun, Preparing, Record.WellFormed;
      SaveDetails(state);
    }

    /** InstalledPayloadMatches: every file of the package, and at least the required ones, is installed. */
    method InstalledPayloadMatches() returns (matches: bool)
      ensures matches <==> PayloadMatches(staging, install)
    {
      hide IsProtected, Managed;
      for i := 0 to |REQUIRED_PAYLOAD|
        invariant forall k :: 0 <= k < i ==> REQUIRED_PAYLOAD[k] in staging
      {
        if REQUIRED_PAYLOAD[i] !in staging {
          return false;
        }
      }
      var source := Managed(staging);
      StagedContent(staging);
      var todo, compared := source.Keys - {VERSION_FILE}, 0;
      while todo != {}
        invariant todo <= source.Keys - {VERSION_FILE}
        invariant compared == |source.Keys - {VERSION_FILE}| - |todo|
        invariant forall p :: p in source && p != VERSION_FILE && p !in todo ==> p in install && install[p] == staging[p]
      {
        var p :| p in todo;
        if p !in install || Sha256(staging[p]) != Sha256(install[p]) {
          return false;
        }
        todo, compared := todo - {p}, compared + 1;
      }
      return compared >= |REQUIRED_PAYLOAD|;
    }

    /** MarkStage before the backup; it saves whatever details were changed since the last save. */
    method Enter(state: UpdateState, stage: Stage)
      requires Valid() && store.file.record.IsActive() && IsNormal(store.file.record.stage)
      requires SameWork(store.file.record, state.Snapshot(), AskedBy(args)) && IsNormal(stage)
      modifies store, this`history, state
      ensures Valid() && old(history) <= history && InStep(state)
      ensures store.file.record == Marked(old(state.Snapshot()), stage) && store.file.record.stage == stage
      ensures Prepared(old(state.Snapshot()), store.file.record, AskedBy(args))
    {
      EnteringIsPreparing(store.file.record, state.Snapshot(), stage, AskedBy(args));
      hide Inv, IsRun, Preparing, Record.WellFormed, IsNormal, Record.IsActive, Marked;
      state.MarkStage(stage);
      SaveDetails(state);
    }

    /** The record in memory is the persisted one, of an update that has not come to its backup yet. */
    ghost predicate InStep(state: UpdateState)
      reads this, store, state
    {
      store.file == Stored(state.Snapshot()) && state.Snapshot().IsActive() && IsNormal(state.currentStage)
    }

    /** The first stage of a run: what is installed, and what a job explicitly asks for. */
    method CheckVersion(state: UpdateState, installed: string)
      requires Valid() && InStep(state)
      modifies store, this`history, state
      ensures Valid() && old(history) <= history && InStep(state)
      ensures Preparing(old(store.file.record), store.file.record, AskedBy(args))
      ensures store.file.record.fromVersion == installed
      ensures store.file.record.id
              == old(store.file.record.id).(targetVersion := if args.HasExplicitTarget() then args.targetVersion
                                                             else old(store.file.record.id.targetVersion))
    {
      hide Inv, IsRun, Record.WellFormed, Arguments.HasExplicitTarget;
      ghost var before := store.file.record;
      Enter(state, CheckingVersion);
      InvIsCoherent(original, Now());
      state.fromVersion := installed;
      if args.HasExplicitTarget() {
        state.id := state.id.(targetVersion := args.targetVersion);
      }
      ActiveIsRunning(store.file.record);
      SaveDetails(state);
    }

    /** The release the update resolved to goes on record. */
    method RecordRelease(state: UpdateState, installed: string, version: string, packageUrl: string)
      requires Valid() && InStep(state)
      requires AskedBy(args).Some? ==> version == AskedBy(args).value.version && packageUrl == AskedBy(args).value.packageUrl
      modifies store, this`history, state
      ensures Valid() && old(history) <= history && InStep(state)
      ensures Preparing(old(store.file.record), store.file.record, AskedBy(args))
      ensures store.file.record.fromVersion == installed
      ensures store.file.record.id
              == old(store.file.record.id).(
                   targetVersion := version, packageUrl := packageUrl,
                   expectedSha256 := if args.HasExplicitRelease() then args.sha256
                                     else old(store.file.record.id.expectedSha256))
    {
      InvIsCoherent(original, Now());
      ActiveIsRunning(store.file.record);
      state.fromVersion := installed;
      state.id := state.id.(targetVersion := version, packageUrl := packageUrl);
      if args.HasExplicitRelease() {
        state.id := state.id.(expectedSha256 := args.sha256);
      }
      hide Inv, IsRun, Record.WellFormed, Arguments.HasExplicitRelease;
      SaveDetails(state);
    }

    /** The package is extracted over an empty staging directory, as far as it gets. */
    method ExtractPackage(files: Files, extracts: bool)
      requires Valid() && store.file.record.IsActive() && IsNormal(store.file.record.stage)
      modifies this`staging, this`history
      ensures Valid() && old(history) <= history
      ensures extracts ==> staging == files
    {
      hide Inv, IsRun;
      staging := map[];
      Note(Unpack(staging));
      staging := *;
      Note(Unpack(staging));
      if extracts {
        staging := files;
        Note(Unpack(staging));
      }
    }

    /** Download, validation and extraction; a failing one fails the update and lets the exception out. */
    method StagePackage(state: UpdateState, feed: Feed, sha256: string, stagedPath: string) returns (staged: bool)
      requires Valid() && InStep(state)
      requires AskedBy(args).Some? ==> sha256 == AskedBy(args).value.sha256
      modifies store, this`staging, this`history, state
      ensures Valid() && old(history) <= history
      ensures staged <==> feed.downloads && feed.intact && feed.extracts
      ensures !staged ==> store.file.record.stage.Failed? && !store.file.record.IsActive()
                          && Some(store.file.record.errorCode) == StagingFailure(feed)
      ensures staged ==> store.file.record.id == old(store.file.record.id).(expectedSha256 := sha256)
                         && store.file.record.fromVersion == old(store.file.record.fromVersion)
      ensures staged ==> InStep(state) && state.currentStage.Staged? && staging == feed.files
                         && SameTarget(old(store.file.record), store.file.record, AskedBy(args))
    {
      hide Inv, IsRun, Record.WellFormed, Marked, Record.IsActive, KeepsRequest;
      var code := DownloadPackage(state, feed, sha256);
      if code.None? {
        staged := UnpackPackage(state, feed, stagedPath);
        if staged {
          return;
        }
        code := Some("UPDATE_PACKAGE_INVALID");
      }
      NormalPhase(state.currentStage);
      FailUpdate(state, code.value);
      return false;
    }

    /** The extraction, and the two stages around it. */
    method UnpackPackage(state: UpdateState, feed: Feed, stagedPath: string) returns (staged: bool)
      requires Valid() && InStep(state)
      modifies store, this`staging, this`history, state
      ensures Valid() && old(history) <= history && InStep(state)
      ensures staged <==> feed.extracts
      ensures staged ==> state.currentStage.Staged? && staging == feed.files
      ensures KeepsIdentity(old(store.file.record), store.file.record)
      ensures SameTarget(old(store.file.record), store.file.record, AskedBy(args))
    {
      hide Inv, IsRun, Record.WellFormed, Marked, Record.IsActive;
      state.stagingPath := stagedPath;
      Enter(state, Staging);
      ExtractPackage(feed.files, feed.extracts);
      staged := feed.extracts;
      if staged {
        Enter(state, Staged);
      }
    }

    /** The package is downloaded and its checksum compared; answers why it cannot be used. */
    method DownloadPackage(state: UpdateState, feed: Feed, sha256: string) returns (failure: Option<string>)
      requires Valid() && InStep(state)
      requires AskedBy(args).Some? ==> sha256 == AskedBy(args).value.sha256
      modifies store, this`history, state
      ensures Valid() && old(history) <= history && InStep(state)
      ensures failure == if feed.downloads && feed.intact then None else StagingFailure(feed)
      ensures failure.None? ==> store.file.record.id == old(store.file.record.id).(expectedSha256 := sha256)
      ensures SameTarget(old(store.file.record), store.file.record, AskedBy(args))
    {
      hide Inv, IsRun, Record.WellFormed, Marked, Record.IsActive;
      Enter(state, Downloading);
      if !feed.downloads {
        return Some("UPDATE_DOWNLOAD_FAILED");
      }
      Enter(state, Downloaded);
      state.id := state.id.(expectedSha256 := sha256);
      Enter(state, Validating);
      if !feed.intact {
        return Some("UPDATE_HASH_MISMATCH");
      }
      Enter(state, Validated);
      return None;
    }

    /** An update to the version already installed: nothing is replaced, the installed files are only compared. */
    method VerifyCurrent(state: UpdateState) returns (exit: int)
      requires Valid() && InStep(state)
      modifies store, this`history, state
      ensures Valid() && old(history) <= history && !store.file.record.IsActive()
      ensures if PayloadMatches(staging, install) then
                && store.file.record.stage.Completed? && !store.file.record.healthCheckConfirmed
                && SameTarget(old(store.file.record), store.file.record, AskedBy(args))
                && exit == if args.IsJob() then 10 else 0
              else store.file.record.stage.Failed? && store.file.record.errorCode == "UPDATE_PACKAGE_INVALID" && exit == 25
    {
      NormalPhase(state.currentStage);
      CompletedAsCurrentFacts(state.Snapshot());
      hide Inv, IsRun, CanWrite, PayloadMatches, Record.WellFormed, Record.IsActive, Phase, IsNormal, SameTarget,
           CompletedAsCurrent, MarkedFailed, Arguments.IsJob;
      var intact := InstalledPayloadMatches();
      if !intact {
        FailUpdate(state, "UPDATE_PACKAGE_INVALID");
        return 25;
      }
      CompletedAsCurrentMove(Now());
      CompleteAsCurrent(state);
      exit := if args.IsJob() then 10 else 0;
    }

    method CompleteAsCurrent(state: UpdateState)
      requires Valid() && InStep(state) && CanWrite(Now(), CompletedAsCurrent(store.file.record))
      modifies store, this`history, state
      ensures Valid() && old(history) <= history
      ensures store.file.record == CompletedAsCurrent(old(store.file.record))
    {
      hide Inv, IsRun, CanWrite, Record.WellFormed, Marked, IsNormal;
      CompletedAsCurrentFacts(state.Snapshot());
      state.MarkStage(Completed, StatusCompleted);
      state.healthCheckConfirmed := false;
      var saved := Persist(state);
      assert saved;
    }

    /** From a staged package to the end of the update. */
    method ApplyFetched(state: UpdateState, version: string, channel: string, sha256: string, stagedPath: string,
                        current: bool, e: Environment) returns (exit: Result<int>)
      requires Valid() && InStep(state) && e.admin && AskedFor(version, sha256)
      modifies store, this`install, this`staging, this`backup, this`history, state
      ensures Valid() && old(history) <= history
      ensures store.file.record.IsActive() ==> IsNormal(store.file.record.stage) && install == old(install) && exit.Err?
      ensures Reported(exit, store.file.record, e)
      ensures exit.Err? ==> install == old(install)
      ensures exit.Err? ==> UPDATER_FILE !in old(staging) || !RunnerOwns(old(store.file.record), args)
      ensures !current ==>
                || store.file.record.stage.Failed? || exit.Err?
                || (store.file.record.fromVersion == LoadInstalledVersion(old(install), e.configured)
                    && store.file.record.id.targetVersion == version)
      ensures current ==>
                install == old(install) && (store.file.record.stage.Failed?
                || (store.file.record.stage.Completed? && !store.file.record.healthCheckConfirmed
                    && SameTarget(old(store.file.record), store.file.record, AskedBy(args)) && PayloadMatches(staging, install)))
      ensures StagedEnds(old(Now()), VersionInfo(version, channel, sha256), current, args, e, exit, store.file.record)
    {
      hide Inv, IsRun, IsNormal, Record.IsActive, RunnerOwns, UpdateGoesThrough, Retargeted, LoadInstalledVersion,
           PayloadMatches, Marked, SameTarget, Truthful, VersionContent, AskedBy, UpdateEnds;
      ghost var before := Now();
      if current {
        var code := VerifyCurrent(state);
        VerifiedIsReported(code, store.file.record, e);
        return Ok(code);
      }
      assert |UPDATER_FILE| != |RELEASE_FILE|;
      staging := staging[RELEASE_FILE := VersionInfo(version, channel, sha256)];
      Note(Unpack(staging));
      if UPDATER_FILE !in staging {
        return Err("The package has no updater.");
      }
      var release := staging[RELEASE_FILE];
      RetargetedAlike(before, release, staging, stagedPath, sha256, e);
      exit := ApplyStagedUpdate(stagedPath, sha256, e);
      if exit.Ok? {
        TruthIsReported(exit.value, store.file.record, e);
      }
    }

    /** The release is resolved and recorded; answers why the update cannot go on. */
    method ResolveRelease(state: UpdateState, installed: string, version: string, feed: Feed) returns (failure: Option<string>)
      requires Valid() && InStep(state)
      requires args.HasExplicitRelease() ==> version == args.targetVersion
      modifies store, this`history, state
      ensures Valid() && old(history) <= history && InStep(state)
      ensures SameWork(old(store.file.record), store.file.record, AskedBy(args))
      ensures failure.None? ==> store.file.record.fromVersion == installed
      ensures failure.None? ==>
                store.file.record.id
                == old(store.file.record.id).(
                     targetVersion := version, packageUrl := ResolvedUrl(args, feed),
                     expectedSha256 := if args.HasExplicitRelease() then args.sha256
                                       else old(store.file.record.id.expectedSha256))
      ensures failure.None? <==>
                && (args.HasExplicitTarget() ==> args.HasExplicitRelease())
                && feed.resolves && feed.manifestValid
                && (args.HasExplicitTarget() ==> EqualsIgnoreCase(version, args.targetVersion))
                && (feed.force || CompareVersions(version, installed) > 0
                    || (CompareVersions(version, installed) == 0 && feed.signed))
      ensures failure == ResolutionFailure(installed, version, args, feed)
      ensures failure.Some? ==> failure.value != "" && !IsWhite(failure.value[0])
    {
      hide Inv, IsRun, Record.WellFormed, Record.IsActive, Arguments.HasExplicitTarget, Arguments.HasExplicitRelease,
           IsNormal, DecideVersionAction, EqualsIgnoreCase, CompareVersions, AskedBy;
      ActionsByOrder(installed, version, feed.force);
      ExplicitReleaseIsAsked(args);
      CheckVersion(state, installed);
      if !args.HasExplicitRelease() && args.HasExplicitTarget() {
        return Some("UPDATE_RELEASE_METADATA_MISSING");
      }
      if !feed.resolves {
        return Some("UPDATE_PACKAGE_INVALID");
      }
      RecordRelease(state, installed, version, if args.HasExplicitRelease() then args.packageUrl else feed.packageUrl);
      if !feed.manifestValid {
        return Some("RELEASE_MANIFEST_INVALID");
      }
      if args.HasExplicitTarget() && !EqualsIgnoreCase(version, args.targetVersion) {
        return Some("UPDATE_TARGET_RELEASE_NOT_RESOLVED");
      }
      var action := DecideVersionAction(installed, version, feed.force);
      if action.DowngradeBlocked? {
        return Some("UPDATE_TARGET_RELEASE_NOT_RESOLVED");
      }
      if action.AlreadyCurrent? && !feed.signed {
        return Some("UPDATE_PACKAGE_INVALID");
      }
      return None;
    }

    /** From a release the update may install to its end. */
    method FetchAndApply(state: UpdateState, installed: string, version: string, feed: Feed, e: Environment)
      returns (exit: Result<int>)
      requires Valid() && InStep(state) && e.admin
      requires store.file.record.fromVersion == installed && store.file.record.id.targetVersion == version
      requires installed == LoadInstalledVersion(install, e.configured)
      requires feed.force || CompareVersions(version, installed) >= 0
      requires version == ResolvedVersion(args, feed)
      modifies store, this`install, this`staging, this`backup, this`history, state
      ensures Valid() && old(history) <= history
      ensures store.file.record.IsActive() ==> IsNormal(store.file.record.stage) && install == old(install)
      ensures Reported(exit, store.file.record, e)
      ensures store.file.record.stage.Failed? || exit.Err?
              || Climbed(store.file.record, installed, feed.force)
              || (LeftAsCurrent(store.file.record, installed) && install == old(install) && PayloadMatches(staging, install))
      ensures exit.Err? ==> install == old(install)
      ensures FetchEnds(old(Now()), !feed.force && CompareVersions(version, installed) == 0, feed, args, e, exit,
                        store.file.record)
    {
      hide Inv, IsRun, IsNormal, Record.IsActive, Record.WellFormed, LoadInstalledVersion, PayloadMatches, CompareVersions,
           Reported, Marked, RunnerOwns, KeepsRequest, AskedBy, Arguments.HasExplicitRelease, StagedEnds, StagingFailure,
           Climbed, LeftAsCurrent, ResolvedChannel, ResolvedSha256, ResolvedVersion, SameTarget, InStep, FetchWorks;
      ghost var w := Now();
      ResolvedIsAsked(args, feed);
      StagingFails(feed);
      var sha256, stagedPath := ResolvedSha256(args, feed), "Staging/" + version;
      var staged := StagePackage(state, feed, sha256, stagedPath);
      if !staged {
        exit := Err("The package cannot be used.");
        ErrorsReportThemselves(exit, store.file.record, e);
        return;
      }
      StagedEndsAlike(Now(), w.(rec := w.rec.(id := w.rec.id.(expectedSha256 := sha256)), staging := feed.files),
                      VersionInfo(version, ResolvedChannel(args, feed), sha256),
                      !feed.force && CompareVersions(version, installed) == 0, args, e);
      exit := ApplyDecided(state, installed, version, sha256, stagedPath, feed, e);
    }

    /** The staged package is applied, or compared if it is of the version already installed. */
    method ApplyDecided(state: UpdateState, installed: string, version: string, sha256: string, stagedPath: string,
                        feed: Feed, e: Environment) returns (exit: Result<int>)
      requires Valid() && InStep(state) && e.admin && AskedFor(version, sha256)
      requires store.file.record.fromVersion == installed && store.file.record.id.targetVersion == version
      requires installed == LoadInstalledVersion(install, e.configured)
      requires feed.force || CompareVersions(version, installed) >= 0
      modifies store, this`install, this`staging, this`backup, this`history, state
      ensures Valid() && old(history) <= history
      ensures store.file.record.IsActive() ==> IsNormal(store.file.record.stage) && install == old(install)
      ensures Reported(exit, store.file.record, e)
      ensures store.file.record.stage.Failed? || exit.Err?
              || Climbed(store.file.record, installed, feed.force)
              || (LeftAsCurrent(store.file.record, installed) && install == old(install) && PayloadMatches(staging, install))
      ensures exit.Err? ==> install == old(install)
      ensures StagedEnds(old(Now()), VersionInfo(version, ResolvedChannel(args, feed), sha256),
                         !feed.force && CompareVersions(version, installed) == 0, args, e, exit, store.file.record)
    {
      ActionsByOrder(installed, version, feed.force);
      var action := DecideVersionAction(installed, version, feed.force);
      hide Inv, IsRun, IsNormal, Record.IsActive, Record.WellFormed, DecideVersionAction, LoadInstalledVersion, PayloadMatches,
           CompareVersions, Reported, RunnerOwns, KeepsRequest, AskedBy, Arguments.HasExplicitRelease, StagedEnds;
      var channel := if !args.HasExplicitRelease() then feed.channel
                     else if IsBlank(args.channel) then "stable" else args.channel;
      exit := ApplyFetched(state, version, channel, sha256, stagedPath, action.AlreadyCurrent?, e);
    }

    /** The ordinary course of an update, from its first stage on. */
    method RunFresh(e: Environment, feed: Feed) returns (exit: Result<int>)
      requires Valid() && store.file.record.IsActive() && IsNormal(store.file.record.stage)
      modifies store, this`install, this`staging, this`backup, this`history
      ensures Valid() && old(history) <= history
      ensures store.file.record.IsActive() ==> IsNormal(store.file.record.stage) && install == old(install)
      ensures Reported(exit, store.file.record, e)
      ensures store.file.record.IsActive() || store.file.record.stage.Failed? || exit.Err?
              || Climbed(store.file.record, LoadInstalledVersion(old(install), e.configured), feed.force)
              || (LeftAsCurrent(store.file.record, LoadInstalledVersion(old(install), e.configured))
                  && install == old(install) && PayloadMatches(staging, install))
      ensures exit.Err? ==> install == old(install)
      ensures FreshEnds(old(Now()), feed, args, e, exit, store.file.record)
    {
      ghost var w := Now();
      var installed := LoadInstalledVersion(install, e.configured);
      var version := ResolvedVersion(args, feed);
      var state := new UpdateState(store.file.record);
      ResolvedIsAsked(args, feed);
      hide Inv, IsRun, IsNormal, Record.IsActive, Record.WellFormed, DecideVersionAction, LoadInstalledVersion, PayloadMatches,
           Arguments.HasExplicitRelease, Arguments.HasExplicitTarget, Reported, RunnerOwns, KeepsRequest, AskedBy,
           CompareVersions, ResolvedEnds, ResolutionFailure, Climbed, LeftAsCurrent, ResolvedVersion, ResolvedUrl, SameWork;
      var failure := ResolveRelease(state, installed, version, feed);
      if failure.Some? {
        NormalPhase(state.currentStage);
        FailUpdate(state, failure.value);
        FailureIsReported(25, store.file.record, e);
        return Ok(25);
      }
      ResolvedEndsAlike(Now(), w.(rec := w.rec.(id := ResolvedId(w.rec.id, args, feed))), installed, feed, args, e);
      exit := ApplyResolved(state, installed, version, feed, e);
    }

    /** From a release on record to the end of the update; a runner without the rights for it hands the update over. */
    method ApplyResolved(state: UpdateState, installed: string, version: string, feed: Feed, e: Environment)
      returns (exit: Result<int>)
      requires Valid() && InStep(state)
      requires store.file.record.fromVersion == installed && store.file.record.id.targetVersion == version
      requires installed == LoadInstalledVersion(install, e.configured)
      requires feed.force || CompareVersions(version, installed) >= 0
      requires version == ResolvedVersion(args, feed)
      modifies store, this`install, this`staging, this`backup, this`history, state
      ensures Valid() && old(history) <= history
      ensures store.file.record.IsActive() ==> IsNormal(store.file.record.stage) && install == old(install)
      ensures Reported(exit, store.file.record, e)
      ensures store.file.record.IsActive() || store.file.record.stage.Failed? || exit.Err?
              || Climbed(store.file.record, installed, feed.force)
              || (LeftAsCurrent(store.file.record, installed) && install == old(install) && PayloadMatches(staging, install))
      ensures exit.Err? ==> install == old(install)
      ensures ResolvedEnds(old(Now()), installed, feed, args, e, exit, store.file.record)
    {
      hide Inv, IsRun, IsNormal, Record.IsActive, Record.WellFormed, LoadInstalledVersion, PayloadMatches, Reported,
           RunnerOwns, KeepsRequest, AskedBy, CompareVersions, FetchEnds, Climbed, LeftAsCurrent, ResolvedVersion;
      if !e.admin {
        HandOverIsReported(store.file.record, e);
        return Ok(0);
      }
      if !feed.checksums {
        exit := Err("The checksums cannot be used.");
        ErrorsReportThemselves(exit, store.file.record, e);
        return;
      }
      exit := FetchAndApply(state, installed, version, feed, e);
    }

    /** A whole runner: it takes up whatever the last one left. */
    method RunUpdate(e: Environment, feed: Feed) returns (exit: Result<int>)
      requires Valid()
      modifies store, this`install, this`staging, this`backup, this`history
      ensures Valid() && old(history) <= history
      ensures Reported(exit, store.file.record, e)
      ensures store.file.record.IsActive() ==>
                install == old(install) && (IsNormal(store.file.record.stage) || (exit.Err? && store.file == old(store.file)))
      ensures exit.Err? ==> install == old(install)
      ensures !old(store.file.record.IsActive()) ==> store.file == old(store.file) && install == old(install)
      ensures IsWhole(original, Now())
      ensures AskedBy(args).Some? && RunnerOwns(old(store.file.record), args) ==>
                && (forall i :: |old(history)| <= i < |history| ==> RunnerOwns(history[i].rec, args))
                && RunnerOwns(store.file.record, args) && (exit.Err? ==> !FetchWorks(feed))
      ensures RunEnds(old(Now()), feed, args, e, exit, store.file.record)
    {
      hide IsWhole, Inv, IsRun, IsNormal, Record.IsActive, Record.WellFormed, Reported, Truthful, RunnerOwns, AskedBy,
           RunEnds, FetchWorks;
      exit := Run(e, feed);
      if AskedBy(args).Some? && RunnerOwns(old(store.file.record), args) {
        OwnedRunsFetch(old(Now()), feed, args, e, exit, store.file.record);
        RunsAreNonempty(old(history));
        RunKeepsOwnership(history, |old(history)| - 1, args);
      }
      InvIsWhole(original, Now());
    }

    /** The steps of a whole runner. */
    method Run(e: Environment, feed: Feed) returns (exit: Result<int>)
      requires Valid()
      modifies store, this`install, this`staging, this`backup, this`history
      ensures Valid() && old(history) <= history
      ensures Reported(exit, store.file.record, e)
      ensures store.file.record.IsActive() ==>
                install == old(install) && (IsNormal(store.file.record.stage) || (exit.Err? && store.file == old(store.file)))
      ensures exit.Err? ==> install == old(install)
      ensures !old(store.file.record.IsActive()) ==> store.file == old(store.file) && install == old(install)
      ensures RunEnds(old(Now()), feed, args, e, exit, store.file.record)
    {
      hide Inv, IsRun, IsNormal, Record.IsActive, Record.WellFormed, Reported, Truthful, RunnerOwns, AskedBy, RecoveryEnds,
           FreshEnds;
      var owned := OwnsRecord();
      if !owned {
        exit := Err("Runner execution does not match persisted state.");
        ErrorsReportThemselves(exit, store.file.record, e);
        return;
      }
      exit := RunOwned(e, feed);
    }

    /** What is left of the update is recovered, or it takes its ordinary course. */
    method RunOwned(e: Environment, feed: Feed) returns (exit: Result<int>)
      requires Valid()
      modifies store, this`install, this`staging, this`backup, this`history
      ensures Valid() && old(history) <= history
      ensures Reported(exit, store.file.record, e)
      ensures store.file.record.IsActive() ==> install == old(install) && IsNormal(store.file.record.stage)
      ensures exit.Err? ==> install == old(install)
      ensures !old(store.file.record.IsActive()) ==> store.file == old(store.file) && install == old(install)
      ensures if IsNormal(old(store.file.record.stage)) then FreshEnds(old(Now()), feed, args, e, exit, store.file.record)
              else exit.Ok? && RecoveryEnds(old(Now()), args, e, exit.value, store.file.record)
    {
      hide Inv, IsRun, IsNormal, Record.IsActive, Record.WellFormed, Reported, Truthful, RunnerOwns, AskedBy, RecoveryEnds,
           FreshEnds, LoadInstalledVersion, PayloadMatches, Climbed, LeftAsCurrent, Coherent, CompareVersions;
      var recovered := RunRecovery(e);
      if recovered.Some? {
        TruthIsReported(recovered.value, store.file.record, e);
        return Ok(recovered.value);
      }
      InvIsCoherent(original, Now());
      NormalIsActive(store.file.record);
      exit := RunFresh(e, feed);
    }

    /** Recovers what the last runner left, and reports from the record. */
    method RunRecovery(e: Environment) returns (exit: Option<int>)
      requires Valid()
      modifies store, this`install, this`backup, this`history
      ensures Valid() && old(history) <= history
      ensures exit.None? <==> IsNormal(old(store.file.record.stage))
      ensures exit.None? ==> store.file == old(store.file) && install == old(install) && history == old(history)
      ensures exit.Some? ==> !store.file.record.IsActive() && Truthful(exit.value, store.file.record, e.rollback)
      ensures exit.Some? ==> RecoveryEnds(old(Now()), args, e, exit.value, store.file.record)
      ensures !old(store.file.record.IsActive()) ==> store.file == old(store.file) && install == old(install)
    {
      ghost var w := Now();
      hide Inv, IsRun, IsNormal, Record.IsActive, Record.WellFormed, Truthful, RecoveryEnds;
      var initial := store.file.record.stage;
      exit := DispatchRecovery(e);
      if exit.Some? {
        if store.file.record.stage.Completed? || initial.RollbackWaitingHealthCheck? {
          RecoveredStands(w, args, e, exit.value, store.file.record);
        }
        var code := ReturnRecovered(initial, exit.value, e.rollback);
        exit := Some(code);
      }
    }
  }
}
