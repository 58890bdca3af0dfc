/** What recovery decides and what it reports: the classification of a persisted stage, the health-check wait, and the
    outcome of the automatic rollback as a function of what its environment does. */
module Recovery {
  import opened Text
  import opened UpdateRecords
  import opened ManagedFiles
  import opened Protocol

  datatype RecoveryAction = Normal | ResumeApply | HealthCheck | Rollback | StartRollback | AlreadyTerminal | FailSafe

  function ClassifyRecovery(r: Record): RecoveryAction {
    match r.stage
    case Received => Normal
    case CheckingVersion => Normal
    case Downloading => Normal
    case Downloaded => Normal
    case Validating => Normal
    case Validated => Normal
    case Staging => Normal
    case Staged => Normal
    case CreatingBackup => ResumeApply
    case BackupCreated => ResumeApply
    case StoppingService => ResumeApply
    case ServiceStopped => ResumeApply
    case Quiescing => ResumeApply
    case ReplacingFiles => StartRollback
    case FilesReplaced => StartRollback
    case StartingService => HealthCheck
    case ServiceStarted => HealthCheck
    case WaitingHealthCheck => HealthCheck
    case RollbackWaitingHealthCheck => HealthCheck
    case RollbackRequired => Rollback
    case RollbackStarting => Rollback
    case RollbackStoppingService => Rollback
    case RollbackRestoringFiles => Rollback
    case RollbackStartingService => Rollback
    case Completed => AlreadyTerminal
    case RolledBack => AlreadyTerminal
    case Failed => AlreadyTerminal
    case RollbackFailed => AlreadyTerminal
    case UnknownStage(_) => FailSafe
  }

  /** Recovery follows the phases of the protocol. */
  lemma ClassificationFollowsPhase(r: Record)
    ensures ClassifyRecovery(r).Normal? <==> IsNormal(r.stage)
    ensures ClassifyRecovery(r).ResumeApply? <==> IsPreReplacement(r.stage)
    ensures ClassifyRecovery(r).StartRollback? <==> Phase(r.stage) == 2
    ensures ClassifyRecovery(r).HealthCheck? <==> Phase(r.stage) == 3 || Phase(r.stage) == 5
    ensures ClassifyRecovery(r).Rollback? <==> Phase(r.stage) == 4
    ensures ClassifyRecovery(r).AlreadyTerminal? <==> IsTerminal(r.stage)
  {
  }

  lemma OnlyUnknownStagesFailSafe(r: Record)
    ensures ClassifyRecovery(r).FailSafe? <==> r.stage.UnknownStage?
  {
  }

  /** Recovery calls an update over exactly when its record is inactive. */
  lemma TerminalMeansInactive(r: Record)
    requires Coherent(r)
    ensures ClassifyRecovery(r).AlreadyTerminal? <==> !r.IsActive()
  {
  }

  /** Exit code of a runner that finds, or leaves, this record ended. */
  function TerminalExit(r: Record): int {
    if r.IsGoodEnd() then 0 else 1
  }

  datatype ServiceStatus = IsRunning | IsStopped | IsStopPending | IsNotInstalled | IsOther(name: string)
  {
    predicate HasExited() {
      IsStopped? || IsStopPending? || IsNotInstalled?
    }
  }

  datatype WaitResult = WaitCompleted | WaitRolledBack | FailedState | ServiceExitedEarly | Timeout

  /** One turn of the polling loop: the agent may have confirmed by then, and the service shows a status. */
  datatype Poll = Poll(confirm: bool, status: ServiceStatus)

  /** What the environment does around a health check: the agent may confirm before the service start returns, during
      the polls, or between the last poll and the runner's next save. */
  datatype HealthScript = HealthScript(early: bool, polls: seq<Poll>, late: bool)

  function AgentMoved(r: Record, acts: bool): Record {
    if acts then AgentConfirmed(r) else r
  }

  /** What the wait answers, and the record it leaves. */
  function WaitOutcome(r: Record, expectRollback: bool, polls: seq<Poll>): (WaitResult, Record)
    decreases |polls|
  {
    if polls == [] then (Timeout, r)
    else
      var current := AgentMoved(r, polls[0].confirm);
      if !expectRollback && current.stage.Completed? then (WaitCompleted, current)
      else if expectRollback && current.stage.RolledBack? then (WaitRolledBack, current)
      else if current.stage.RollbackFailed? || current.stage.Failed? || (current.rollbackRequired && !expectRollback) then
        (FailedState, current)
      else if polls[0].status.HasExited() then (ServiceExitedEarly, current)
      else WaitOutcome(current, expectRollback, polls[1..])
  }

  /** The agent confirms at a poll the wait gets to. */
  predicate ConfirmedWhilePolling(polls: seq<Poll>) {
    polls != [] && (polls[0].confirm || (!polls[0].status.HasExited() && ConfirmedWhilePolling(polls[1..])))
  }

  /** On a record waiting for its rollback to be confirmed, the wait reports the confirmation exactly when it comes while
      it polls, and otherwise leaves the record as it was. */
  lemma {:induction false} WaitSeesConfirmation(r: Record, polls: seq<Poll>)
    requires r.IsActive() && r.stage.RollbackWaitingHealthCheck?
    decreases |polls|
    ensures var (result, after) := WaitOutcome(r, true, polls);
            && (result.WaitRolledBack? <==> ConfirmedWhilePolling(polls))
            && after == if ConfirmedWhilePolling(polls) then AgentConfirmed(r) else r
  {
    if polls != [] && !polls[0].confirm && !polls[0].status.HasExited() {
      WaitSeesConfirmation(r, polls[1..]);
    }
  }

  /** The same for an update that waits to be confirmed as completed. */
  lemma {:induction false} WaitSeesCompletion(r: Record, polls: seq<Poll>)
    requires r.IsActive() && r.stage.WaitingHealthCheck? && !r.rollbackRequired
    decreases |polls|
    ensures var (result, after) := WaitOutcome(r, false, polls);
            && (result.WaitCompleted? <==> ConfirmedWhilePolling(polls))
            && (!ConfirmedWhilePolling(polls) ==>
                result == if exists i :: 0 <= i < |polls| && polls[i].status.HasExited() then ServiceExitedEarly else Timeout)
            && after == if ConfirmedWhilePolling(polls) then AgentConfirmed(r) else r
  {
    if polls != [] && !polls[0].confirm && !polls[0].status.HasExited() {
      WaitSeesCompletion(r, polls[1..]);
    }
  }

  /** The wait gives up on a service exactly when it is stopped, is being stopped, or is not installed. */
  lemma WaitGivesUpOn(r: Record, status: ServiceStatus)
    requires r.IsActive() && r.stage.WaitingHealthCheck? && !r.rollbackRequired
    ensures WaitOutcome(r, false, [Poll(false, status)]).0
            == if status.IsStopped? || status.IsStopPending? || status.IsNotInstalled? then ServiceExitedEarly else Timeout
  {
    WaitSeesCompletion(r, [Poll(false, status)]);
    assert [Poll(false, status)][0].status == status;
  }

  /** What the environment does during an automatic rollback. */
  datatype RollbackScript = RollbackScript(stops: bool, restoreBudget: nat, starts: bool, health: HealthScript)

  /** Whether TryBeginRollback starts or resumes a rollback on this record. */
  predicate CanBeginRollback(r: Record) {
    && r.IsActive()
    && ((r.stage.RollbackRequired? && r.rollbackAttempt == 0) || (IsRollbackWork(r.stage) && r.rollbackAttempt == 1))
  }

  function BegunRollback(r: Record): Record {
    Marked(r.(rollbackAttempt := 1), RollbackStarting)
  }

  datatype Outcome = Outcome(exit: int, stage: Stage)

  /** The rollback from the moment the restored version waits for its confirmation. */
  function ConfirmationOutcome(waiting: Record, s: RollbackScript): Outcome {
    var started := AgentMoved(waiting, s.health.early);
    if !s.starts then
      Outcome(1, if started.IsActive() then RollbackFailed else started.stage)
    else
      var (result, waited) := WaitOutcome(started, true, s.health.polls);
      if result.WaitRolledBack? then Outcome(0, RolledBack)
      else
        var saved := AgentMoved(waited, s.health.late);
        Outcome(1, if saved.IsActive() then RollbackFailed else saved.stage)
  }

  /** Exit code and final stage of ExecuteAutomaticRollbackCore; `restores` says whether the backup validates and the
      restore runs to its end. */
  function RollbackOutcome(r: Record, restores: bool, s: RollbackScript): Outcome {
    if !r.IsActive() then Outcome(TerminalExit(r), r.stage)
    else if CanBeginRollback(r) then
      if !s.stops || !restores then Outcome(1, RollbackFailed)
      else ConfirmationOutcome(Marked(BegunRollback(r), RollbackWaitingHealthCheck), s)
    else if r.rollbackAttempt >= 1 then
      var saved := AgentMoved(r, s.health.late);
      Outcome(1, if saved.IsActive() then RollbackFailed else saved.stage)
    else Outcome(1, r.stage)
  }

  /** The agent confirms the rollback at a moment nobody is looking: before a start that then fails, with no poll left,
      after the last poll, or on a record whose rollback can no longer begin. */
  predicate ConfirmedUnseen(r: Record, restores: bool, s: RollbackScript) {
    && r.IsActive()
    && if CanBeginRollback(r) then
         && s.stops && restores
         && if s.health.early then !s.starts || s.health.polls == []
            else s.starts && !ConfirmedWhilePolling(s.health.polls) && s.health.late
       else
         && r.rollbackAttempt >= 1 && s.health.late
         && (r.stage.RollbackWaitingHealthCheck? || r.stage.WaitingHealthCheck?)
  }

  lemma ConfirmationOutcomeIs(waiting: Record, s: RollbackScript)
    requires waiting.IsActive() && waiting.stage.RollbackWaitingHealthCheck?
    ensures var o := ConfirmationOutcome(waiting, s);
            && (o.exit == 0 <==> s.starts && if s.health.early then s.health.polls != [] else ConfirmedWhilePolling(s.health.polls))
            && (o.exit == 0 || o.exit == 1)
            && (o.stage.RolledBack? <==> s.health.early || (s.starts && (ConfirmedWhilePolling(s.health.polls) || s.health.late)))
            && (o.stage.RolledBack? || o.stage.RollbackFailed?)
  {
    if s.health.early {
      assert AgentConfirmed(waiting).stage.RolledBack?;
      if s.starts && s.health.polls != [] {
        assert AgentConfirmed(AgentConfirmed(waiting)) == AgentConfirmed(waiting);
      }
    } else if s.starts {
      WaitSeesConfirmation(waiting, s.health.polls);
    }
  }

  /** Somebody still looks when the restored version is confirmed. */
  predicate RestoreReported(s: RollbackScript) {
    s.starts && if s.health.early then s.health.polls != [] else ConfirmedWhilePolling(s.health.polls)
  }

  /** The restored version is confirmed before the runner gives up on it. */
  predicate RestoreConfirmed(s: RollbackScript) {
    s.health.early || (s.starts && (ConfirmedWhilePolling(s.health.polls) || s.health.late))
  }

  /** How a rollback ends that may restore the files. */
  function RollbackEnding(restores: bool, s: RollbackScript): Outcome {
    if !s.stops || !restores then Outcome(1, RollbackFailed)
    else Outcome(if RestoreReported(s) then 0 else 1, if RestoreConfirmed(s) then RolledBack else RollbackFailed)
  }

  /** A rollback of a record in its rollback phase restores the files exactly if it is the first attempt or one that has
      begun, and then its ending is decided by the stop, the restore and the confirmation. */
  lemma RollbackEndsAs(r: Record, restores: bool, s: RollbackScript)
    requires r.IsActive() && Phase(r.stage) == 4 && (CanBeginRollback(r) || r.rollbackAttempt >= 1)
    ensures RollbackOutcome(r, restores, s)
            == if CanBeginRollback(r) then RollbackEnding(restores, s) else Outcome(1, RollbackFailed)
  {
    if CanBeginRollback(r) && s.stops && restores {
      ConfirmationOutcomeIs(Marked(BegunRollback(r), RollbackWaitingHealthCheck), s);
      hide WaitOutcome, ConfirmationOutcome, ConfirmedWhilePolling;
    }
  }

  /** How a rollback ends that the record is yet to be marked for. */
  function RequiredEnding(r: Record, restores: bool, s: RollbackScript): Outcome {
    if r.rollbackAttempt == 0 then RollbackEnding(restores, s) else Outcome(1, RollbackFailed)
  }

  /** In the invariant, the first rollback of an update that is still in its replacement or its health check restores the
      files; of any other update it does so exactly if no attempt has been spent. */
  lemma RequiredRollbackEnds(original: Files, w: World, code: string, restores: bool, s: RollbackScript)
    requires Inv(original, w) && w.rec.IsActive()
    requires Phase(w.rec.stage) == 2 || Phase(w.rec.stage) == 3 || w.rec.stage.UnknownStage?
    ensures RollbackOutcome(MarkedRollbackRequired(w.rec, code), restores, s)
            == RequiredEnding(w.rec, restores, s)
    ensures !w.rec.stage.UnknownStage? ==> w.rec.rollbackAttempt == 0
  {
    hide InstallFits, BackupFits, RollbackOutcome, RollbackEnding, CanBeginRollback, Coherent, IsRollbackWork;
    AttemptsLeft(original, w);
    RequiredMark(w.rec, code);
    RollbackEndsAs(MarkedRollbackRequired(w.rec, code), restores, s);
  }

  lemma AttemptsLeft(original: Files, w: World)
    requires Inv(original, w)
    ensures w.rec.stage.UnknownStage? ==> 0 <= w.rec.rollbackAttempt <= 1
    ensures Phase(w.rec.stage) == 2 || Phase(w.rec.stage) == 3 ==> w.rec.rollbackAttempt == 0 && !w.rec.stage.UnknownStage?
  {
    hide InstallFits, BackupFits, Coherent;
  }

  lemma RequiredMark(r: Record, code: string)
    ensures var marked := MarkedRollbackRequired(r, code);
            && marked.IsActive() && Phase(marked.stage) == 4 && marked.rollbackAttempt == r.rollbackAttempt
            && (CanBeginRollback(marked) <==> r.rollbackAttempt == 0)
  {
  }

  /** The same for a rollback that has been required or begun. */
  lemma ResumedRollbackEnds(original: Files, w: World, restores: bool, s: RollbackScript)
    requires Inv(original, w) && w.rec.IsActive() && Phase(w.rec.stage) == 4
    ensures RollbackOutcome(w.rec, restores, s)
            == if w.rec.stage.RollbackRequired? && w.rec.rollbackAttempt != 0 then Outcome(1, RollbackFailed)
               else RollbackEnding(restores, s)
  {
    hide InstallFits, BackupFits, RollbackOutcome, RollbackEnding, Coherent;
    RollbackEndsAs(w.rec, restores, s);
  }

  /** The rollback's exit code tells the truth: zero only on a good ending, and on every good ending, exactly unless the
      agent confirms unseen. */
  lemma RollbackExitTellsTheTruth(r: Record, restores: bool, s: RollbackScript)
    requires Coherent(r)
    ensures var o := RollbackOutcome(r, restores, s);
            && (o.exit == 0 || o.exit == 1)
            && (o.exit == 0 ==> IsGoodStage(o.stage))
            && ((o.exit == 0 <==> IsGoodStage(o.stage)) <==> !ConfirmedUnseen(r, restores, s))
  {
    if CanBeginRollback(r) && s.stops && restores {
      var waiting := Marked(BegunRollback(r), RollbackWaitingHealthCheck);
      ConfirmationOutcomeIs(waiting, s);
      hide WaitOutcome, ConfirmationOutcome, CanBeginRollback, BegunRollback;
    }
  }

  /** A rollback that the agent confirms after the last poll is reported as failed while the record says rolled back. */
  lemma LateConfirmationIsReportedAsFailure()
    ensures var r := Marked(Created("u", "", "1.0", "2.0"), RollbackRequired);
            var s := RollbackScript(true, 0, true, HealthScript(false, [Poll(false, IsRunning)], true));
            RollbackOutcome(r, true, s) == Outcome(1, RolledBack)
  {
    var waiting := Marked(BegunRollback(Marked(Created("u", "", "1.0", "2.0"), RollbackRequired)), RollbackWaitingHealthCheck);
    ConfirmationOutcomeIs(waiting, RollbackScript(true, 0, true, HealthScript(false, [Poll(false, IsRunning)], true)));
  }

  /** The rollback leaves the record ended, exactly unless the rollback can neither begin nor count as begun. */
  lemma RollbackEndsTheUpdate(r: Record, restores: bool, s: RollbackScript)
    requires Coherent(r)
    ensures IsTerminal(RollbackOutcome(r, restores, s).stage)
            <==> !r.IsActive() || CanBeginRollback(r) || r.rollbackAttempt >= 1
  {
    if CanBeginRollback(r) && s.stops && restores {
      ConfirmationOutcomeIs(Marked(BegunRollback(r), RollbackWaitingHealthCheck), s);
      hide WaitOutcome, ConfirmationOutcome;
    }
  }

  // The moves a runner makes are saves the protocol allows.

  predicate CanWrite(w: World, r: Record) {
    r.WellFormed() && r.id.updateId == w.rec.id.updateId && MayPersist(w, r)
  }

  lemma StageMove(w: World, stage: Stage)
    requires w.rec.IsActive() && w.rec.WellFormed() && Follows(w.rec.stage, stage) && FilesAllow(w, stage)
    requires !IsTerminal(stage) && !stage.RollbackStarting? && !stage.UnknownStage?
    ensures CanWrite(w, Marked(w.rec, stage))
  {
    hide FilesAllow, Follows, IsBlank;
  }

  lemma FailedMove(w: World, code: string)
    requires w.rec.IsActive() && w.rec.WellFormed() && Phase(w.rec.stage) <= 1 && !w.rec.stage.UnknownStage?
    ensures CanWrite(w, MarkedFailed(w.rec, code))
  {
    hide IsBlank, ValidBackup, PayloadInstalled, RestoreFinished, CopyFinished, VersionWritten;
  }

  lemma RollbackRequiredMove(w: World, code: string)
    requires w.rec.IsActive() && w.rec.WellFormed()
    requires Phase(w.rec.stage) == 2 || Phase(w.rec.stage) == 3
             || (w.rec.stage.UnknownStage? && ValidBackup(w.backup, w.rec.id.updateId, w.rec.fromVersion))
    ensures CanWrite(w, MarkedRollbackRequired(w.rec, code))
  {
    hide IsBlank, ValidBackup;
  }

  lemma RollbackFailedMove(w: World, code: string)
    requires w.rec.IsActive() && w.rec.WellFormed()
    requires Phase(w.rec.stage) == 4 || Phase(w.rec.stage) == 5 || w.rec.stage.UnknownStage?
    ensures CanWrite(w, MarkedRollbackFailed(w.rec, code))
  {
    hide IsBlank;
  }

  lemma BeginRollbackMove(w: World)
    requires w.rec.WellFormed() && CanBeginRollback(w.rec)
    ensures CanWrite(w, BegunRollback(w.rec))
    ensures BegunRollback(w.rec).IsActive() && BegunRollback(w.rec).stage.RollbackStarting?
  {
    hide IsBlank;
  }

  lemma AgentKeepsWellFormed(r: Record)
    requires r.WellFormed()
    ensures AgentConfirmed(r).WellFormed() && AgentConfirmed(r).id == r.id
    ensures r.IsActive() && AgentConfirmed(r).IsActive() ==> AgentConfirmed(r) == r
  {
    hide IsBlank;
  }

  lemma MarkedIsWellFormed(r: Record, stage: Stage)
    requires r.WellFormed() && !stage.UnknownStage?
    ensures Marked(r, stage).WellFormed() && Marked(r, stage).id == r.id
  {
    hide IsBlank;
  }

  /** The restore's result is written into the record without changing its stage. */
  lemma RestoredCountMove(w: World, count: int)
    requires w.rec.IsActive() && w.rec.WellFormed() && Coherent(w.rec) && w.rec.stage.RollbackRestoringFiles?
    ensures CanWrite(w, w.rec.(restoredFileCount := count))
  {
    hide IsBlank;
  }

  /** The backup validates and the restore gets through all of its files. */
  predicate RestoreSucceeds(w: World, budget: nat) {
    && ValidBackup(w.backup, w.rec.id.updateId, w.rec.fromVersion)
    && budget >= |Managed(w.install).Keys| + |w.backup.value.manifest.value.files|
  }

  lemma MarkedRollbackFailedIsWellFormed(r: Record, code: string)
    requires r.WellFormed()
    ensures MarkedRollbackFailed(r, code).WellFormed() && MarkedRollbackFailed(r, code).id == r.id
    ensures !MarkedRollbackFailed(r, code).IsActive() && MarkedRollbackFailed(r, code).stage.RollbackFailed?
  {
    hide IsBlank;
  }

  /** A record waiting for its rollback is in the rollback health phase, or the agent has confirmed it. */
  lemma WaitingPhases(r: Record)
    requires r.IsActive() && r.stage.RollbackWaitingHealthCheck?
    ensures Phase(r.stage) == 5
    ensures AgentConfirmed(r).stage.RolledBack? && !AgentConfirmed(r).IsActive()
    ensures AgentConfirmed(AgentConfirmed(r)) == AgentConfirmed(r)
  {
  }

  /** A wait that reports a confirmation leaves the confirmed record. */
  lemma {:induction false} WaitReportsTheRecord(r: Record, expectRollback: bool, polls: seq<Poll>)
    ensures var (result, after) := WaitOutcome(r, expectRollback, polls);
            && (result.WaitRolledBack? ==> expectRollback && after.stage.RolledBack?)
            && (result.WaitCompleted? ==> !expectRollback && after.stage.Completed?)
    decreases |polls|
  {
    if polls != [] {
      WaitReportsTheRecord(AgentMoved(r, polls[0].confirm), expectRollback, polls[1..]);
    }
  }

  /** Whatever the agent does while a runner waits, the record is still the one waiting or the one it confirmed. */
  lemma {:induction false} WaitKeepsPhase(r: Record, expectRollback: bool, polls: seq<Poll>)
    ensures var after := WaitOutcome(r, expectRollback, polls).1; after == r || after == AgentConfirmed(r)
    decreases |polls|
  {
    if polls != [] {
      AgentConfirmsOnce(r);
      var current := AgentMoved(r, polls[0].confirm);
      WaitKeepsPhase(current, expectRollback, polls[1..]);
    }
  }

  lemma AgentConfirmsOnce(r: Record)
    ensures AgentConfirmed(AgentConfirmed(r)) == AgentConfirmed(r)
  {
  }

  lemma MarkedFacts(r: Record, stage: Stage)
    requires !IsTerminal(stage)
    ensures var m := Marked(r, stage);
            m.stage == stage && m.IsActive() && m.id == r.id && m.fromVersion == r.fromVersion
            && m.rollbackAttempt == r.rollbackAttempt
  {
  }

  lemma BegunFacts(r: Record)
    ensures var m := BegunRollback(r);
            m.stage.RollbackStarting? && m.IsActive() && m.id == r.id && m.fromVersion == r.fromVersion
  {
  }

  /** An active record whose rollback attempt is spent but cannot be resumed may still be marked as a failed rollback. */
  lemma UsedUpAttempt(original: Files, w: World)
    requires Inv(original, w) && w.rec.IsActive() && w.rec.rollbackAttempt >= 1 && !CanBeginRollback(w.rec)
    ensures Phase(w.rec.stage) == 4 || Phase(w.rec.stage) == 5 || w.rec.stage.UnknownStage?
  {
    hide InstallFits, BackupFits;
  }

  /** The confirmation depends on the waiting, not on what else the record says. */
  lemma ConfirmationOfAnyWaitingRecord(a: Record, b: Record, s: RollbackScript)
    requires a.IsActive() && a.stage.RollbackWaitingHealthCheck?
    requires b.IsActive() && b.stage.RollbackWaitingHealthCheck?
    ensures ConfirmationOutcome(a, s) == ConfirmationOutcome(b, s)
  {
    ConfirmationOutcomeIs(a, s);
    ConfirmationOutcomeIs(b, s);
    hide ConfirmationOutcome;
  }

  lemma RollbackStageOrder()
    ensures Follows(RollbackStarting, RollbackStoppingService) && Follows(RollbackStoppingService, RollbackRestoringFiles)
    ensures Follows(RollbackRestoringFiles, RollbackStartingService)
    ensures Follows(RollbackStartingService, RollbackWaitingHealthCheck)
  {
  }

  lemma UpdateStageOrder()
    ensures Follows(BackupCreated, StoppingService) && Follows(StoppingService, ServiceStopped)
    ensures Follows(ServiceStopped, Quiescing) && Follows(Quiescing, ReplacingFiles)
    ensures Follows(ReplacingFiles, FilesReplaced) && Follows(FilesReplaced, StartingService)
    ensures Follows(StartingService, WaitingHealthCheck) && Follows(ServiceStarted, WaitingHealthCheck)
  {
  }

  lemma NeedsNoFiles(w: World, stage: Stage)
    requires NeedsNothing(stage)
    ensures FilesAllow(w, stage)
  {
  }

  lemma RestoreSucceedsAlike(w: World, w': World, budget: nat)
    requires w.install == w'.install && w.backup == w'.backup
    requires w.rec.id == w'.rec.id && w.rec.fromVersion == w'.rec.fromVersion
    ensures RestoreSucceeds(w, budget) <==> RestoreSucceeds(w', budget)
  {
    hide ValidManifest;
  }

  lemma InvalidBackupCannotRestore(w: World, budget: nat)
    ensures RestoreSucceeds(w, budget) ==> ValidBackup(w.backup, w.rec.id.updateId, w.rec.fromVersion)
  {
  }

  // What every path of a recovery promises.

  /** The rollback's environment gives the agent a chance to confirm while nobody looks. */
  predicate CanMissConfirmation(s: RollbackScript) {
    s.health.late || (s.health.early && (!s.starts || s.health.polls == []))
  }

  /** Exit code zero only on a good ending; and on every good ending, unless a confirmation could go unseen. */
  predicate Truthful(exit: int, r: Record, s: RollbackScript) {
    && (exit == 0 || exit == 1)
    && (exit == 0 ==> r.IsGoodEnd())
    && (r.IsGoodEnd() && !CanMissConfirmation(s) ==> exit == 0)
  }

  /** In the invariant, a rollback phase record is one a rollback can end. */
  lemma RollbackPhaseCanEnd(original: Files, w: World)
    requires Inv(original, w) && w.rec.IsActive() && Phase(w.rec.stage) == 4
    ensures CanBeginRollback(w.rec) || w.rec.rollbackAttempt >= 1
  {
    hide InstallFits, BackupFits;
  }

  /** A rollback that can begin, or whose attempt is spent, ends the update and reports it truthfully. */
  lemma RollbackOutcomeIsFinal(r: Record, restores: bool, s: RollbackScript, exit: int, after: Record)
    requires Coherent(r) && Coherent(after)
    requires r.IsActive() ==> CanBeginRollback(r) || r.rollbackAttempt >= 1
    requires Outcome(exit, after.stage) == RollbackOutcome(r, restores, s)
    ensures !after.IsActive() && Truthful(exit, after, s)
    ensures r.IsActive() && Phase(r.stage) == 4 ==> !after.stage.Completed?
  {
    RollbackExitTellsTheTruth(r, restores, s);
    RollbackEndsTheUpdate(r, restores, s);
    if r.IsActive() && Phase(r.stage) == 4 {
      RollbackNeverCompletes(r, restores, s);
    }
    hide RollbackOutcome, CanBeginRollback;
  }

  lemma RollbackNeverCompletes(r: Record, restores: bool, s: RollbackScript)
    requires r.IsActive() && Phase(r.stage) == 4
    ensures !RollbackOutcome(r, restores, s).stage.Completed?
  {
    if CanBeginRollback(r) {
      ConfirmationOutcomeIs(Marked(BegunRollback(r), RollbackWaitingHealthCheck), s);
      hide ConfirmationOutcome;
    }
  }

  /** The version an installation reports, with the configured one to fall back on. */
  function LoadInstalledVersion(install: Files, configured: string): string {
    if VERSION_FILE in install && install[VERSION_FILE].VersionInfo? && !IsBlank(install[VERSION_FILE].version) then
      install[VERSION_FILE].version
    else if IsBlank(configured) then "0.0.0"
    else configured
  }

  /** No update is flagged for a rollback before it needs one. */
  lemma FlagIsOff(original: Files, w: World)
    requires Inv(original, w) && IsBeforeRollback(w.rec.stage)
    ensures !w.rec.rollbackRequired
  {
    hide InstallFits, BackupFits;
  }

  lemma InvIsCoherent(original: Files, w: World)
    requires Inv(original, w)
    ensures Coherent(w.rec)
  {
    hide InstallFits, BackupFits, AttemptFits, Coherent;
  }

  lemma RollbackRequiredFacts(r: Record, code: string)
    ensures MarkedRollbackRequired(r, code).IsActive() && Phase(MarkedRollbackRequired(r, code).stage) == 4
  {
  }

  lemma MarkedCodeIsKept(r: Record, code: string)
    requires code != "" && !IsWhite(code[0])
    ensures MarkedRollbackRequired(r, code).errorCode == code
  {
  }

  lemma MarkedFailedFacts(r: Record, code: string)
    ensures !MarkedFailed(r, code).IsActive() && MarkedFailed(r, code).stage.Failed?
    ensures code != "" && !IsWhite(code[0]) ==> MarkedFailed(r, code).errorCode == code
  {
  }

  /** A record in a health phase stays in it, or has been confirmed by the agent. */
  lemma AgentMoveKeepsHealthPhase(r: Record, acts: bool)
    requires r.IsActive() && (Phase(r.stage) == 3 || Phase(r.stage) == 5)
    ensures r.stage.RollbackWaitingHealthCheck? <==> Phase(r.stage) == 5
    ensures AgentMoved(r, acts).IsActive() <==> !(acts && (r.stage.RollbackWaitingHealthCheck? || r.stage.WaitingHealthCheck?))
    ensures var after := AgentMoved(r, acts);
            if after.IsActive() then after == r
            else if r.stage.RollbackWaitingHealthCheck? then after.stage.RolledBack?
            else after.stage.Completed? && r.stage.WaitingHealthCheck?
  {
  }

  lemma HealthWaitFacts(r: Record)
    requires r.IsActive() && (r.stage.WaitingHealthCheck? || r.stage.RollbackWaitingHealthCheck?)
    ensures Phase(r.stage) == if r.stage.WaitingHealthCheck? then 3 else 5
    ensures AgentConfirmed(AgentConfirmed(r)) == AgentConfirmed(r) && !AgentConfirmed(r).IsActive()
    ensures if r.stage.WaitingHealthCheck? then AgentConfirmed(r).stage.Completed? else AgentConfirmed(r).stage.RolledBack?
  {
  }

  lemma TerminalIsTruthful(r: Record, s: RollbackScript)
    ensures Truthful(TerminalExit(r), r, s) && (TerminalExit(r) == 0 <==> r.IsGoodEnd())
  {
  }

  lemma RollbackFailedIsTruthful(r: Record, s: RollbackScript)
    requires r.stage.RollbackFailed?
    ensures Truthful(1, r, s)
  {
  }

  /** The same update, moved on to a stage. */
  predicate Continues(before: Record, after: Record, stage: Stage) {
    && after.IsActive() && after.stage == stage
    && after.id == before.id && after.fromVersion == before.fromVersion
  }

  lemma PreparationPhases()
    ensures forall s: Stage :: IsNormal(s) || IsPreReplacement(s) ==> Phase(s) <= 1 && !s.UnknownStage?
    ensures forall s: Stage :: IsPreReplacement(s) ==> Follows(s, BackupCreated)
  {
  }

  /** The stages that are announced whatever the files look like. */
  predicate NeedsNothing(stage: Stage) {
    && !stage.BackupCreated? && !stage.FilesReplaced? && !stage.StartingService?
    && !stage.RollbackStartingService? && !stage.Completed? && !stage.RollbackRequired?
  }

  /** A validated backup may be announced: a fresh one, or the one found. */
  lemma BackupAllowed(w: World, recreated: bool)
    requires ValidBackup(w.backup, w.rec.id.updateId, w.rec.fromVersion)
    requires if recreated then w.backup == Some(BackupOf(w.install, w.rec.id.updateId, w.rec.fromVersion))
             else !w.rec.stage.CreatingBackup?
    ensures FilesAllow(w, BackupCreated)
  {
  }

  lemma MarkedRollbackRequiredIsWellFormed(r: Record, code: string)
    requires r.WellFormed()
    ensures MarkedRollbackRequired(r, code).WellFormed() && MarkedRollbackRequired(r, code).id == r.id
  {
    hide IsBlank;
  }

  lemma HealthPhases()
    ensures Phase(ReplacingFiles) == 2 && Phase(FilesReplaced) == 2
    ensures Phase(StartingService) == 3 && Phase(WaitingHealthCheck) == 3
    ensures Follows(StartingService, WaitingHealthCheck)
  {
  }

  lemma NormalIsActive(r: Record)
    requires Coherent(r) && IsNormal(r.stage)
    ensures r.IsActive()
  {
  }
}
