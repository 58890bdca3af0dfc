/** The persisted update record and the in-memory object whose Mark methods drive it from stage to stage. */
module UpdateRecords {
  import opened Text

  /** The stage names the updater writes; UnknownStage stands for any other name found in the file. */
  datatype Stage =
    | Received | CheckingVersion | Downloading | Downloaded | Validating | Validated | Staging | Staged
    | CreatingBackup | BackupCreated | StoppingService | ServiceStopped | Quiescing
    | ReplacingFiles | FilesReplaced
    | StartingService | ServiceStarted | WaitingHealthCheck
    | RollbackRequired | RollbackStarting | RollbackStoppingService | RollbackRestoringFiles
    | RollbackStartingService | RollbackWaitingHealthCheck
    | RolledBack | RollbackFailed | Completed | Failed
    | UnknownStage(name: string)

  datatype Status = StatusRunning | StatusCompleted | StatusFailed | OtherStatus(text: string)

  /** What names an update and the release it installs. */
  datatype Identity = Identity(
    updateId: string, jobId: string, source: string, channel: string, releaseId: string,
    targetVersion: string, packageUrl: string, expectedSha256: string)

  /** A release as a job spells it out, or as a runner resolves it. */
  datatype Release = Release(version: string, packageUrl: string, sha256: string)

  datatype Record = Record(
    id: Identity, fromVersion: string, stage: Stage, status: Status, attempt: int,
    stagingPath: string, backupPath: string, errorCode: string,
    rollbackRequired: bool, serviceStarted: bool, healthCheckConfirmed: bool,
    rollbackErrorCode: string, rollbackAttempt: int, previousVersionConfirmed: bool, restoredFileCount: int)
  {
    predicate IsActive() {
      !status.StatusCompleted? && !status.StatusFailed?
    }

    predicate SameUpdate(other: Record) {
      EqualsIgnoreCase(id.updateId, other.id.updateId)
    }

    /** What the store demands before it writes and after it reads. */
    predicate WellFormed() {
      && !IsBlank(id.updateId)
      && (stage.UnknownStage? ==> !IsBlank(stage.name))
      && (status.OtherStatus? ==> !IsBlank(status.text))
      && attempt >= 1
    }

    predicate IsGoodEnd() {
      IsGoodStage(stage)
    }
  }

  const DEFAULT_ERROR := "UPDATE_UNEXPECTED_ERROR"
  const DEFAULT_ROLLBACK_ERROR := "ROLLBACK_FAILED"

  function Created(updateId: string, jobId: string, fromVersion: string, targetVersion: string): Record {
    Record(Identity(updateId, jobId, "", "", "", targetVersion, "", ""), fromVersion, Received, StatusRunning, 1,
           "", "", "", false, false, false, "", 0, false, 0)
  }

  /** The outcome stages for which a runner reports success. */
  predicate IsGoodStage(s: Stage) {
    s.Completed? || s.RolledBack?
  }

  predicate IsFailureStage(s: Stage) {
    s.Failed? || s.RolledBack? || s.RollbackFailed?
  }

  /** The record after MarkStage. */
  function Marked(r: Record, stage: Stage, status: Status := StatusRunning): Record {
    var s := r.(stage := stage, status := status);
    if stage.ServiceStarted? then s.(serviceStarted := true)
    else if stage.RollbackRequired? || stage.RollbackStarting? then s.(rollbackRequired := true)
    else if stage.RolledBack? then s.(status := StatusFailed, previousVersionConfirmed := true)
    else if stage.RollbackFailed? || stage.Failed? then s.(status := StatusFailed)
    else if stage.Completed? then s.(status := StatusCompleted, healthCheckConfirmed := true)
    else s
  }

  function MarkedFailed(r: Record, code: string, rollbackRequired: bool := false): Record {
    Marked(r.(errorCode := if IsBlank(code) then DEFAULT_ERROR else code, rollbackRequired := rollbackRequired),
           Failed, StatusFailed)
  }

  function MarkedRollbackRequired(r: Record, code: string): Record {
    Marked(r.(errorCode := if IsBlank(code) then r.errorCode else code), RollbackRequired)
  }

  function MarkedRollbackFailed(r: Record, code: string): Record {
    Marked(r.(rollbackErrorCode := if IsBlank(code) then DEFAULT_ROLLBACK_ERROR else code, rollbackRequired := true),
           RollbackFailed, StatusFailed)
  }

  /** The record of an update that found its release already installed: completed, but with no health check. */
  function CompletedAsCurrent(r: Record): Record {
    Marked(r, Completed, StatusCompleted).(healthCheckConfirmed := false)
  }

  /** The in-memory record a runner or the agent works on. */
  class UpdateState {
    var id: Identity
    var fromVersion: string
    var currentStage: Stage
    var status: Status
    var attempt: int
    var stagingPath: string
    var backupPath: string
    var errorCode: string
    var rollbackRequired: bool
    var serviceStarted: bool
    var healthCheckConfirmed: bool
    var rollbackErrorCode: string
    var rollbackAttempt: int
    var previousVersionConfirmed: bool
    var restoredFileCount: int

    /** What serializing this object writes to the file. */
    function Snapshot(): Record
      reads this
    {
      Record(id, fromVersion, currentStage, status, attempt, stagingPath, backupPath, errorCode,
             rollbackRequired, serviceStarted, healthCheckConfirmed,
             rollbackErrorCode, rollbackAttempt, previousVersionConfirmed, restoredFileCount)
    }

    /** Deserializing a record gives a fresh object. */
    constructor (r: Record)
      ensures Snapshot() == r
    {
      id, fromVersion := r.id, r.fromVersion;
      currentStage, status, attempt := r.stage, r.status, r.attempt;
      stagingPath, backupPath, errorCode := r.stagingPath, r.backupPath, r.errorCode;
      rollbackRequired, serviceStarted := r.rollbackRequired, r.serviceStarted;
      healthCheckConfirmed, rollbackErrorCode := r.healthCheckConfirmed, r.rollbackErrorCode;
      rollbackAttempt, previousVersionConfirmed := r.rollbackAttempt, r.previousVersionConfirmed;
      restoredFileCount := r.restoredFileCount;
    }

    method MarkStage(stage: Stage, newStatus: Status := StatusRunning)
      modifies this
      ensures Snapshot() == Marked(old(Snapshot()), stage, newStatus)
    {
      currentStage := stage;
      status := newStatus;
      if stage.ServiceStarted? {
        serviceStarted := true;
      }
      if stage.RollbackRequired? || stage.RollbackStarting? {
        rollbackRequired := true;
      }
      if stage.RolledBack? {
        status, previousVersionConfirmed := StatusFailed, true;
      }
      if stage.RollbackFailed? || stage.Failed? {
        status := StatusFailed;
      }
      if stage.Completed? {
        status, healthCheckConfirmed := StatusCompleted, true;
      }
    }

    method MarkFailed(code: string, required: bool := false)
      modifies this
      ensures Snapshot() == MarkedFailed(old(Snapshot()), code, required)
    {
      errorCode := if IsBlank(code) then DEFAULT_ERROR else code;
      rollbackRequired := required;
      MarkStage(Failed, StatusFailed);
    }

    method MarkRollbackRequired(originalErrorCode: string)
      modifies this
      ensures Snapshot() == MarkedRollbackRequired(old(Snapshot()), originalErrorCode)
    {
      rollbackRequired := true;
      errorCode := if IsBlank(originalErrorCode) then errorCode else originalErrorCode;
      MarkStage(RollbackRequired);
    }

    method MarkRollbackFailed(code: string)
      modifies this
      ensures Snapshot() == MarkedRollbackFailed(old(Snapshot()), code)
    {
      rollbackErrorCode := if IsBlank(code) then DEFAULT_ROLLBACK_ERROR else code;
      rollbackRequired := true;
      MarkStage(RollbackFailed, StatusFailed);
    }
  }

  /** Status and stage tell the same story. */
  predicate Coherent(r: Record) {
    && !r.status.OtherStatus?
    && (r.status.StatusCompleted? <==> r.stage.Completed?)
    && (r.status.StatusFailed? <==> IsFailureStage(r.stage))
  }

  /** The edits the updater and the agent make to a record between Create and the end of an update. */
  datatype Edit =
    | ToStage(stage: Stage)
    | ToFailed(code: string)
    | ToRollbackRequired(code: string)
    | ToRollbackFailed(code: string)
    | ToAlreadyCurrent
    | BeginAttempt

  function Edited(r: Record, e: Edit): Record {
    match e
    case ToStage(s) => Marked(r, s)
    case ToFailed(code) => MarkedFailed(r, code)
    case ToRollbackRequired(code) => MarkedRollbackRequired(r, code)
    case ToRollbackFailed(code) => MarkedRollbackFailed(r, code)
    case ToAlreadyCurrent => CompletedAsCurrent(r)
    case BeginAttempt => r.(rollbackAttempt := 1)
  }

  function EditedAll(r: Record, edits: seq<Edit>): Record {
    if edits == [] then r else Edited(EditedAll(r, edits[..|edits| - 1]), edits[|edits| - 1])
  }

  /** Marking a stage as running, or a failure stage as failed, leaves a coherent record whatever it was before. */
  lemma MarkedIsCoherent(r: Record, stage: Stage, status: Status)
    requires status.StatusRunning? || (status.StatusFailed? && IsFailureStage(stage))
             || (status.StatusCompleted? && stage.Completed?)
    ensures Coherent(Marked(r, stage, status))
    ensures Marked(r, stage, status).IsActive() <==> !stage.Completed? && !IsFailureStage(stage)
  {
  }

  lemma EditKeepsCoherence(r: Record, e: Edit)
    requires Coherent(r)
    ensures Coherent(Edited(r, e))
  {
    match e
    case ToStage(s) => MarkedIsCoherent(r, s, StatusRunning);
    case ToFailed(code) => MarkedIsCoherent(r, Failed, StatusFailed);
    case ToRollbackRequired(code) => MarkedIsCoherent(r, RollbackRequired, StatusRunning);
    case ToRollbackFailed(code) => MarkedIsCoherent(r, RollbackFailed, StatusFailed);
    case ToAlreadyCurrent => MarkedIsCoherent(r, Completed, StatusCompleted);
    case BeginAttempt =>
  }

  /** Every record built from Create by such edits is coherent, so it is inactive exactly in a terminal stage. */
  lemma {:induction false} EditsKeepCoherence(id: string, job: string, from: string, target: string, edits: seq<Edit>)
    ensures Coherent(EditedAll(Created(id, job, from, target), edits))
  {
    if edits != [] {
      var before := edits[..|edits| - 1];
      EditsKeepCoherence(id, job, from, target, before);
      EditKeepsCoherence(EditedAll(Created(id, job, from, target), before), edits[|edits| - 1]);
    }
  }
}
