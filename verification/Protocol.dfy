/** The update and rollback protocol as a transition system over what survives a crash: the persisted record and the
    installation, staging and backup trees. A runner's memory is not part of the world, so a crash is a step that
    changes nothing, and the next runner starts from whatever world the last one left. */
module Protocol {
  import opened Text
  import opened UpdateRecords
  import opened ManagedFiles

  /** The last part never changes: the release that was asked for, when the update was requested with one. */
  datatype World = World(rec: Record, install: Files, staging: Files, backup: Option<Backup>, asked: Option<Release>)

  datatype Action =
    | Crash                                // the runner dies; its memory is lost
    | AgentConfirms                        // the service confirms health on a waiting record
    | Persist(rec: Record)                 // the runner saves its record
    | Unpack(files: Files)                 // the package is extracted into staging
    | WriteBackup(backup: Option<Backup>)  // any file operation of CreateBackup, finished or torn
    | CopyStaged(path: Path, content: Content)    // any write of the package copy, finished or torn
    | WriteVersion(content: Content)       // any write of agent.version.json, finished or torn
    | DeleteManaged(path: Path)            // restore removes a managed file
    | RestoreFile(path: Path, content: Content)   // any write of the restore, finished or torn
    | DamageBackup(files: Files)           // the backed-up files are damaged from outside; the manifest stays

  /** The phases of an update, in order. */
  function Phase(s: Stage): nat {
    if IsNormal(s) || s.UnknownStage? then 0
    else if IsPreReplacement(s) then 1
    else if s.ReplacingFiles? || s.FilesReplaced? then 2
    else if IsUpdateHealth(s) then 3
    else if s.RollbackRequired? || IsRollbackWork(s) then 4
    else if s.RollbackWaitingHealthCheck? then 5
    else 6
  }

  predicate IsNormal(s: Stage) {
    || s.Received? || s.CheckingVersion? || s.Downloading? || s.Downloaded?
    || s.Validating? || s.Validated? || s.Staging? || s.Staged?
  }

  predicate IsPreReplacement(s: Stage) {
    s.CreatingBackup? || s.BackupCreated? || s.StoppingService? || s.ServiceStopped? || s.Quiescing?
  }

  predicate IsUpdateHealth(s: Stage) {
    s.StartingService? || s.ServiceStarted? || s.WaitingHealthCheck?
  }

  /** The stages from which a restarted rollback resumes. */
  predicate IsRollbackWork(s: Stage) {
    s.RollbackStarting? || s.RollbackStoppingService? || s.RollbackRestoringFiles? || s.RollbackStartingService?
  }

  predicate IsTerminal(s: Stage) {
    s.Completed? || IsFailureStage(s)
  }

  /** The stages a save may lead to from the persisted stage. */
  predicate Follows(from: Stage, to: Stage) {
    if IsNormal(to) then IsNormal(from)
    else if to.CreatingBackup? then IsNormal(from) || from.CreatingBackup?
    else if to.BackupCreated? then IsPreReplacement(from)
    else if to.StoppingService? then from.BackupCreated?
    else if to.ServiceStopped? then from.StoppingService?
    else if to.Quiescing? then from.ServiceStopped?
    else if to.ReplacingFiles? then from.Quiescing?
    else if to.FilesReplaced? then from.ReplacingFiles?
    else if to.StartingService? then from.FilesReplaced?
    else if to.ServiceStarted? then from.StartingService?
    else if to.WaitingHealthCheck? then from.StartingService? || from.ServiceStarted?
    else if to.RollbackRequired? then Phase(from) == 2 || Phase(from) == 3 || from.UnknownStage?
    else if to.RollbackStarting? then from.RollbackRequired? || IsRollbackWork(from)
    else if to.RollbackStoppingService? then from.RollbackStarting?
    else if to.RollbackRestoringFiles? then from.RollbackStoppingService? || from.RollbackRestoringFiles?
    else if to.RollbackStartingService? then from.RollbackRestoringFiles?
    else if to.RollbackWaitingHealthCheck? then from.RollbackStartingService?
    else if to.Completed? then IsNormal(from)
    else if to.Failed? then Phase(from) <= 1 && !from.UnknownStage?
    else if to.RollbackFailed? then Phase(from) == 4 || Phase(from) == 5 || from.UnknownStage?
    else false
  }

  predicate CopyFinished(w: World) {
    forall p :: p in Managed(w.staging) ==> p in w.install && w.install[p] == w.staging[p]
  }

  lemma OverlayFinishesCopy(w: World, before: Files)
    requires w.install == Overlay(before, w.staging)
    ensures CopyFinished(w)
  {
    OverlayHoldsThePackage(before, w.staging);
  }

  predicate RestoreFinished(w: World) {
    && ValidBackup(w.backup, w.rec.id.updateId, w.rec.fromVersion)
    && w.install == Restored(w.install, w.backup.value)
  }

  predicate VersionWritten(install: Files, version: string) {
    VERSION_FILE in install && install[VERSION_FILE].VersionInfo? && EqualsIgnoreCase(install[VERSION_FILE].version, version)
  }

  /** What must be true of the files before a stage is announced. */
  predicate FilesAllow(w: World, to: Stage) {
    && (to.BackupCreated? ==>
        && ValidBackup(w.backup, w.rec.id.updateId, w.rec.fromVersion)
        && (w.rec.stage.CreatingBackup? ==> w.backup == Some(BackupOf(w.install, w.rec.id.updateId, w.rec.fromVersion))))
    && (to.FilesReplaced? ==> CopyFinished(w))
    && (to.StartingService? ==> VersionWritten(w.install, w.rec.id.targetVersion))
    && (to.RollbackStartingService? ==> RestoreFinished(w))
    && (to.Completed? ==> PayloadInstalled(w.staging, w.install))
    && (to.RollbackRequired? && w.rec.stage.UnknownStage? ==>
        ValidBackup(w.backup, w.rec.id.updateId, w.rec.fromVersion))
  }

  /** The rollback attempt is counted when a required rollback starts, and at no other save. */
  predicate AttemptKept(before: Record, after: Record) {
    if after.stage.RollbackStarting? && before.stage.RollbackRequired? then
      before.rollbackAttempt == 0 && after.rollbackAttempt == 1
    else
      && after.rollbackAttempt == before.rollbackAttempt
      && (after.stage.RollbackStarting? ==> before.rollbackAttempt == 1)
      && (IsBeforeRollback(after.stage) ==> after.rollbackRequired == before.rollbackRequired)
  }

  /** Why an update is rolled back stays on record while it is. */
  predicate ReasonKept(before: Record, after: Record) {
    Phase(before.stage) == 4 || Phase(before.stage) == 5 ==> after.errorCode == before.errorCode
  }

  /** The stages of an update that has no need of a rollback yet. */
  predicate IsBeforeRollback(s: Stage) {
    Phase(s) <= 3 && !s.UnknownStage?
  }

  /** The request an update was made for stays, and a release that was asked for is never replaced by another. */
  predicate KeepsRequest(before: Identity, after: Identity, asked: Option<Release>) {
    && after == before.(targetVersion := after.targetVersion, packageUrl := after.packageUrl,
                        expectedSha256 := after.expectedSha256)
    && (asked.Some? ==>
        && (after.targetVersion == before.targetVersion || after.targetVersion == asked.value.version)
        && (after.packageUrl == before.packageUrl || after.packageUrl == asked.value.packageUrl)
        && (after.expectedSha256 == before.expectedSha256 || after.expectedSha256 == asked.value.sha256))
  }

  /** A save by the runner that owns the update. */
  predicate MayPersist(w: World, after: Record) {
    && w.rec.IsActive()
    && Coherent(after)
    && KeepsRequest(w.rec.id, after.id, w.asked)
    && (after.stage.Completed? ==> !after.healthCheckConfirmed)
    && (IsNormal(after.stage) || (after.id == w.rec.id && after.fromVersion == w.rec.fromVersion))
    && Follows(w.rec.stage, after.stage)
    && FilesAllow(w, after.stage)
    && AttemptKept(w.rec, after)
    && ReasonKept(w.rec, after)
  }

  function AgentConfirmed(r: Record): Record {
    if !r.IsActive() then r
    else if r.stage.WaitingHealthCheck? then Marked(r, Completed)
    else if r.stage.RollbackWaitingHealthCheck? then Marked(r, RolledBack)
    else r
  }

  predicate StepBy(a: Action, w: World, w': World) {
    match a
    case Crash => w' == w
    case AgentConfirms => w' == w.(rec := AgentConfirmed(w.rec))
    case Persist(r) => MayPersist(w, r) && w' == w.(rec := r)
    case Unpack(files) => w.rec.IsActive() && IsNormal(w.rec.stage) && w' == w.(staging := files)
    case WriteBackup(b) => w.rec.IsActive() && w.rec.stage.CreatingBackup? && w' == w.(backup := b)
    case CopyStaged(p, c) =>
      && w.rec.IsActive() && w.rec.stage.ReplacingFiles?
      && p in Managed(w.staging)
      && w' == w.(install := w.install[p := c])
    case WriteVersion(c) =>
      w.rec.IsActive() && w.rec.stage.FilesReplaced? && w' == w.(install := w.install[VERSION_FILE := c])
    case DeleteManaged(p) =>
      && w.rec.IsActive() && w.rec.stage.RollbackRestoringFiles?
      && p in Managed(w.install)
      && w' == w.(install := w.install - {p})
    case RestoreFile(p, c) =>
      && w.rec.IsActive() && w.rec.stage.RollbackRestoringFiles?
      && !IsProtected(p)
      && w' == w.(install := w.install[p := c])
    case DamageBackup(files) =>
      w.backup.Some? && !w.rec.stage.CreatingBackup? && w' == w.(backup := Some(w.backup.value.(files := files)))
  }

  ghost predicate Step(w: World, w': World) {
    exists a :: StepBy(a, w, w')
  }

  /** A history of worlds, each a step after the one before. */
  ghost predicate IsRun(h: seq<World>) {
    && |h| >= 1
    && (|h| == 1 || (IsRun(h[..|h| - 1]) && Step(h[|h| - 2], h[|h| - 1])))
  }

  /** A new update: its record has just been created, and nothing of it is on disk. */
  predicate IsStart(w: World) {
    && w.rec.stage.Received? && w.rec.status.StatusRunning?
    && w.rec.rollbackAttempt == 0 && !w.rec.rollbackRequired
  }

  /** The installation apart from the files the package and the version file replace. */
  ghost predicate OnlyPayloadDiffers(original: Files, install: Files, staging: Files) {
    forall p :: p !in Managed(staging) && p != VERSION_FILE ==>
                  (p in install <==> p in original) && (p in original ==> install[p] == original[p])
  }

  predicate AttemptFits(r: Record) {
    && (IsBeforeRollback(r.stage) ==> !r.rollbackRequired)
    && if r.stage.RolledBack? || IsRollbackWork(r.stage) || r.stage.RollbackWaitingHealthCheck? then r.rollbackAttempt == 1
    else if r.stage.UnknownStage? || r.stage.RollbackRequired? || r.stage.RollbackFailed? then 0 <= r.rollbackAttempt <= 1
    else r.rollbackAttempt == 0
  }

  /** What each stage guarantees about the installation. */
  ghost predicate InstallFits(original: Files, w: World) {
    var s := w.rec.stage;
    && ProtectedPart(w.install) == ProtectedPart(original)
    && (IsNormal(s) || IsPreReplacement(s) || s.Failed? ==> w.install == original)
    && (s.ReplacingFiles? || s.FilesReplaced? || IsUpdateHealth(s) || s.Completed? ==>
        OnlyPayloadDiffers(original, w.install, w.staging))
    && (s.FilesReplaced? || IsUpdateHealth(s) || s.Completed? ==> PayloadInstalled(w.staging, w.install))
    && (IsUpdateHealth(s) || (s.Completed? && w.rec.healthCheckConfirmed) ==>
        VersionWritten(w.install, w.rec.id.targetVersion))
    && (s.Completed? && !w.rec.healthCheckConfirmed ==> w.install == original)
    && (s.RollbackStartingService? || s.RollbackWaitingHealthCheck? || s.RolledBack? ==> w.install == original)
  }

  predicate HasManifestOf(b: Option<Backup>, updateId: string) {
    b.Some? && b.value.manifest.Some? && EqualsIgnoreCase(b.value.manifest.value.updateId, updateId)
  }

  /** The backup is genuine in every stage that may come to need it. */
  predicate BackupFits(original: Files, w: World) {
    var s := w.rec.stage;
    && ((IsPreReplacement(s) && !s.CreatingBackup?) || 2 <= Phase(s) <= 5 ==> Authentic(w.backup, original))
    && (s.UnknownStage? && HasManifestOf(w.backup, w.rec.id.updateId) ==> Authentic(w.backup, original))
  }

  ghost predicate Inv(original: Files, w: World) {
    && Coherent(w.rec)
    && AttemptFits(w.rec)
    && InstallFits(original, w)
    && BackupFits(original, w)
  }

  lemma StartEstablishesInv(w: World)
    requires IsStart(w)
    ensures Inv(w.install, w)
  {
    hide IsProtected;
  }

  /** A save keeps the record's promises. */
  lemma SaveKeepsRecord(w: World, after: Record)
    requires Coherent(w.rec) && AttemptFits(w.rec) && MayPersist(w, after)
    ensures Coherent(after) && AttemptFits(after)
  {
    hide IsProtected, ValidManifest, Restored, PayloadInstalled, CopyFinished;
  }

  lemma SaveKeepsInstall(original: Files, w: World, after: Record)
    requires Inv(original, w) && MayPersist(w, after)
    ensures InstallFits(original, w.(rec := after))
  {
    hide IsProtected, ValidManifest, Coherent, BackupOf, EqualsIgnoreCase, AttemptKept;
    var s, s' := w.rec.stage, after.stage;
    if s'.RollbackStartingService? {
      RestoreInvertsAnyUpdate(original, w.install, w.backup.value, w.rec.id.updateId, w.rec.fromVersion);
    }
  }

  lemma ValidBackupHasManifest(b: Option<Backup>, updateId: string, previousVersion: string)
    ensures ValidBackup(b, updateId, previousVersion) ==> HasManifestOf(b, updateId)
  {
  }

  lemma SaveKeepsBackup(original: Files, w: World, after: Record)
    requires Inv(original, w) && MayPersist(w, after)
    ensures BackupFits(original, w.(rec := after))
  {
    hide IsProtected, ValidManifest, Coherent, Restored;
    ValidBackupHasManifest(w.backup, w.rec.id.updateId, w.rec.fromVersion);
    if after.stage.BackupCreated? && w.rec.stage.CreatingBackup? {
      FreshBackupIsValid(w.install, w.rec.id.updateId, w.rec.fromVersion);
    }
  }

  lemma AgentKeepsInv(original: Files, w: World)
    requires Inv(original, w)
    ensures Inv(original, w.(rec := AgentConfirmed(w.rec)))
  {
    hide IsProtected, ValidManifest, VersionWritten, Authentic, PayloadInstalled, OnlyPayloadDiffers;
  }

  lemma PreparationKeepsInv(original: Files, a: Action, w: World, w': World)
    requires Inv(original, w) && StepBy(a, w, w') && (a.Unpack? || a.WriteBackup?)
    ensures Inv(original, w')
  {
    hide IsProtected, ValidManifest;
  }

  /** Only the package's own files and the version file are written while files are replaced. */
  lemma ReplacementKeepsInv(original: Files, a: Action, w: World, w': World)
    requires Inv(original, w) && StepBy(a, w, w') && (a.CopyStaged? || a.WriteVersion?)
    ensures Inv(original, w')
  {
    ReplacementKeepsInstall(original, a, w, w');
    BackupFitsAlike(original, w, w');
    hide IsProtected, InstallFits, BackupFits, Coherent, AttemptFits;
  }

  lemma BackupFitsAlike(original: Files, w: World, w': World)
    requires w.rec == w'.rec && w.backup == w'.backup
    ensures BackupFits(original, w) <==> BackupFits(original, w')
  {
    hide Authentic, HasManifestOf, Phase, IsPreReplacement;
  }

  lemma ReplacementKeepsInstall(original: Files, a: Action, w: World, w': World)
    requires InstallFits(original, w) && StepBy(a, w, w') && (a.CopyStaged? || a.WriteVersion?)
    ensures InstallFits(original, w')
  {
    VersionFileIsManaged();
    hide IsProtected, VersionWritten;
    assert ProtectedPart(w'.install) == ProtectedPart(w.install);
  }

  /** A restore, however far it gets, touches managed files only. */
  lemma RestoringKeepsInv(original: Files, a: Action, w: World, w': World)
    requires Inv(original, w) && StepBy(a, w, w') && (a.DeleteManaged? || a.RestoreFile?)
    ensures Inv(original, w')
  {
    hide IsProtected, ValidManifest, Authentic, Coherent, HasManifestOf, EqualsIgnoreCase;
    assert ProtectedPart(w'.install) == ProtectedPart(w.install);
  }

  /** Damage to the backed-up files leaves the manifest, which is what makes a later validation meaningful. */
  lemma DamageKeepsInv(original: Files, files: Files, w: World, w': World)
    requires Inv(original, w) && StepBy(DamageBackup(files), w, w')
    ensures Inv(original, w')
  {
    hide IsProtected, ValidManifest, Coherent, AttemptFits, OnlyPayloadDiffers, PayloadInstalled, VersionWritten;
  }

  /** Every step of the protocol keeps the invariant. */
  lemma StepKeepsInv(original: Files, w: World, w': World)
    requires Inv(original, w) && Step(w, w')
    ensures Inv(original, w')
  {
    hide Inv, MayPersist;
    var a :| StepBy(a, w, w');
    match a
    case Crash =>
    case AgentConfirms => AgentKeepsInv(original, w);
    case Persist(r) =>
      SaveKeepsInv(original, w, r);
    case Unpack(_) => PreparationKeepsInv(original, a, w, w');
    case WriteBackup(_) => PreparationKeepsInv(original, a, w, w');
    case CopyStaged(_, _) => ReplacementKeepsInv(original, a, w, w');
    case WriteVersion(_) => ReplacementKeepsInv(original, a, w, w');
    case DeleteManaged(_) => RestoringKeepsInv(original, a, w, w');
    case RestoreFile(_, _) => RestoringKeepsInv(original, a, w, w');
    case DamageBackup(files) => DamageKeepsInv(original, files, w, w');
  }

  lemma SaveKeepsInv(original: Files, w: World, after: Record)
    requires Inv(original, w) && MayPersist(w, after)
    ensures Inv(original, w.(rec := after))
  {
    SaveKeepsRecord(w, after);
    SaveKeepsInstall(original, w, after);
    SaveKeepsBackup(original, w, after);
    hide InstallFits, BackupFits, MayPersist, Coherent, AttemptFits;
  }

  /** The invariant holds in every world of every run, whatever crashes, resumes and confirmations it mixes. */
  lemma {:induction false} RunKeepsInv(original: Files, h: seq<World>)
    requires IsRun(h) && Inv(original, h[0])
    ensures forall i :: 0 <= i < |h| ==> Inv(original, h[i])
    decreases |h|
  {
    hide Inv;
    var n := |h| - 1;
    if n > 0 {
      var before := h[..n];
      RunKeepsInv(original, before);
      assert before[n - 1] == h[n - 1] && before[0] == h[0];
      StepKeepsInv(original, h[n - 1], h[n]);
      forall i | 0 <= i < |h|
        ensures Inv(original, h[i])
      {
        if i < n {
          assert before[i] == h[i];
        }
      }
    }
  }

  /** What the invariant says of an update that has ended. */
  predicate IsWhole(original: Files, w: World) {
    && (w.rec.stage.RolledBack? || w.rec.stage.Failed? ==> w.install == original)
    && (w.rec.stage.Completed? ==>
        && PayloadInstalled(w.staging, w.install)
        && if w.rec.healthCheckConfirmed then VersionWritten(w.install, w.rec.id.targetVersion) else w.install == original)
    && ProtectedPart(w.install) == ProtectedPart(original)
  }

  lemma InvIsWhole(original: Files, w: World)
    requires Inv(original, w)
    ensures IsWhole(original, w)
  {
    hide IsProtected, BackupFits, Coherent, AttemptFits, PayloadInstalled, OnlyPayloadDiffers;
  }

  /** How every update ends, over every run from its start: a failed or rolled-back update leaves exactly the tree it
      found; a completed one has every packaged file in place and nothing else changed, and either its version is the one
      installed and confirmed, or nothing was replaced at all. */
  lemma EveryEndingIsWhole(h: seq<World>, i: nat)
    requires IsRun(h) && IsStart(h[0]) && i < |h|
    ensures h[i].rec.stage.RolledBack? || h[i].rec.stage.Failed? ==> h[i].install == h[0].install
    ensures h[i].rec.stage.Completed? ==>
              PayloadInstalled(h[i].staging, h[i].install) && OnlyPayloadDiffers(h[0].install, h[i].install, h[i].staging)
    ensures h[i].rec.stage.Completed? && h[i].rec.healthCheckConfirmed ==>
              VersionWritten(h[i].install, h[i].rec.id.targetVersion)
    ensures h[i].rec.stage.Completed? && !h[i].rec.healthCheckConfirmed ==> h[i].install == h[0].install
    ensures ProtectedPart(h[i].install) == ProtectedPart(h[0].install)
  {
    StartEstablishesInv(h[0]);
    RunKeepsInv(h[0].install, h);
    hide IsProtected, BackupFits, Coherent, AttemptFits, PayloadInstalled, OnlyPayloadDiffers;
  }

  /** At no moment of any run is a guarded path touched. */
  lemma GuardedPathsStay(h: seq<World>, i: nat, path: Path)
    requires IsRun(h) && IsStart(h[0]) && i < |h| && IsGuarded(path)
    ensures SameAt(path, h[0].install, h[i].install)
  {
    EveryEndingIsWhole(h, i);
    ProtectedMeansGuarded(path);
    hide IsProtected, IsGuarded, IsRun, PayloadInstalled, OnlyPayloadDiffers, VersionWritten;
    assert path in h[0].install <==> path in ProtectedPart(h[0].install);
    assert path in h[i].install <==> path in ProtectedPart(h[i].install);
  }

  /** In every reachable world the record is inactive exactly in a terminal stage, and the rollback attempt is 0 or 1. */
  lemma EveryRecordCoheres(h: seq<World>, i: nat)
    requires IsRun(h) && IsStart(h[0]) && i < |h|
    ensures h[i].rec.IsActive() <==> !IsTerminal(h[i].rec.stage)
    ensures 0 <= h[i].rec.rollbackAttempt <= 1
  {
    StartEstablishesInv(h[0]);
    RunKeepsInv(h[0].install, h);
    hide InstallFits, BackupFits;
  }

  lemma SaveIsForward(before: Record, after: Record)
    requires Follows(before.stage, after.stage) && AttemptKept(before, after) && ReasonKept(before, after)
    ensures ReasonFixed(before, after)
    ensures Phase(before.stage) <= Phase(after.stage)
    ensures 4 <= Phase(before.stage) ==> !after.stage.Completed?
    ensures after.rollbackAttempt != before.rollbackAttempt ==>
              before.stage.RollbackRequired? && before.rollbackAttempt == 0 && after.rollbackAttempt == 1
  {
  }

  lemma AgentIsForward(r: Record)
    ensures Phase(r.stage) <= Phase(AgentConfirmed(r).stage)
    ensures !r.IsActive() ==> AgentConfirmed(r) == r
    ensures 4 <= Phase(r.stage) && !r.stage.Completed? ==> !AgentConfirmed(r).stage.Completed?
    ensures AgentConfirmed(r).rollbackAttempt == r.rollbackAttempt && AgentConfirmed(r).errorCode == r.errorCode
    ensures AgentConfirmed(r).id == r.id && AgentConfirmed(r).fromVersion == r.fromVersion
    ensures IsNormal(AgentConfirmed(r).stage) <==> IsNormal(r.stage)
  {
    AgentConfirmsTo(r);
    hide AgentConfirmed;
  }

  lemma AgentConfirmsTo(r: Record)
    ensures var after := AgentConfirmed(r);
            && (after == r || (r.IsActive() && after.stage == if r.stage.WaitingHealthCheck? then Completed else RolledBack))
            && (after != r ==> r.stage.WaitingHealthCheck? || r.stage.RollbackWaitingHealthCheck?)
            && after.rollbackAttempt == r.rollbackAttempt && after.id == r.id && after.fromVersion == r.fromVersion
            && after.errorCode == r.errorCode
  {
  }

  /** Once a rollback is required, its reason is never lost. */
  predicate ReasonFixed(before: Record, after: Record) {
    4 <= Phase(before.stage) && before.IsActive() ==> after.errorCode == before.errorCode
  }

  /** What two moments of one update have to do with each other. */
  predicate Forward(w: World, w': World) {
    && Phase(w.rec.stage) <= Phase(w'.rec.stage)
    && (!w.rec.IsActive() ==> w'.rec == w.rec && w'.install == w.install)
    && (4 <= Phase(w.rec.stage) && !w.rec.stage.Completed? ==> !w'.rec.stage.Completed?)
    && w.rec.rollbackAttempt <= w'.rec.rollbackAttempt
    && ReasonFixed(w.rec, w'.rec)
    && w'.asked == w.asked && KeepsRequest(w.rec.id, w'.rec.id, w.asked)
    && (!IsNormal(w.rec.stage) ==> !IsNormal(w'.rec.stage) && w'.rec.id == w.rec.id && w'.rec.fromVersion == w.rec.fromVersion)
  }

  /** One step never goes back a phase, never leaves a terminal record, and counts a rollback attempt only when a
      required rollback starts for the first time. */
  lemma StepIsForward(w: World, w': World)
    requires Step(w, w')
    ensures Forward(w, w')
    ensures w'.rec.rollbackAttempt != w.rec.rollbackAttempt ==>
              w.rec.stage.RollbackRequired? && w.rec.rollbackAttempt == 0 && w'.rec.rollbackAttempt == 1
  {
    var a :| StepBy(a, w, w');
    hide FilesAllow, Follows, AttemptKept, Phase, Coherent, IsProtected, AgentConfirmed;
    match a
    case Persist(r) => SaveIsForward(w.rec, r);
    case AgentConfirms => AgentIsForward(w.rec);
    case Unpack(_) => assert w'.rec == w.rec;
    case _ => assert w'.rec == w.rec && (!w.rec.IsActive() ==> w'.install == w.install);
  }

  /** Over a whole run, crashes included: phases never go back, nothing that entered rollback ever completes, an ended
      update stays as it ended, the attempt count never falls, and once the backup begins the release and the version it
      replaces are fixed. */
  lemma {:induction false} RunIsForward(h: seq<World>, i: nat, j: nat)
    requires IsRun(h) && i <= j < |h|
    ensures Forward(h[i], h[j])
    decreases j
  {
    hide Forward, IsRun, Step;
    RunPrefix(h, j);
    if i < j {
      RunIsForward(h, i, j - 1);
      StepIsForward(h[j - 1], h[j]);
      ForwardComposes(h[i], h[j - 1], h[j]);
    } else {
      ForwardToItself(h[i]);
    }
  }

  lemma ForwardToItself(w: World)
    ensures Forward(w, w)
  {
    hide Phase, IsNormal;
  }

  lemma ForwardComposes(a: World, b: World, c: World)
    requires Forward(a, b) && Forward(b, c)
    ensures Forward(a, c)
  {
    RequestsCompose(a.rec.id, b.rec.id, c.rec.id, a.asked);
    ReasonsCompose(a.rec, b.rec, c.rec);
    hide Phase, IsNormal, KeepsRequest, ReasonFixed;
  }

  lemma RequestsCompose(a: Identity, b: Identity, c: Identity, asked: Option<Release>)
    requires KeepsRequest(a, b, asked) && KeepsRequest(b, c, asked)
    ensures KeepsRequest(a, c, asked)
  {
  }

  lemma ReasonsCompose(a: Record, b: Record, c: Record)
    requires ReasonFixed(a, b) && ReasonFixed(b, c) && Phase(a.stage) <= Phase(b.stage)
    requires !b.IsActive() ==> c == b
    ensures ReasonFixed(a, c)
  {
    hide Phase;
  }

  /** Cutting a run anywhere gives a run: a crash can leave any world of it, and its last step is a step. */
  lemma {:induction false} RunPrefix(h: seq<World>, n: nat)
    requires IsRun(h) && n < |h|
    ensures IsRun(h[..n + 1])
    ensures n > 0 ==> Step(h[n - 1], h[n])
    decreases |h|
  {
    hide Step;
    if n == |h| - 1 {
      assert h[..n + 1] == h;
    } else {
      RunPrefix(h[..|h| - 1], n);
      assert h[..|h| - 1][..n + 1] == h[..n + 1];
    }
  }

  lemma RunsAreNonempty(h: seq<World>)
    requires IsRun(h)
    ensures |h| >= 1
  {
  }

  /** A new runner continues from wherever the last one stopped: runs that meet make one run. */
  lemma {:induction false} RunsCompose(h: seq<World>, k: seq<World>)
    requires IsRun(h) && IsRun(k) && h[|h| - 1] == k[0]
    ensures IsRun(h + k[1..])
    decreases |k|
  {
    hide Step;
    var n := |k| - 1;
    if n == 0 {
      assert h + k[1..] == h;
    } else {
      var shorter := k[..n];
      RunsCompose(h, shorter);
      var whole := h + k[1..];
      assert whole[..|whole| - 1] == h + shorter[1..];
      assert whole[|whole| - 1] == k[n];
      assert whole[|whole| - 2] == k[n - 1];
    }
  }
}
