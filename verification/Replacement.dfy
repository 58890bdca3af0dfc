/** Replacing the installed files: what the environment contributes, and when a replacement gets through. */
module Replacement {
  import opened Text
  import opened UpdateRecords
  import opened ManagedFiles
  import opened Protocol
  import opened Recovery
  import opened Versions
  import opened Invocation

  /** What happens around one runner: its rights, what is on disk, which operations succeed, and when the agent acts. */
  datatype Environment = Environment(
    admin: bool, configured: string, configPresent: bool, stagingExists: bool,
    before: bool, running: bool, starts: bool, health: HealthScript,
    backupBudget: nat, stops: bool, quiesces: bool, copies: seq<nat>, writesVersion: bool, rollback: RollbackScript)

  const RELEASE_FILE: Path := "version.json"
  const SERVICE_FILE: Path := "NightOwl.Agent.Windows.exe"
  const UPDATER_FILE: Path := "NightOwl.Agent.Updater.exe"
  const DEFAULT_AGENT_VERSION := "0.1.0.7"

  function BackupPathFor(updateId: string): string {
    "Backups/" + updateId
  }

  /** The backup is taken, when it has to be, and validates. */
  predicate BackupSettles(w: World, recreate: bool, budget: nat) {
    var id, from := w.rec.id.updateId, w.rec.fromVersion;
    if recreate then budget > |Managed(w.install)| && ValidBackup(Some(BackupOf(w.install, id, from)), id, from)
    else ValidBackup(w.backup, id, from)
  }

  predicate CopySucceeds(copies: seq<nat>, staging: Files) {
    exists i :: 0 <= i < |copies| && copies[i] >= |Managed(staging)|
  }

  /** ValidatePostUpdate, without a demand on the service. */
  predicate PostUpdateValid(install: Files, configPresent: bool, version: string) {
    && configPresent && SERVICE_FILE in install
    && CompareVersions(LoadInstalledVersion(install, DEFAULT_AGENT_VERSION), version) == 0
  }

  function VersionContent(release: Content, sha256: string): Content
    requires release.VersionInfo?
  {
    VersionInfo(release.version, if IsBlank(release.channel) then "stable" else release.channel, sha256)
  }

  /** The installation once the package is copied and the version file written. */
  function Installed(w: World, content: Content): Files {
    Overlay(w.install, w.staging)[VERSION_FILE := content]
  }

  predicate ReplacementSucceeds(w: World, e: Environment, content: Content)
    requires content.VersionInfo?
  {
    && CopySucceeds(e.copies, w.staging) && e.writesVersion
    && PostUpdateValid(Installed(w, content), e.configPresent, content.version)
  }

  /** The agent confirms the new version at any moment before the runner gives up on it. */
  predicate ConfirmedInTime(e: Environment) {
    e.health.early || (e.starts && (ConfirmedWhilePolling(e.health.polls) || e.health.late))
  }

  lemma CompareWithItself(version: string)
    ensures CompareVersions(version, version) == 0
  {
    CompareIsAntisymmetric(version, version);
    hide CompareVersions;
  }

  /** The version check that follows a replacement can fail only on a release without a version. */
  lemma NamedReleaseValidates(w: World, content: Content, configPresent: bool)
    requires content.VersionInfo? && !IsBlank(content.version)
    ensures PostUpdateValid(Installed(w, content), configPresent, content.version)
            <==> configPresent && (SERVICE_FILE in w.install || SERVICE_FILE in Managed(w.staging))
  {
    CompareWithItself(content.version);
    hide CompareVersions, IsProtected, IsBlank;
  }

  /** What a runner finds after its wait for a completed update, and after the agent's last chance. */
  lemma UpdateConfirmation(waiting: Record, e: Environment)
    requires waiting.IsActive() && waiting.stage.WaitingHealthCheck? && !waiting.rollbackRequired
    ensures var started := AgentMoved(waiting, e.health.early);
            var (result, waited) := WaitOutcome(started, false, e.health.polls);
            var last := AgentMoved(waited, e.health.late);
            && (last == waiting || last == AgentConfirmed(waiting))
            && (result.WaitCompleted? ==> waited == AgentConfirmed(waiting))
            && (last == AgentConfirmed(waiting) <==>
                e.health.early || ConfirmedWhilePolling(e.health.polls) || e.health.late)
            && (result.WaitCompleted? ==> e.health.early || ConfirmedWhilePolling(e.health.polls))
            && (!e.health.early && !ConfirmedWhilePolling(e.health.polls) ==>
                result == if exists i :: 0 <= i < |e.health.polls| && e.health.polls[i].status.HasExited() then
                            ServiceExitedEarly else Timeout)
            && !result.FailedState?
  {
    var started := AgentMoved(waiting, e.health.early);
    HealthWaitFacts(waiting);
    WaitKeepsPhase(started, false, e.health.polls);
    WaitReportsTheRecord(started, false, e.health.polls);
    if !e.health.early {
      WaitSeesCompletion(waiting, e.health.polls);
    }
    hide WaitOutcome, AgentConfirmed, ConfirmedWhilePolling;
  }

  /** Everything an update needs to end as completed. */
  predicate UpdateGoesThrough(w: World, recreate: bool, content: Content, e: Environment)
    requires content.VersionInfo?
  {
    && BackupSettles(w, recreate, e.backupBudget) && e.stops && e.quiesces
    && ReplacementSucceeds(w, e, content) && ConfirmedInTime(e)
  }

  // How an update ends, whichever runner ends it.

  /** More files than an installation and its package can make a restore delete and write. */
  function MostFiles(install: Files, staging: Files): nat {
    2 * |Managed(install).Keys| + |Managed(staging).Keys| + 1
  }

  /** The first rollback of an update that replaced files of this installation: it ends as the environment lets it, and it
      restores the files if its budget covers them all, and not if it does not even cover those that were backed up. */
  predicate RolledBackFrom(install: Files, staging: Files, o: Outcome, s: RollbackScript) {
    && (o == RollbackEnding(true, s) || o == RollbackEnding(false, s))
    && (s.restoreBudget >= MostFiles(install, staging) ==> o == RollbackEnding(true, s))
    && (s.restoreBudget < |Managed(install).Keys| ==> o == RollbackEnding(false, s))
  }

  lemma RestoreWithin(original: Files, w: World, s: RollbackScript)
    requires Inv(original, w) && w.rec.IsActive() && (Phase(w.rec.stage) == 2 || Phase(w.rec.stage) == 3)
    requires ValidBackup(w.backup, w.rec.id.updateId, w.rec.fromVersion)
    ensures RolledBackFrom(original, w.staging, RollbackEnding(RestoreSucceeds(w, s.restoreBudget), s), s)
  {
    hide IsProtected, AttemptFits, Coherent, ValidManifest, RollbackEnding, PayloadInstalled, VersionWritten,
         OnlyPayloadDiffers;
    assert w.backup.value.manifest.value.files.Keys == Managed(original).Keys;
    ManagedFilesWithin(original, w.install, w.staging);
  }

  /** Replacing files adds no others than those of the package and the version file. */
  lemma ManagedFilesWithin(original: Files, install: Files, staging: Files)
    requires OnlyPayloadDiffers(original, install, staging)
    ensures |Managed(install).Keys| <= |Managed(original).Keys| + |Managed(staging).Keys| + 1
  {
    hide IsProtected;
    var all := Managed(original).Keys + Managed(staging).Keys + {VERSION_FILE};
    assert Managed(install).Keys <= all;
    FewerElements(Managed(install).Keys, all);
    UnionSize(Managed(original).Keys, Managed(staging).Keys);
    UnionSize(Managed(original).Keys + Managed(staging).Keys, {VERSION_FILE});
  }

  lemma {:induction false} FewerElements(a: set<Path>, b: set<Path>)
    requires a <= b
    ensures |a| <= |b|
    decreases a
  {
    if a != {} {
      var p :| p in a;
      FewerElements(a - {p}, b - {p});
    }
  }

  lemma UnionSize(a: set<Path>, b: set<Path>)
    ensures |a + b| <= |a| + |b|
  {
    assert a + b == a + (b - a) && a !! b - a;
    FewerElements(b - a, b);
  }

  /** Why a replacement is rolled back. */
  function ReplacementFailure(w: World, content: Content, e: Environment): string
    requires content.VersionInfo?
  {
    if !CopySucceeds(e.copies, w.staging) then "UPDATE_FILE_REPLACE_FAILED"
    else if !e.writesVersion then "UPDATE_INTERRUPTED"
    else if !PostUpdateValid(Installed(w, content), e.configPresent, content.version) then
      "UPDATE_HEALTHCHECK_VERSION_MISMATCH"
    else WaitFailure(e)
  }

  /** Why the wait for the new version comes to nothing. */
  function WaitFailure(e: Environment): string {
    if !e.starts then "UPDATE_SERVICE_START_FAILED"
    else if exists i :: 0 <= i < |e.health.polls| && e.health.polls[i].status.HasExited() then "UPDATE_PROCESS_EXITED_EARLY"
    else "UPDATE_HEALTHCHECK_TIMEOUT"
  }

  /** Until the first file is replaced, the installation is the one the update found. */
  lemma UntouchedBeforeReplacement(original: Files, w: World)
    requires Inv(original, w) && (IsNormal(w.rec.stage) || IsPreReplacement(w.rec.stage))
    ensures w.install == original
  {
    hide BackupFits, Coherent, AttemptFits, IsProtected;
  }

  lemma NoAttemptYet(original: Files, w: World)
    requires Inv(original, w) && IsBeforeRollback(w.rec.stage)
    ensures w.rec.rollbackAttempt == 0
  {
    hide InstallFits, BackupFits;
  }

  /** How an update ends that is about to take, or to take up, its backup: with nothing replaced unless the backup settles
      and everything lets go of the files; as completed exactly if all of the replacement gets through and is confirmed;
      and rolled back otherwise. */
  predicate UpdateEnds(w: World, recreate: bool, recovering: bool, content: Content, e: Environment, exit: int, after: Record)
    requires content.VersionInfo?
  {
    var o := Outcome(exit, after.stage);
    var settles := BackupSettles(w, recreate, e.backupBudget);
    if !settles || !e.stops || !e.quiesces then
      && o == Outcome(1, Failed)
      && after.errorCode == if settles || recovering then "UPDATE_INTERRUPTED" else "UPDATE_BACKUP_FAILED"
    else if ReplacementSucceeds(w, e, content) && ConfirmedInTime(e) then o == Outcome(0, Completed)
    else RolledBackFrom(w.install, w.staging, o, e.rollback) && after.errorCode == ReplacementFailure(w, content, e)
  }

  /** An update that ends like this completes exactly if everything about it goes through. */
  lemma EndsByGoingThrough(w: World, recreate: bool, recovering: bool, content: Content, e: Environment, exit: int,
                           after: Record)
    requires content.VersionInfo? && UpdateEnds(w, recreate, recovering, content, e, exit, after)
    ensures after.stage.Completed? <==> UpdateGoesThrough(w, recreate, content, e)
  {
    hide BackupSettles, ReplacementSucceeds, ConfirmedInTime, RestoreReported, RestoreConfirmed, ReplacementFailure;
  }

  /** The version found is the one a resumed health check waits for. */
  predicate FindsVersion(w: World, configured: string, expected: string) {
    !IsBlank(expected) && CompareVersions(LoadInstalledVersion(w.install, configured), expected) == 0
  }

  /** The agent confirms a resumed health check before the runner gives up on it. */
  predicate ConfirmedResumed(e: Environment) {
    e.health.early || ((e.running || e.starts) && (ConfirmedWhilePolling(e.health.polls) || e.health.late))
  }

  /** A health check that is not met fails the rollback it belongs to, and has an update rolled back. */
  predicate HealthFails(restoring: bool, w: World, s: RollbackScript, rollbackCode: string, updateCode: string,
                        exit: int, after: Record) {
    if restoring then exit == 1 && after.stage.RollbackFailed? && after.rollbackErrorCode == rollbackCode
    else
      && Outcome(exit, after.stage) == RollbackEnding(RestoreSucceeds(w, s.restoreBudget), s)
      && after.errorCode == updateCode && !after.stage.Completed?
  }

  /** How a resumed health check ends once it waits for the agent. */
  predicate ConfirmationEnds(restoring: bool, w: World, e: Environment, exit: int, after: Record) {
    if ConfirmedResumed(e) then Outcome(exit, after.stage) == Outcome(0, if restoring then RolledBack else Completed)
    else if e.running || e.starts then
      HealthFails(restoring, w, e.rollback, "ROLLBACK_HEALTHCHECK_TIMEOUT", "UPDATE_HEALTHCHECK_TIMEOUT", exit, after)
    else
      HealthFails(restoring, w, e.rollback, "ROLLBACK_SERVICE_START_FAILED", "UPDATE_SERVICE_START_FAILED", exit, after)
  }

  /** How a health check ends that another runner has begun: well if it is confirmed before the runner looks, and
      otherwise by the version found and, if it is the expected one, by the confirmation. */
  predicate HealthEnds(w: World, e: Environment, exit: int, after: Record) {
    var restoring := w.rec.stage.RollbackWaitingHealthCheck?;
    if e.before && (restoring || w.rec.stage.WaitingHealthCheck?) then
      Outcome(exit, after.stage) == Outcome(0, if restoring then RolledBack else Completed)
    else if FindsVersion(w, e.configured, if restoring then w.rec.fromVersion else w.rec.id.targetVersion) then
      ConfirmationEnds(restoring, w, e, exit, after)
    else
      HealthFails(restoring, w, e.rollback, "ROLLBACK_VERSION_MISMATCH", "UPDATE_HEALTHCHECK_VERSION_MISMATCH", exit, after)
  }

  lemma ConfirmationEndsAlike(restoring: bool, w: World, w': World, e: Environment)
    requires w.install == w'.install && w.backup == w'.backup
    requires w.rec.id == w'.rec.id && w.rec.fromVersion == w'.rec.fromVersion
    ensures forall exit, after ::
              ConfirmationEnds(restoring, w, e, exit, after) <==> ConfirmationEnds(restoring, w', e, exit, after)
  {
    RestoreSucceedsAlike(w, w', e.rollback.restoreBudget);
    hide RestoreSucceeds, RollbackEnding, ConfirmedResumed;
  }

  /** In the invariant, no attempt has been spent while an update waits, and one while its rollback does. */
  lemma FirstAttempt(original: Files, w: World)
    requires Inv(original, w) && w.rec.IsActive() && (Phase(w.rec.stage) == 3 || Phase(w.rec.stage) == 5)
    ensures w.rec.rollbackAttempt == if w.rec.stage.RollbackWaitingHealthCheck? then 1 else 0
  {
    hide InstallFits, BackupFits;
  }

  /** What a runner finds after a resumed wait: the waiting record, or the one the agent confirmed. */
  lemma ResumedConfirmation(original: Files, w: World, restoring: bool, e: Environment)
    requires Inv(original, w) && w.rec.IsActive()
    requires if restoring then w.rec.stage.RollbackWaitingHealthCheck? else w.rec.stage.WaitingHealthCheck?
    ensures var started := AgentMoved(w.rec, e.health.early);
            var (result, waited) := WaitOutcome(started, restoring, e.health.polls);
            var last := AgentMoved(waited, e.health.late);
            && (waited == w.rec || waited == AgentConfirmed(w.rec))
            && ((if restoring then result.WaitRolledBack? else result.WaitCompleted?) ==> waited == AgentConfirmed(w.rec))
            && (last == w.rec || last == AgentConfirmed(w.rec))
            && (last == AgentConfirmed(w.rec) <==>
                e.health.early || ConfirmedWhilePolling(e.health.polls) || e.health.late)
            && ((if restoring then result.WaitRolledBack? else result.WaitCompleted?) ==>
                e.health.early || ConfirmedWhilePolling(e.health.polls))
  {
    var started := AgentMoved(w.rec, e.health.early);
    HealthWaitFacts(w.rec);
    if !restoring {
      FlagIsOff(original, w);
    }
    WaitKeepsPhase(started, restoring, e.health.polls);
    WaitReportsTheRecord(started, restoring, e.health.polls);
    if !e.health.early {
      if restoring {
        WaitSeesConfirmation(w.rec, e.health.polls);
      } else {
        WaitSeesCompletion(w.rec, e.health.polls);
      }
    }
    hide WaitOutcome, AgentConfirmed, ConfirmedWhilePolling, Inv;
  }

  /** How an interrupted apply ends that has a readable release: as failed, with nothing replaced, unless the versions are
      still those it was about. */
  predicate InterruptedEnds(w: World, e: Environment, exit: int, after: Record)
    requires ReleaseReadable(w.staging)
  {
    var release := w.staging[RELEASE_FILE];
    if MatchesInterrupted(w.rec, release, LoadInstalledVersion(w.install, e.configured)) then
      UpdateEnds(w, w.rec.stage.CreatingBackup?, true, VersionContent(release, w.rec.id.expectedSha256), e, exit, after)
    else exit == 1 && after == MarkedFailed(w.rec, "UPDATE_INTERRUPTED")
  }

  /** How an interrupted apply ends: as failed, with nothing replaced, also if it lacks anything it needs. */
  predicate ApplyEnds(w: World, args: Arguments, e: Environment, exit: int, after: Record) {
    if ApplyUsable(w.rec, w.staging, e, args) then InterruptedEnds(w, e, exit, after)
    else exit == 1 && after == MarkedFailed(w.rec, "UPDATE_INTERRUPTED")
  }

  /** How a runner ends an update that it finds past its ordinary course, phase by phase. */
  predicate RecoveryEnds(w: World, args: Arguments, e: Environment, exit: int, after: Record) {
    var r, o := w.rec, Outcome(exit, after.stage);
    var ending := RollbackEnding(RestoreSucceeds(w, e.rollback.restoreBudget), e.rollback);
    && (IsPreReplacement(r.stage) ==> ApplyEnds(w, args, e, exit, after))
    && (Phase(r.stage) == 2 ==> o == ending && after.errorCode == "UPDATE_INTERRUPTED")
    && (Phase(r.stage) == 3 || Phase(r.stage) == 5 ==> HealthEnds(w, e, exit, after))
    && (Phase(r.stage) == 4 ==>
        && o == (if r.stage.RollbackRequired? && r.rollbackAttempt != 0 then Outcome(1, RollbackFailed) else ending)
        && after.errorCode == r.errorCode)
    && (IsTerminal(r.stage) ==> after == r && exit == if r.IsGoodEnd() then 0 else 1)
    && (r.stage.UnknownStage? ==>
        if !IsBlank(r.backupPath) && ValidBackup(w.backup, r.id.updateId, r.fromVersion) then
          && o == (if r.rollbackAttempt == 0 then ending else Outcome(1, RollbackFailed))
          && after.errorCode == "UPDATE_INTERRUPTED"
        else exit == 1 && after == MarkedRollbackFailed(r, "ROLLBACK_BACKUP_INVALID"))
  }

  lemma EndedStages()
    ensures forall s: Stage :: IsTerminal(s) ==>
              !IsPreReplacement(s) && !s.UnknownStage? && Phase(s) == 6 && !IsNormal(s)
  {
  }

  /** A stage belongs to one kind only. */
  lemma PhasesAreApart(s: Stage)
    ensures IsPreReplacement(s) ==> Phase(s) == 1 && !s.UnknownStage?
    ensures IsTerminal(s) ==> Phase(s) == 6 && !s.UnknownStage?
    ensures s.UnknownStage? ==> Phase(s) == 0
  {
  }

  /** In the invariant, how many attempts have been spent decides how a required rollback ends, phase by phase. */
  lemma AttemptsByPhase(original: Files, w: World, e: Environment)
    requires Inv(original, w) && w.rec.IsActive()
    ensures Phase(w.rec.stage) == 2 ==> w.rec.rollbackAttempt == 0
    ensures Phase(w.rec.stage) == 4 ==>
              forall restores :: RollbackOutcome(w.rec, restores, e.rollback)
                == if w.rec.stage.RollbackRequired? && w.rec.rollbackAttempt != 0 then Outcome(1, RollbackFailed)
                   else RollbackEnding(restores, e.rollback)
  {
    if Phase(w.rec.stage) == 2 {
      NoAttemptYet(original, w);
    }
    if Phase(w.rec.stage) == 4 {
      ResumedRollbackEnds(original, w, true, e.rollback);
      ResumedRollbackEnds(original, w, false, e.rollback);
    }
    hide Inv, RollbackOutcome, RollbackEnding, IsNormal;
  }

  lemma ReplacementSeesFiles(w: World, w': World, e: Environment, content: Content)
    requires content.VersionInfo? && w.install == w'.install && w.staging == w'.staging
    ensures ReplacementSucceeds(w, e, content) <==> ReplacementSucceeds(w', e, content)
  {
    hide CopySucceeds, PostUpdateValid, Overlay;
  }

  predicate KeepsIdentity(r: Record, s: Record) {
    r.id == s.id && r.fromVersion == s.fromVersion
  }

  lemma FailedIsTruthful(r: Record, s: RollbackScript)
    requires r.stage.Failed?
    ensures Truthful(1, r, s)
  {
  }

  /** The invocation of a runner recognises the record as its own. */
  predicate RunnerOwns(r: Record, args: Arguments) {
    && !IsBlank(args.updateId)
    && var decision := DecideInvocation(Some(r), args); decision.Resume? || decision.Terminal?
  }

  /** A record that keeps the request of a job with an explicit release stays its runner's own. */
  lemma RequestKeptIsRecognised(before: Record, after: Record, args: Arguments)
    requires AskedBy(args).Some? && KeepsRequest(before.id, after.id, AskedBy(args)) && RunnerOwns(before, args)
    ensures RunnerOwns(after, args)
  {
    RecognisedMeansSameRequest(before, args);
    RecognisedMeansSameRequest(after, args);
    hide DecideInvocation, IsBlank, Upper;
  }

  lemma LaterRecordIsOwned(h: seq<World>, k: nat, i: nat, args: Arguments)
    requires IsRun(h) && k <= i < |h| && h[k].asked == AskedBy(args)
    requires AskedBy(args).Some? && RunnerOwns(h[k].rec, args)
    ensures RunnerOwns(h[i].rec, args)
  {
    RunIsForward(h, k, i);
    hide IsRun, RunnerOwns, KeepsRequest, AskedBy;
    RequestKeptIsRecognised(h[k].rec, h[i].rec, args);
  }

  /** All records that come after one its runner owns are its own. */
  lemma RunKeepsOwnership(h: seq<World>, k: nat, args: Arguments)
    requires IsRun(h) && k < |h| && h[k].asked == AskedBy(args)
    requires AskedBy(args).Some? && RunnerOwns(h[k].rec, args)
    ensures forall i :: k <= i < |h| ==> RunnerOwns(h[i].rec, args)
  {
    hide *;
    forall i | k <= i < |h|
      ensures RunnerOwns(h[i].rec, args)
    {
      LaterRecordIsOwned(h, k, i, args);
    }
  }

  /** Every record of every run of an update that was bootstrapped for a job with an explicit release, crashes and later
      runners included, answers the job's runner with Resume until the update ends, and with Terminal afterwards. */
  lemma ExplicitJobIsAlwaysRecognised(args: Arguments, newId: string, installed: string, h: seq<World>, i: nat)
    requires !IsBlank(newId) && AskedBy(args).Some? && IsRun(h) && i < |h| && h[0].asked == AskedBy(args)
    requires var id := if IsBlank(args.updateId) then newId else args.updateId;
             h[0].rec == Bootstrap(args, id, installed)
    ensures var id := if IsBlank(args.updateId) then newId else args.updateId;
            && RunnerOwns(h[i].rec, RunnerArguments(args, id))
            && DecideInvocation(Some(h[i].rec), RunnerArguments(args, id))
               == if h[i].rec.IsActive() then Resume else Terminal
  {
    var id := if IsBlank(args.updateId) then newId else args.updateId;
    var own := RunnerArguments(args, id);
    OwnInvocationIsRecognised(args, newId, installed, AskedBy(args).value, h[0].rec);
    RunIsForward(h, 0, i);
    RequestKeptIsRecognised(h[0].rec, h[i].rec, own);
    RecognisedMeansSameRequest(h[i].rec, own);
    hide DecideInvocation, IsRun;
  }

  predicate ReleaseReadable(staging: Files) {
    RELEASE_FILE in staging && staging[RELEASE_FILE].VersionInfo?
  }

  /** An interrupted apply finds everything it needs to go on, and is allowed to. */
  predicate ApplyUsable(r: Record, staging: Files, e: Environment, args: Arguments) {
    && !IsBlank(r.stagingPath) && !IsBlank(r.backupPath) && e.stagingExists && ReleaseReadable(staging)
    && e.admin && RunnerOwns(r, args)
  }

  /** The installed and staged versions are still the ones the interrupted update was about. */
  predicate MatchesInterrupted(r: Record, release: Content, installed: string)
    requires release.VersionInfo?
  {
    && !IsBlank(r.fromVersion) && CompareVersions(installed, r.fromVersion) == 0
    && EqualsIgnoreCase(release.version, r.id.targetVersion)
    && (IsBlank(r.id.channel) || EqualsIgnoreCase(release.channel, r.id.channel))
    && EqualsIgnoreCase(r.backupPath, BackupPathFor(r.id.updateId))
  }

  /** An update tied to a staged release can be taken up later exactly if it replaced a version with a name, that version
      is still the one installed, and the package is still one of its release and its channel. */
  lemma TiedReleaseMatches(r: Record, installed: string, release: Content, path: string, sha256: string,
                           later: string, staged: Content)
    requires release.VersionInfo? && staged.VersionInfo?
    ensures MatchesInterrupted(Retargeted(r, installed, release, path, sha256), staged, later) <==>
              && !IsBlank(installed) && CompareVersions(later, installed) == 0
              && EqualsIgnoreCase(staged.version, release.version)
              && (IsBlank(r.id.channel) || EqualsIgnoreCase(staged.channel, r.id.channel))
    ensures MatchesInterrupted(Retargeted(r, installed, release, path, sha256), release, installed) <==>
              !IsBlank(installed) && (IsBlank(r.id.channel) || EqualsIgnoreCase(release.channel, r.id.channel))
  {
    CompareWithItself(installed);
    hide CompareVersions, IsBlank;
  }

  lemma MatchNamesTheTarget(r: Record, release: Content, installed: string)
    requires release.VersionInfo? && MatchesInterrupted(r, release, installed)
    ensures EqualsIgnoreCase(release.version, r.id.targetVersion)
  {
  }

  /** The record tied to a staged release and to the version it replaces. */
  function Retargeted(r: Record, installed: string, release: Content, stagedPath: string, sha256: string): Record
    requires release.VersionInfo?
  {
    r.(fromVersion := installed, id := r.id.(targetVersion := release.version, expectedSha256 := sha256),
       stagingPath := stagedPath, backupPath := BackupPathFor(r.id.updateId))
  }

  /** What no preparation of an update changes. */
  predicate SameWork(before: Record, after: Record, asked: Option<Release>) {
    && KeepsRequest(before.id, after.id, asked) && after.attempt == before.attempt
    && after.rollbackAttempt == before.rollbackAttempt && after.rollbackRequired == before.rollbackRequired
  }

  /** What a runner may change about an update that has not come to its backup yet. */
  predicate Preparing(before: Record, after: Record, asked: Option<Release>) {
    IsNormal(after.stage) && after.status.StatusRunning? && SameWork(before, after, asked)
  }

  /** A preparation that keeps the release and the version it replaces. */
  predicate SameTarget(before: Record, after: Record, asked: Option<Release>) {
    && SameWork(before, after, asked) && after.fromVersion == before.fromVersion
    && after.id.targetVersion == before.id.targetVersion
  }

  lemma NormalPhase(s: Stage)
    requires IsNormal(s)
    ensures Phase(s) == 0 && !s.UnknownStage?
  {
  }

  /** What happens between the release feed and the staging directory. */
  datatype Feed = Feed(
    resolves: bool, version: string, channel: string, packageUrl: string, force: bool, signed: bool, manifestValid: bool,
    checksums: bool, downloads: bool, sha256: string, intact: bool, files: Files, extracts: bool)

  /** A package can be fetched that holds what an update needs. */
  predicate FetchWorks(feed: Feed) {
    feed.checksums && feed.downloads && feed.intact && feed.extracts && UPDATER_FILE in feed.files
  }

  // How the ordinary course of an update ends.

  /** The release an update resolves to: the one a job spells out, or the one the feed names. */
  function ResolvedVersion(args: Arguments, feed: Feed): string {
    if args.HasExplicitRelease() then args.targetVersion else feed.version
  }

  function ResolvedUrl(args: Arguments, feed: Feed): string {
    if args.HasExplicitRelease() then args.packageUrl else feed.packageUrl
  }

  function ResolvedSha256(args: Arguments, feed: Feed): string {
    if args.HasExplicitRelease() then args.sha256 else feed.sha256
  }

  function ResolvedChannel(args: Arguments, feed: Feed): string {
    if !args.HasExplicitRelease() then feed.channel else if IsBlank(args.channel) then "stable" else args.channel
  }

  /** The release may be installed over this version. */
  predicate MayInstall(installed: string, version: string, feed: Feed) {
    feed.force || CompareVersions(version, installed) > 0 || (CompareVersions(version, installed) == 0 && feed.signed)
  }

  /** Why an update does not get past its release; None when it does. */
  function ResolutionFailure(installed: string, version: string, args: Arguments, feed: Feed): Option<string> {
    if args.HasExplicitTarget() && !args.HasExplicitRelease() then Some("UPDATE_RELEASE_METADATA_MISSING")
    else if !feed.resolves then Some("UPDATE_PACKAGE_INVALID")
    else if !feed.manifestValid then Some("RELEASE_MANIFEST_INVALID")
    else if args.HasExplicitTarget() && !EqualsIgnoreCase(version, args.targetVersion) then
      Some("UPDATE_TARGET_RELEASE_NOT_RESOLVED")
    else if MayInstall(installed, version, feed) then None
    else if CompareVersions(version, installed) < 0 then Some("UPDATE_TARGET_RELEASE_NOT_RESOLVED")
    else Some("UPDATE_PACKAGE_INVALID")
  }

  /** Why a resolved release cannot be staged; None when it can. */
  function StagingFailure(feed: Feed): Option<string> {
    if !feed.downloads then Some("UPDATE_DOWNLOAD_FAILED")
    else if !feed.intact then Some("UPDATE_HASH_MISMATCH")
    else if !feed.extracts then Some("UPDATE_PACKAGE_INVALID")
    else None
  }

  /** How an update ends whose package is staged: one to the version it found is complete exactly if the installed files
      are those of the package; any other needs an updater in the package and a record its runner recognises. */
  predicate StagedEnds(w: World, release: Content, current: bool, args: Arguments, e: Environment,
                       exit: Result<int>, after: Record)
    requires release.VersionInfo?
  {
    if current then
      if PayloadMatches(w.staging, w.install) then
        after.stage.Completed? && !after.healthCheckConfirmed && exit == Ok(if args.IsJob() then 10 else 0)
      else after.stage.Failed? && after.errorCode == "UPDATE_PACKAGE_INVALID" && exit == Ok(25)
    else if UPDATER_FILE !in w.staging || !RunnerOwns(w.rec, args) then exit.Err? && after.IsActive()
    else
      var installed := LoadInstalledVersion(w.install, e.configured);
      && exit.Ok?
      && UpdateEnds(w.(rec := w.rec.(fromVersion := installed), staging := w.staging[RELEASE_FILE := release]),
                    true, false, VersionContent(release, release.packageSha256), e, exit.value, after)
  }

  /** How an update ends whose release is on record. */
  predicate FetchEnds(w: World, current: bool, feed: Feed, args: Arguments, e: Environment, exit: Result<int>, after: Record) {
    var sha256 := ResolvedSha256(args, feed);
    if StagingFailure(feed).Some? then
      exit.Err? && after.stage.Failed? && after.errorCode == StagingFailure(feed).value
    else
      StagedEnds(w.(rec := w.rec.(id := w.rec.id.(expectedSha256 := sha256)), staging := feed.files),
                 VersionInfo(ResolvedVersion(args, feed), ResolvedChannel(args, feed), sha256), current, args, e, exit, after)
  }

  /** How an update ends that may be installed: a runner without the rights for it hands it over. */
  predicate ResolvedEnds(w: World, installed: string, feed: Feed, args: Arguments, e: Environment,
                         exit: Result<int>, after: Record) {
    if !e.admin then exit == Ok(0) && after.IsActive()
    else if !feed.checksums then exit.Err? && after.IsActive()
    else
      FetchEnds(w, !feed.force && CompareVersions(ResolvedVersion(args, feed), installed) == 0, feed, args, e, exit, after)
  }

  function ResolvedId(id: Identity, args: Arguments, feed: Feed): Identity {
    id.(targetVersion := ResolvedVersion(args, feed), packageUrl := ResolvedUrl(args, feed))
  }

  /** How a runner ends that takes an update through its ordinary course. */
  predicate FreshEnds(w: World, feed: Feed, args: Arguments, e: Environment, exit: Result<int>, after: Record) {
    var installed := LoadInstalledVersion(w.install, e.configured);
    var failure := ResolutionFailure(installed, ResolvedVersion(args, feed), args, feed);
    if failure.Some? then exit == Ok(25) && after.stage.Failed? && after.errorCode == failure.value
    else ResolvedEnds(w.(rec := w.rec.(id := ResolvedId(w.rec.id, args, feed))), installed, feed, args, e, exit, after)
  }

  /** Whose record it is depends on what names the update. */
  lemma OwnedById(r: Record, s: Record, args: Arguments)
    requires r.id == s.id
    ensures RunnerOwns(r, args) <==> RunnerOwns(s, args)
  {
    RecognisedMeansSameRequest(r, args);
    RecognisedMeansSameRequest(s, args);
    hide DecideInvocation, IsBlank, EqualsIgnoreCase;
  }

  /** How an update ends depends on the files, and on the record by its id and the version it replaces. */
  lemma UpdateEndsAlike(w: World, w': World, recovering: bool, content: Content, e: Environment)
    requires content.VersionInfo? && w.install == w'.install && w.staging == w'.staging
    requires w.rec.id.updateId == w'.rec.id.updateId && w.rec.fromVersion == w'.rec.fromVersion
    ensures forall exit, after ::
              UpdateEnds(w, true, recovering, content, e, exit, after) <==> UpdateEnds(w', true, recovering, content, e, exit, after)
  {
    ReplacementSeesFiles(w, w', e, content);
    assert ReplacementFailure(w, content, e) == ReplacementFailure(w', content, e);
    hide ReplacementSucceeds, ReplacementFailure, RolledBackFrom, ValidBackup, Managed, ConfirmedInTime;
  }

  lemma StagedEndsAlike(w: World, w': World, release: Content, current: bool, args: Arguments, e: Environment)
    requires release.VersionInfo? && w.install == w'.install && w.staging == w'.staging && w.rec.id == w'.rec.id
    ensures forall exit, after ::
              StagedEnds(w, release, current, args, e, exit, after) <==> StagedEnds(w', release, current, args, e, exit, after)
  {
    OwnedById(w.rec, w'.rec, args);
    var installed := LoadInstalledVersion(w.install, e.configured);
    UpdateEndsAlike(w.(rec := w.rec.(fromVersion := installed), staging := w.staging[RELEASE_FILE := release]),
                    w'.(rec := w'.rec.(fromVersion := installed), staging := w.staging[RELEASE_FILE := release]),
                    false, VersionContent(release, release.packageSha256), e);
    hide UpdateEnds, RunnerOwns, PayloadMatches, LoadInstalledVersion, VersionContent;
  }

  /** A job with an explicit release has that release resolved. */
  lemma ResolvedIsAsked(args: Arguments, feed: Feed)
    ensures AskedBy(args).Some? ==>
              AskedBy(args).value
              == Release(ResolvedVersion(args, feed), ResolvedUrl(args, feed), ResolvedSha256(args, feed))
    ensures args.HasExplicitRelease() ==> ResolvedVersion(args, feed) == args.targetVersion
    ensures AskedBy(args).None? ==>
              Release(ResolvedVersion(args, feed), ResolvedUrl(args, feed), ResolvedSha256(args, feed))
              == Release(feed.version, feed.packageUrl, feed.sha256)
  {
  }

  lemma StagingFails(feed: Feed)
    ensures StagingFailure(feed).None? <==> feed.downloads && feed.intact && feed.extracts
  {
  }

  lemma ResolvedEndsAlike(w: World, w': World, installed: string, feed: Feed, args: Arguments, e: Environment)
    requires w.install == w'.install
    requires w.rec.id.(expectedSha256 := "") == w'.rec.id.(expectedSha256 := "")
    ensures forall exit, after ::
              ResolvedEnds(w, installed, feed, args, e, exit, after) <==> ResolvedEnds(w', installed, feed, args, e, exit, after)
  {
    var sha256 := ResolvedSha256(args, feed);
    var id := w.rec.id.(expectedSha256 := sha256);
    assert id == w.rec.id.(expectedSha256 := "").(expectedSha256 := sha256) == w'.rec.id.(expectedSha256 := sha256);
    StagedEndsAlike(w.(rec := w.rec.(id := id), staging := feed.files), w'.(rec := w'.rec.(id := id), staging := feed.files),
                    VersionInfo(ResolvedVersion(args, feed), ResolvedChannel(args, feed), sha256),
                    !feed.force && CompareVersions(ResolvedVersion(args, feed), installed) == 0, args, e);
    hide StagedEnds, CompareVersions;
  }

  /** An update tied to the release that has just been staged ends as its record did before. */
  lemma RetargetedAlike(w: World, release: Content, staging: Files, stagedPath: string, sha256: string, e: Environment)
    requires release.VersionInfo?
    ensures var installed := LoadInstalledVersion(w.install, e.configured);
            forall exit, after ::
              UpdateEnds(w.(rec := Retargeted(w.rec, installed, release, stagedPath, sha256), staging := staging),
                         true, false, VersionContent(release, sha256), e, exit, after)
              <==> UpdateEnds(w.(rec := w.rec.(fromVersion := installed), staging := staging),
                              true, false, VersionContent(release, sha256), e, exit, after)
  {
    var installed := LoadInstalledVersion(w.install, e.configured);
    UpdateEndsAlike(w.(rec := Retargeted(w.rec, installed, release, stagedPath, sha256), staging := staging),
                    w.(rec := w.rec.(fromVersion := installed), staging := staging), false,
                    VersionContent(release, sha256), e);
    hide UpdateEnds, LoadInstalledVersion, VersionContent;
  }

  /** How a whole runner ends: it leaves a record that is not its own as it is, takes a new update through its ordinary
      course, and brings any other to the end its phase calls for. */
  predicate RunEnds(w: World, feed: Feed, args: Arguments, e: Environment, exit: Result<int>, after: Record) {
    if !RunnerOwns(w.rec, args) then exit.Err? && after == w.rec
    else if IsNormal(w.rec.stage) then FreshEnds(w, feed, args, e, exit, after)
    else exit.Ok? && RecoveryEnds(w, args, e, exit.value, after)
  }

  /** The runner of a job with an explicit release fails to run its update only if the package cannot be fetched. */
  lemma OwnedRunsFetch(w: World, feed: Feed, args: Arguments, e: Environment, exit: Result<int>, after: Record)
    requires RunEnds(w, feed, args, e, exit, after) && AskedBy(args).Some? && RunnerOwns(w.rec, args)
    ensures exit.Err? ==> !FetchWorks(feed)
  {
    var release := AskedBy(args).value;
    ExplicitReleaseIsAsked(args);
    var resolved := w.rec.(id := WithRelease(w.rec, release).id);
    RequestKeptIsRecognised(w.rec, resolved, args);
    hide RunnerOwns, RecoveryEnds, AskedBy, Arguments.HasExplicitRelease, Arguments.HasExplicitTarget, UpdateEnds,
         PayloadMatches, ResolutionFailure, LoadInstalledVersion, CompareVersions;
  }

  /** A recovery that ended well says so by itself: what is reported from the record is what the recovery reported. */
  lemma RecoveredStands(w: World, args: Arguments, e: Environment, exit: int, after: Record)
    requires RecoveryEnds(w, args, e, exit, after) && !IsNormal(w.rec.stage)
    requires after.stage.Completed? || w.rec.stage.RollbackWaitingHealthCheck?
    ensures exit == TerminalExit(after)
  {
    PhasesAreApart(w.rec.stage);
    if w.rec.stage.RollbackWaitingHealthCheck? || Phase(w.rec.stage) == 3 {
      HealthExit(w, e, exit, after);
    } else if IsPreReplacement(w.rec.stage) {
      AppliedExit(w, args, e, exit, after);
    } else {
      RolledBackExit(w, args, e, exit, after);
    }
    hide ApplyEnds, HealthEnds, ValidBackup, RollbackEnding, IsBlank, RestoreSucceeds;
  }

  lemma RolledBackExit(w: World, args: Arguments, e: Environment, exit: int, after: Record)
    requires RecoveryEnds(w, args, e, exit, after) && after.stage.Completed?
    requires Phase(w.rec.stage) == 2 || Phase(w.rec.stage) == 4 || IsTerminal(w.rec.stage) || w.rec.stage.UnknownStage?
    ensures exit == 0
  {
    NeverCompletes(RestoreSucceeds(w, e.rollback.restoreBudget), e.rollback);
    hide RestoreSucceeds, ApplyEnds, HealthEnds, ValidBackup, RollbackEnding, IsBlank, IsPreReplacement;
  }

  lemma NeverCompletes(restores: bool, s: RollbackScript)
    ensures !RollbackEnding(restores, s).stage.Completed?
  {
  }

  lemma AppliedExit(w: World, args: Arguments, e: Environment, exit: int, after: Record)
    requires ApplyEnds(w, args, e, exit, after) && after.stage.Completed?
    ensures exit == 0
  {
    NeverCompletes(true, e.rollback);
    NeverCompletes(false, e.rollback);
    hide ApplyUsable, MatchesInterrupted, BackupSettles, ReplacementSucceeds, ConfirmedInTime, RollbackEnding,
         ReplacementFailure, LoadInstalledVersion;
  }

  lemma HealthExit(w: World, e: Environment, exit: int, after: Record)
    requires HealthEnds(w, e, exit, after)
    requires after.stage.Completed? || w.rec.stage.RollbackWaitingHealthCheck?
    ensures exit == TerminalExit(after)
  {
    hide FindsVersion, ConfirmedResumed, RestoreSucceeds, RollbackEnding;
  }

  lemma PreparingMove(w: World, after: Record)
    requires w.rec.IsActive() && w.rec.WellFormed() && IsNormal(w.rec.stage) && Preparing(w.rec, after, w.asked)
    ensures CanWrite(w, after) && after.IsActive()
  {
    hide IsBlank;
  }

  lemma RetargetedIsPreparing(r: Record, installed: string, release: Content, stagedPath: string, sha256: string,
                              asked: Option<Release>)
    requires release.VersionInfo? && IsNormal(r.stage) && r.IsActive() && Coherent(r)
    requires asked.Some? ==> release.version == asked.value.version && sha256 == asked.value.sha256
    ensures Preparing(r, Retargeted(r, installed, release, stagedPath, sha256), asked)
    ensures Retargeted(r, installed, release, stagedPath, sha256).IsActive()
  {
  }

  /** A preparation that keeps the release and the version it replaces. */
  predicate Prepared(before: Record, after: Record, asked: Option<Release>) {
    Preparing(before, after, asked) && KeepsIdentity(before, after) && after.IsActive()
  }

  lemma EnteringIsPreparing(persisted: Record, r: Record, stage: Stage, asked: Option<Release>)
    requires IsNormal(stage) && SameWork(persisted, r, asked)
    ensures Prepared(r, Marked(r, stage), asked) && Marked(r, stage).stage == stage
    ensures Preparing(persisted, Marked(r, stage), asked)
  {
  }

  lemma ActiveIsRunning(r: Record)
    requires Coherent(r) && r.IsActive()
    ensures r.status.StatusRunning?
  {
  }

  predicate IsSuccessCode(exit: int) {
    exit == 0 || exit == 10
  }

  /** What the exit code of a runner says: success codes mean a good ending, or a hand-over to an elevated runner, and a
      good ending is reported unless its confirmation could go unseen. */
  predicate Reported(exit: Result<int>, r: Record, e: Environment) {
    exit.Ok? ==>
      if r.IsActive() then exit.value == 0 && !e.admin
      else
        && (IsSuccessCode(exit.value) ==> r.IsGoodEnd())
        && (r.IsGoodEnd() && !CanMissConfirmation(e.rollback) ==> IsSuccessCode(exit.value))
  }

  lemma TruthIsReported(code: int, r: Record, e: Environment)
    requires !r.IsActive() && Truthful(code, r, e.rollback)
    ensures Reported(Ok(code), r, e)
  {
  }

  lemma VerifiedIsReported(code: int, r: Record, e: Environment)
    requires !r.IsActive()
    requires (r.stage.Completed? && IsSuccessCode(code)) || (r.stage.Failed? && code == 25)
    ensures Reported(Ok(code), r, e)
  {
  }

  lemma CompletedAsCurrentFacts(r: Record)
    requires r.WellFormed()
    ensures var done := CompletedAsCurrent(r);
            && done.WellFormed() && done.id == r.id && (forall asked :: SameTarget(r, done, asked))
            && done.stage.Completed? && !done.IsActive() && !done.healthCheckConfirmed && Coherent(done)
            && done.rollbackAttempt == r.rollbackAttempt
  {
    hide IsBlank;
  }

  /** Before the backup, an update may complete as current exactly when every packaged file is installed. */
  lemma CompletedAsCurrentMove(w: World)
    requires w.rec.IsActive() && w.rec.WellFormed() && IsNormal(w.rec.stage)
    ensures CanWrite(w, CompletedAsCurrent(w.rec)) <==> PayloadInstalled(w.staging, w.install)
  {
    var done := CompletedAsCurrent(w.rec);
    CompletedAsCurrentFacts(w.rec);
    CompletionAllowed(w);
    assert AttemptKept(w.rec, done);
    assert KeepsRequest(w.rec.id, done.id, w.asked);
    hide PayloadInstalled, IsBlank, CompletedAsCurrent, Record.WellFormed, Record.IsActive, Coherent, Follows, FilesAllow,
         AttemptKept, IsNormal, KeepsRequest;
    assert done.stage == Completed;
  }

  lemma CompletionAllowed(w: World)
    requires IsNormal(w.rec.stage)
    ensures Follows(w.rec.stage, Completed) && !IsNormal(Completed)
    ensures FilesAllow(w, Completed) <==> PayloadInstalled(w.staging, w.install)
  {
    hide IsProtected;
  }

  /** The record of an update that moved the installation on from the version it found. */
  predicate Climbed(r: Record, installed: string, force: bool) {
    && r.fromVersion == installed
    && (force || CompareVersions(r.id.targetVersion, installed) > 0)
  }

  /** The record of an update that found its release already installed. */
  predicate LeftAsCurrent(r: Record, installed: string) {
    && r.stage.Completed? && !r.healthCheckConfirmed
    && r.fromVersion == installed && CompareVersions(r.id.targetVersion, installed) == 0
  }

  lemma FailureIsReported(code: int, r: Record, e: Environment)
    requires r.stage.Failed? && !r.IsActive() && !IsSuccessCode(code)
    ensures Reported(Ok(code), r, e)
  {
  }

  lemma HandOverIsReported(r: Record, e: Environment)
    requires r.IsActive() && !e.admin
    ensures Reported(Ok(0), r, e)
  {
  }

  lemma ErrorsReportThemselves(exit: Result<int>, r: Record, e: Environment)
    requires exit.Err?
    ensures Reported(exit, r, e)
  {
  }

  lemma ActionsByOrder(installed: string, version: string, force: bool)
    ensures var action := DecideVersionAction(installed, version, force);
            && (action.AlreadyCurrent? <==> !force && CompareVersions(version, installed) == 0)
            && (action.UpdateAllowed? <==> force || CompareVersions(version, installed) > 0)
            && (action.DowngradeBlocked? <==> !force && CompareVersions(version, installed) < 0)
  {
    hide CompareVersions;
  }
}
