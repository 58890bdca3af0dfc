/** How a new invocation of the updater relates to the update already on record. */
module Invocation {
  import opened Text
  import opened UpdateRecords
  import opened UpdateStateStores

  /** The command line, with its defaults filled in. */
  datatype Arguments = Arguments(
    updateId: string, source: string, jobId: string, channel: string, targetVersion: string,
    releaseId: string, packageUrl: string, sha256: string)
  {
    predicate IsJob() {
      EqualsIgnoreCase(source, "job") && !IsBlank(jobId)
    }

    predicate HasExplicitTarget() {
      IsJob() && !IsBlank(targetVersion) && !EqualsIgnoreCase(targetVersion, "latest")
    }

    predicate HasExplicitRelease() {
      HasExplicitTarget() && !IsBlank(packageUrl) && !IsBlank(sha256)
    }
  }

  /** The release a job asks for, if it spells one out. */
  function AskedBy(args: Arguments): Option<Release> {
    if args.HasExplicitRelease() then Some(Release(args.targetVersion, args.packageUrl, args.sha256)) else None
  }

  lemma ExplicitReleaseIsAsked(args: Arguments)
    ensures AskedBy(args).Some? <==> args.HasExplicitRelease()
    ensures AskedBy(args).Some? ==> AskedBy(args).value == Release(args.targetVersion, args.packageUrl, args.sha256)
    ensures AskedBy(args).Some? <==>
              && EqualsIgnoreCase(args.source, "job") && !IsBlank(args.jobId)
              && !IsBlank(args.targetVersion) && !EqualsIgnoreCase(args.targetVersion, "latest")
              && !IsBlank(args.packageUrl) && !IsBlank(args.sha256)
  {
  }

  datatype Decision = Fresh | Resume | Terminal | Conflict

  predicate SameJob(r: Record, args: Arguments) {
    args.IsJob() && !IsBlank(r.id.jobId) && EqualsIgnoreCase(r.id.jobId, args.jobId)
  }

  predicate SameRelease(r: Record, args: Arguments) {
    && EqualsIgnoreCase(r.id.source, "job")
    && EqualsIgnoreCase(r.id.channel, args.channel)
    && EqualsIgnoreCase(r.id.targetVersion, args.targetVersion)
    && EqualsIgnoreCase(r.id.releaseId, args.releaseId)
    && EqualsIgnoreCase(r.id.expectedSha256, args.sha256)
    && r.id.packageUrl == args.packageUrl
  }

  function DecideInvocation(persisted: Option<Record>, args: Arguments): Decision {
    if persisted.None? then Fresh
    else
      var r := persisted.value;
      var named := !IsBlank(args.updateId);
      var sameId := named && EqualsIgnoreCase(r.id.updateId, args.updateId);
      if (named && !sameId) || (!sameId && !SameJob(r, args)) then
        (if r.IsActive() then Conflict else Fresh)
      else if !IsBlank(r.id.jobId) && !(SameJob(r, args) && SameRelease(r, args)) then Conflict
      else if IsBlank(r.id.jobId) && !sameId then Conflict
      else if r.IsActive() then Resume
      else Terminal
  }

  /** The record a fresh launch writes before it starts a runner. */
  function Bootstrap(args: Arguments, updateId: string, installedVersion: string): Record {
    var r := Created(updateId, args.jobId, installedVersion, args.targetVersion);
    r.(id := r.id.(source := args.source, channel := args.channel, releaseId := args.releaseId,
                   packageUrl := args.packageUrl, expectedSha256 := args.sha256))
  }

  /** A launch: under the launch lock a fresh decision saves a new record, any other leaves the file alone. */
  function Launched(file: StateFile, args: Arguments, newId: string, installedVersion: string): StateFile {
    if !file.Readable() then file
    else if DecideInvocation(Contents(file), args).Fresh? then
      SavedFile(file, Bootstrap(args, if IsBlank(args.updateId) then newId else args.updateId, installedVersion))
    else file
  }

  datatype Launch = Launch(args: Arguments, newId: string, installedVersion: string)

  function LaunchedAll(file: StateFile, launches: seq<Launch>): StateFile
    decreases |launches|
  {
    if launches == [] then file
    else
      var l := launches[0];
      LaunchedAll(Launched(file, l.args, l.newId, l.installedVersion), launches[1..])
  }

  /** No sequence of launches, of any jobs under any ids, displaces an update in progress. */
  lemma {:induction false} LaunchesNeverDisplace(r: Record, launches: seq<Launch>)
    requires r.IsActive()
    ensures LaunchedAll(Stored(r), launches) == Stored(r)
    decreases |launches|
  {
    if launches != [] {
      var l := launches[0];
      assert Launched(Stored(r), l.args, l.newId, l.installedVersion) == Stored(r);
      LaunchesNeverDisplace(r, launches[1..]);
    }
  }

  /** A fresh start is answered exactly when nothing is on record, or what is on record has ended and is not what was
      asked for. */
  lemma FreshMeansFree(persisted: Option<Record>, args: Arguments)
    ensures DecideInvocation(persisted, args).Fresh? <==>
              persisted.None? ||
              (!persisted.value.IsActive()
               && !(!IsBlank(args.updateId) && EqualsIgnoreCase(persisted.value.id.updateId, args.updateId))
               && (IsBlank(args.updateId) ==> !SameJob(persisted.value, args)))
  {
  }

  /** A record is recognised exactly when the request names it by its id, if it names an id, and repeats the job and the
      release it was made for, if it was made for a job; whether to resume then depends on the record alone. */
  lemma RecognisedMeansSameRequest(r: Record, args: Arguments)
    ensures var decision := DecideInvocation(Some(r), args);
            && (decision.Resume? || decision.Terminal? <==>
                && (!IsBlank(args.updateId) ==> EqualsIgnoreCase(r.id.updateId, args.updateId))
                && if IsBlank(r.id.jobId) then !IsBlank(args.updateId)
                   else
                     && EqualsIgnoreCase(args.source, "job") && EqualsIgnoreCase(r.id.source, "job")
                     && !IsBlank(args.jobId) && EqualsIgnoreCase(r.id.jobId, args.jobId)
                     && EqualsIgnoreCase(r.id.channel, args.channel) && EqualsIgnoreCase(r.id.releaseId, args.releaseId)
                     && EqualsIgnoreCase(r.id.targetVersion, args.targetVersion)
                     && EqualsIgnoreCase(r.id.expectedSha256, args.sha256) && r.id.packageUrl == args.packageUrl)
            && (decision.Resume? ==> r.IsActive()) && (decision.Terminal? ==> !r.IsActive())
  {
  }

  function WithRelease(r: Record, release: Release): Record {
    r.(id := r.id.(targetVersion := release.version, packageUrl := release.packageUrl, expectedSha256 := release.sha256))
  }

  /** The runner of a launch is invoked with the launch's arguments and the id on record. */
  function RunnerArguments(args: Arguments, updateId: string): Arguments {
    args.(updateId := if IsBlank(args.updateId) then updateId else args.updateId)
  }

  predicate ReleaseMatches(release: Release, args: Arguments) {
    && EqualsIgnoreCase(release.version, args.targetVersion)
    && EqualsIgnoreCase(release.sha256, args.sha256)
    && release.packageUrl == args.packageUrl
  }

  /** Once a runner has written the release it resolved, its own invocation is recognised exactly when the record names
      no job, or names a proper job and the release is the one the job spelled out. */
  lemma OwnInvocationIsRecognised(args: Arguments, newId: string, installed: string, release: Release, later: Record)
    requires !IsBlank(newId)
    requires var id := if IsBlank(args.updateId) then newId else args.updateId;
             later.id == WithRelease(Bootstrap(args, id, installed), release).id
    ensures var decision := DecideInvocation(Some(later), RunnerArguments(args, later.id.updateId));
            decision == (if later.IsActive() then Resume else Terminal)
            <==> IsBlank(args.jobId) || (args.IsJob() && ReleaseMatches(release, args))
    ensures var decision := DecideInvocation(Some(later), RunnerArguments(args, later.id.updateId));
            decision.Resume? || decision.Terminal? || decision.Conflict?
  {
  }

  /** A fresh launch puts the request on record, as an update that has just been received; the runner it starts resumes
      that record, unless it names a job id without being a job. */
  lemma LaunchIsRecorded(file: StateFile, args: Arguments, newId: string, installed: string)
    requires file.Readable() && DecideInvocation(Contents(file), args).Fresh? && !IsBlank(newId)
    requires file.Stored? ==> !EqualsIgnoreCase(file.record.id.updateId, newId)
    ensures var id := if IsBlank(args.updateId) then newId else args.updateId;
            var after := Launched(file, args, newId, installed);
            && after.Stored? && after.record.stage.Received? && after.record.IsActive()
            && after.record.fromVersion == installed && after.record.attempt == 1
            && after.record.id == Identity(id, args.jobId, args.source, args.channel, args.releaseId, args.targetVersion,
                                           args.packageUrl, args.sha256)
            && DecideInvocation(Some(after.record), RunnerArguments(args, id))
               == if IsBlank(args.jobId) || EqualsIgnoreCase(args.source, "job") then Resume else Conflict
  {
    FreshMeansFree(Contents(file), args);
    var id := if IsBlank(args.updateId) then newId else args.updateId;
    var own := Release(args.targetVersion, args.packageUrl, args.sha256);
    OwnInvocationIsRecognised(args, newId, installed, own, Bootstrap(args, id, installed));
    hide DecideInvocation, IsBlank;
  }

  /** A job that asks for the latest release conflicts with its own record once the release is resolved to a version. */
  lemma LatestJobConflictsWithItself(args: Arguments, newId: string, installed: string, release: Release)
    requires !IsBlank(newId) && args.IsJob() && args.targetVersion == "latest"
    requires !EqualsIgnoreCase(release.version, "latest")
    ensures var id := if IsBlank(args.updateId) then newId else args.updateId;
            DecideInvocation(Some(WithRelease(Bootstrap(args, id, installed), release)), RunnerArguments(args, id)) == Conflict
  {
    var id := if IsBlank(args.updateId) then newId else args.updateId;
    OwnInvocationIsRecognised(args, newId, installed, release, WithRelease(Bootstrap(args, id, installed), release));
  }
}
