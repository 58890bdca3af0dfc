/** Directory trees as maps, the protected paths the updater never touches, and the backup of the managed rest. */
module ManagedFiles {
  import opened Text

  /** A relative path, spelled in one canonical case with forward slashes. */
  type Path = string

  /** The content of a file: plain bytes, or a well-formed agent.version.json. */
  datatype Content = Blob(bytes: string) | VersionInfo(version: string, channel: string, packageSha256: string)

  type Files = map<Path, Content>

  /** SHA-256 taken as an ideal digest: two contents agree on it only when they are equal. */
  datatype Digest = Sha256(of: Content)

  const VERSION_FILE: Path := "agent.version.json"
  const MANIFEST_FILE: Path := "backup-manifest.json"

  const PROTECTED_NAMES: seq<string> :=
    ["agent.config.json", "agent-dotnet.state.json", "agent.state.json", "update-state.json", MANIFEST_FILE]

  const PROTECTED_DIRECTORIES: seq<string> :=
    ["Config", "Identity", "State", "Logs", "Diagnostics", "Updates", "Packages", "Cache"]

  const REQUIRED_BACKUP: seq<string> :=
    ["NightOwl.Agent.Windows.exe", "NightOwl.Agent.Updater.exe", "NightOwl.Agent.Tray.exe", VERSION_FILE]

  const REQUIRED_PAYLOAD: seq<string> :=
    ["NightOwl.Agent.Windows.exe", "NightOwl.Agent.Updater.exe", "NightOwl.Agent.Tray.exe",
     "NightOwl.Agent.Uninstaller.exe", "NightOwl.Agent.Diagnostics.exe"]

  predicate ListedIgnoringCase(name: string, names: seq<string>) {
    exists i :: 0 <= i < |names| && EqualsIgnoreCase(name, names[i])
  }

  function SlashForward(path: string): string {
    seq(|path|, i requires 0 <= i < |path| => if path[i] == '\\' then '/' else path[i])
  }

  function DropLeadingSlashes(path: string): string {
    if path != "" && path[0] == '/' then DropLeadingSlashes(path[1..]) else path
  }

  function NormalizeRelativePath(path: string): string {
    DropLeadingSlashes(SlashForward(path))
  }

  function FileName(normalized: string): string {
    var pieces := Split(normalized, '/');
    pieces[|pieces| - 1]
  }

  predicate IsProtected(path: string) {
    var normalized := NormalizeRelativePath(path);
    var name := FileName(normalized);
    var segments := WithoutEmpty(Split(normalized, '/'));
    || ListedIgnoringCase(name, PROTECTED_NAMES)
    || Contains(Upper(name), "TOKEN")
    || Contains(Upper(name), "MACHINE_ID")
    || exists i :: 0 <= i < |segments| && ListedIgnoringCase(segments[i], PROTECTED_DIRECTORIES)
  }

  function Managed(files: Files): Files {
    map p | p in files && !IsProtected(p) :: files[p]
  }

  function ProtectedPart(files: Files): Files {
    map p | p in files && IsProtected(p) :: files[p]
  }

  function Size(c: Content): nat {
    match c
    case Blob(bytes) => |bytes|
    case VersionInfo(version, channel, sha) => |version| + |channel| + |sha|
  }

  datatype Entry = Entry(size: int, sha256: Digest)

  datatype Manifest = Manifest(updateId: string, previousVersion: string, files: map<Path, Entry>)

  /** A backup directory; the manifest is written last. */
  datatype Backup = Backup(files: Files, manifest: Option<Manifest>)

  function EntryFor(c: Content): Entry {
    Entry(Size(c), Sha256(c))
  }

  function EntriesFor(files: Files): map<Path, Entry> {
    map p | p in files :: EntryFor(files[p])
  }

  /** The finished backup of an installation. */
  function BackupOf(install: Files, updateId: string, previousVersion: string): Backup {
    Backup(Managed(install), Some(Manifest(updateId, previousVersion, EntriesFor(Managed(install)))))
  }

  predicate HasRequired(paths: set<Path>) {
    forall i :: 0 <= i < |REQUIRED_BACKUP| ==> ListedAsPath(REQUIRED_BACKUP[i], paths)
  }

  predicate ListedAsPath(name: string, paths: set<Path>) {
    exists p :: p in paths && EqualsIgnoreCase(p, name)
  }

  predicate EntryIntact(b: Backup, p: Path, e: Entry) {
    && !IsBlank(p) && !IsProtected(p)
    && p in b.files
    && (e.size >= 0 ==> Size(b.files[p]) == e.size)
    && Sha256(b.files[p]) == e.sha256
  }

  predicate ValidManifest(b: Backup, m: Manifest, updateId: string, previousVersion: string) {
    && EqualsIgnoreCase(m.updateId, updateId)
    && (!IsBlank(previousVersion) ==> EqualsIgnoreCase(m.previousVersion, previousVersion))
    && HasRequired(m.files.Keys)
    && forall p :: p in m.files ==> EntryIntact(b, p, m.files[p])
  }

  predicate ValidBackup(b: Option<Backup>, updateId: string, previousVersion: string) {
    b.Some? && b.value.manifest.Some? && ValidManifest(b.value, b.value.manifest.value, updateId, previousVersion)
  }

  /** The manifest describes exactly the managed files of the original installation. */
  predicate Authentic(b: Option<Backup>, original: Files) {
    b.Some? && b.value.manifest.Some? && b.value.manifest.value.files == EntriesFor(Managed(original))
  }

  /** What restoring leaves: the protected files as they are, and the backed-up files in place of the managed ones. */
  function Restored(install: Files, b: Backup): Files
    requires b.manifest.Some?
    requires forall p :: p in b.manifest.value.files ==> p in b.files
  {
    ProtectedPart(install) + BackedUp(b)
  }

  /** The files the manifest lists, as the backup holds them. */
  function BackedUp(b: Backup): (files: Files)
    requires b.manifest.Some?
    requires forall p :: p in b.manifest.value.files ==> p in b.files
    ensures files.Keys == b.manifest.value.files.Keys
  {
    map p | p in b.manifest.value.files :: b.files[p]
  }

  /** What copying a package over an installation leaves: nothing protected changes, nothing is removed. */
  function Overlay(install: Files, staging: Files): Files {
    install + Managed(staging)
  }

  /** Every file of the package, apart from the version file, is in the installation. */
  predicate PayloadInstalled(staging: Files, install: Files) {
    forall p :: p in Managed(staging) && p != VERSION_FILE ==> p in install && install[p] == staging[p]
  }

  /** The package is a complete one, and all of it is in the installation. */
  predicate PayloadMatches(staging: Files, install: Files) {
    && (forall i :: 0 <= i < |REQUIRED_PAYLOAD| ==> REQUIRED_PAYLOAD[i] in staging)
    && PayloadInstalled(staging, install)
    && |Managed(staging).Keys - {VERSION_FILE}| >= |REQUIRED_PAYLOAD|
  }

  lemma StagedContent(staging: Files)
    ensures forall p :: p in Managed(staging) ==> p in staging
  {
  }

  /** The part of a tree already copied while some paths are still to do. */
  function Done(source: Files, todo: set<Path>): Files {
    map p | p in source && p !in todo :: source[p]
  }

  lemma DoneBegins(source: Files, target: Files)
    ensures Done(source, source.Keys) == map[] && target + Done(source, source.Keys) == target
    ensures |source.Keys| == |source|
  {
  }

  lemma DoneGrows(source: Files, target: Files, todo: set<Path>, p: Path)
    requires p in todo && todo <= source.Keys
    ensures Done(source, todo)[p := source[p]] == Done(source, todo - {p})
    ensures (target + Done(source, todo))[p := source[p]] == target + Done(source, todo - {p})
    ensures |todo - {p}| == |todo| - 1
  {
  }

  lemma DoneEnds(source: Files)
    ensures Done(source, {}) == source
  {
  }

  /** A copy that stopped early makes no difference to a copy that gets through. */
  lemma PartOfPackageIsOverwritten(install: Files, staging: Files, todo: set<Path>)
    ensures Overlay(install + Done(Managed(staging), todo), staging) == Overlay(install, staging)
  {
    hide IsProtected;
  }

  lemma WholePackageIsOverlay(install: Files, staging: Files)
    ensures install + Managed(staging) == Overlay(install, staging)
  {
  }

  lemma NoEntries()
    ensures EntriesFor(map[]) == map[]
  {
  }

  lemma EntriesGrow(files: Files, p: Path, c: Content)
    ensures EntriesFor(files[p := c]) == EntriesFor(files)[p := EntryFor(c)]
  {
  }

  lemma DeletingOne(files: Files, p: Path)
    requires p in Managed(files)
    ensures Managed(files - {p}).Keys == Managed(files).Keys - {p}
    ensures ProtectedPart(files - {p}) == ProtectedPart(files)
    ensures |Managed(files).Keys - {p}| == |Managed(files).Keys| - 1
  {
    hide IsProtected;
  }

  lemma DeletedAll(files: Files)
    requires Managed(files).Keys == {}
    ensures ProtectedPart(files) == files
  {
    hide IsProtected;
    ManagedAndProtectedMakeTheWhole(files);
  }

  lemma OverlayHoldsThePackage(install: Files, staging: Files)
    ensures forall p :: p in Managed(staging) ==> Overlay(install, staging)[p] == staging[p]
  {
    hide IsProtected;
  }

  /** ValidateBackup: the manifest first, then the required files, then every entry. */
  method ValidateBackup(b: Option<Backup>, updateId: string, previousVersion: string) returns (ok: bool)
    ensures ok == ValidBackup(b, updateId, previousVersion)
  {
    hide IsProtected;
    if b.None? || b.value.manifest.None? {
      return false;
    }
    var manifest := b.value.manifest.value;
    if !EqualsIgnoreCase(manifest.updateId, updateId) {
      return false;
    }
    if !IsBlank(previousVersion) && !EqualsIgnoreCase(manifest.previousVersion, previousVersion) {
      return false;
    }
    for i := 0 to |REQUIRED_BACKUP|
      invariant forall k :: 0 <= k < i ==> ListedAsPath(REQUIRED_BACKUP[k], manifest.files.Keys)
    {
      if !ListedAsPath(REQUIRED_BACKUP[i], manifest.files.Keys) {
        return false;
      }
    }
    var todo := manifest.files.Keys;
    while todo != {}
      invariant todo <= manifest.files.Keys
      invariant forall p :: p in manifest.files.Keys - todo ==> EntryIntact(b.value, p, manifest.files[p])
    {
      var p :| p in todo;
      if !EntryIntact(b.value, p, manifest.files[p]) {
        return false;
      }
      todo := todo - {p};
    }
    return true;
  }

  lemma ManagedAndProtectedMakeTheWhole(files: Files)
    ensures ProtectedPart(files) + Managed(files) == files
  {
  }

  /** A fresh backup validates exactly when the installation holds the required files under usable names. */
  lemma FreshBackupIsValid(install: Files, updateId: string, previousVersion: string)
    ensures ValidBackup(Some(BackupOf(install, updateId, previousVersion)), updateId, previousVersion)
            <==> HasRequired(Managed(install).Keys) && forall p :: p in Managed(install) ==> !IsBlank(p)
    ensures Authentic(Some(BackupOf(install, updateId, previousVersion)), install)
  {
    var b := BackupOf(install, updateId, previousVersion);
    assert b.manifest.value.files.Keys == Managed(install).Keys;
    forall p | p in Managed(install)
      ensures EntryIntact(b, p, b.manifest.value.files[p]) <==> !IsBlank(p)
    {
    }
    if forall p :: p in b.manifest.value.files ==> EntryIntact(b, p, b.manifest.value.files[p]) {
      forall p | p in Managed(install)
        ensures !IsBlank(p)
      {
        assert p in b.manifest.value.files;
      }
    }
  }

  /** The files without which there is no backup. */
  lemma RequiredFilesAre(paths: set<Path>)
    ensures HasRequired(paths) <==>
              && ListedAsPath("NightOwl.Agent.Windows.exe", paths) && ListedAsPath("NightOwl.Agent.Updater.exe", paths)
              && ListedAsPath("NightOwl.Agent.Tray.exe", paths) && ListedAsPath("agent.version.json", paths)
  {
    hide ListedAsPath;
    var names := REQUIRED_BACKUP;
    assert |names| == 4 && names[0] == "NightOwl.Agent.Windows.exe" && names[1] == "NightOwl.Agent.Updater.exe";
    assert names[2] == "NightOwl.Agent.Tray.exe" && names[3] == "agent.version.json";
  }

  /** A complete package brings the five programs, and everything it brings is installed. */
  lemma CompletePackageIs(staging: Files, install: Files)
    ensures PayloadMatches(staging, install) <==>
              && "NightOwl.Agent.Windows.exe" in staging && "NightOwl.Agent.Updater.exe" in staging
              && "NightOwl.Agent.Tray.exe" in staging && "NightOwl.Agent.Uninstaller.exe" in staging
              && "NightOwl.Agent.Diagnostics.exe" in staging
              && PayloadInstalled(staging, install) && |Managed(staging).Keys - {"agent.version.json"}| >= 5
  {
    hide IsProtected, PayloadInstalled;
    var names := REQUIRED_PAYLOAD;
    assert |names| == 5 && names[0] == "NightOwl.Agent.Windows.exe" && names[1] == "NightOwl.Agent.Updater.exe";
    assert names[2] == "NightOwl.Agent.Tray.exe" && names[3] == "NightOwl.Agent.Uninstaller.exe";
    assert names[4] == "NightOwl.Agent.Diagnostics.exe";
  }

  /** Once a backup has been made that validates, it validates for exactly its own update and, if a version is asked for,
      its own version, and for exactly as long as every file in it is what it was. */
  lemma DamageIsCaught(install: Files, updateId: string, version: string, files: Files, asked: string, from: string)
    requires ValidBackup(Some(BackupOf(install, updateId, version)), updateId, version)
    ensures ValidBackup(Some(BackupOf(install, updateId, version).(files := files)), asked, from) <==>
              && EqualsIgnoreCase(updateId, asked) && (IsBlank(from) || EqualsIgnoreCase(version, from))
              && forall p :: p in Managed(install) ==> SameAt(p, install, files)
  {
    hide IsProtected, HasRequired, EqualsIgnoreCase, IsBlank;
    var b := BackupOf(install, updateId, version);
    var damaged := b.(files := files);
    var entries := b.manifest.value.files;
    assert entries.Keys == Managed(install).Keys;
    forall p | p in Managed(install)
      ensures EntryIntact(damaged, p, entries[p]) <==> SameAt(p, install, files)
    {
      assert EntryIntact(b, p, entries[p]);
    }
    if forall p :: p in entries ==> EntryIntact(damaged, p, entries[p]) {
      forall p | p in Managed(install)
        ensures SameAt(p, install, files)
      {
        assert p in entries;
      }
    }
  }

  /** Restoring from a validated, authentic backup gives back the original tree, whatever the managed files were:
      after any partial copy, and after any partial earlier restore. */
  lemma RestoreInvertsAnyUpdate(original: Files, install: Files, b: Backup, updateId: string, previousVersion: string)
    requires Authentic(Some(b), original)
    requires ValidBackup(Some(b), updateId, previousVersion)
    requires ProtectedPart(install) == ProtectedPart(original)
    ensures Restored(install, b) == original
  {
    hide IsProtected;
    var entries := b.manifest.value.files;
    forall p | p in entries
      ensures p in original && b.files[p] == original[p] && !IsProtected(p)
    {
      assert EntryIntact(b, p, entries[p]);
      assert entries[p] == EntryFor(Managed(original)[p]);
    }
    assert entries.Keys == Managed(original).Keys;
    assert BackedUp(b) == Managed(original);
    ManagedAndProtectedMakeTheWhole(original);
  }

  /** Restoring twice is restoring once. */
  lemma RestoreIsIdempotent(install: Files, b: Backup, updateId: string, previousVersion: string)
    requires ValidBackup(Some(b), updateId, previousVersion)
    ensures ProtectedPart(Restored(install, b)) == ProtectedPart(install)
    ensures Restored(Restored(install, b), b) == Restored(install, b)
  {
    hide IsProtected;
    forall p | p in b.manifest.value.files
      ensures !IsProtected(p)
    {
      assert EntryIntact(b, p, b.manifest.value.files[p]);
    }
  }

  /** Overlaying a package and restoring the backup taken before it is the identity on every installation. */
  lemma UpdateThenRollbackIsIdentity(original: Files, staging: Files, updateId: string, version: string)
    requires ValidBackup(Some(BackupOf(original, updateId, version)), updateId, version)
    ensures Restored(Overlay(original, staging), BackupOf(original, updateId, version)) == original
  {
    hide IsProtected;
    FreshBackupIsValid(original, updateId, version);
    assert ProtectedPart(Overlay(original, staging)) == ProtectedPart(original);
    RestoreInvertsAnyUpdate(original, Overlay(original, staging), BackupOf(original, updateId, version), updateId, version);
  }

  /** A protected directory protects everything below it, at any depth. */
  lemma ProtectedDirectoryCoversItsTree(directory: string, rest: string, i: nat)
    requires NormalizeRelativePath(directory) == directory && directory != ""
    requires i < |WithoutEmpty(Split(directory, '/'))|
    requires ListedIgnoringCase(WithoutEmpty(Split(directory, '/'))[i], PROTECTED_DIRECTORIES)
    ensures IsProtected(directory + "/" + rest)
  {
    var path := directory + "/" + rest;
    NormalizedPrefix(directory, rest);
    SplitOfJoined(directory, SlashForward(rest), '/');
    var above, below := Split(directory, '/'), Split(SlashForward(rest), '/');
    WithoutEmptyOfJoined(above, below);
    var segments := WithoutEmpty(Split(NormalizeRelativePath(path), '/'));
    assert segments[i] == WithoutEmpty(above)[i];
  }

  lemma NormalizedPrefix(directory: string, rest: string)
    requires NormalizeRelativePath(directory) == directory && directory != ""
    ensures NormalizeRelativePath(directory + "/" + rest) == directory + "/" + SlashForward(rest)
  {
    NormalFormHasNoBackslash(directory);
    assert SlashForward(directory + "/" + rest) == directory + "/" + SlashForward(rest);
  }

  lemma NormalFormHasNoBackslash(path: string)
    requires NormalizeRelativePath(path) == path && path != ""
    ensures SlashForward(path) == path && path[0] != '/'
  {
    DroppingNeverGrows(SlashForward(path));
  }

  lemma {:induction false} DroppingNeverGrows(path: string)
    ensures |DropLeadingSlashes(path)| <= |path|
    ensures |DropLeadingSlashes(path)| == |path| ==> DropLeadingSlashes(path) == path && (path == "" || path[0] != '/')
  {
    if path != "" && path[0] == '/' {
      DroppingNeverGrows(path[1..]);
    }
  }

  // Which paths are protected, read off the path itself.

  predicate IsSlash(c: char) {
    c == '/' || c == '\\'
  }

  /** A name on a path: what lies between slashes of either kind, or between one and an end of the path. */
  predicate IsName(path: string, i: nat, j: nat) {
    && i < j <= |path| && (forall k :: i <= k < j ==> !IsSlash(path[k]))
    && (i == 0 || IsSlash(path[i - 1])) && (j == |path| || IsSlash(path[j]))
  }

  /** The file names an update never touches, in any spelling of their letters. */
  ghost predicate IsGuardedName(name: string) {
    || EqualsIgnoreCase(name, "agent.config.json")
    || EqualsIgnoreCase(name, "agent-dotnet.state.json")
    || EqualsIgnoreCase(name, "agent.state.json")
    || EqualsIgnoreCase(name, "update-state.json")
    || EqualsIgnoreCase(name, "backup-manifest.json")
    || (exists k :: OccursAt(Upper(name), "TOKEN", k))
    || (exists k :: OccursAt(Upper(name), "MACHINE_ID", k))
  }

  predicate IsGuardedDirectory(name: string) {
    || EqualsIgnoreCase(name, "Config") || EqualsIgnoreCase(name, "Identity") || EqualsIgnoreCase(name, "State")
    || EqualsIgnoreCase(name, "Logs") || EqualsIgnoreCase(name, "Diagnostics") || EqualsIgnoreCase(name, "Updates")
    || EqualsIgnoreCase(name, "Packages") || EqualsIgnoreCase(name, "Cache")
  }

  /** The path ends in a guarded file name, or has a guarded directory's name anywhere on it. */
  ghost predicate IsGuarded(path: string) {
    || (exists i: nat :: IsName(path, i, |path|) && IsGuardedName(path[i..]))
    || (exists i: nat, j: nat :: IsName(path, i, j) && IsGuardedDirectory(path[i..j]))
  }

  lemma NamesArePieces(path: string, i: nat, j: nat)
    ensures IsName(path, i, j) <==> i < j && IsPiece(SlashForward(path), '/', i, j)
    ensures IsName(path, i, j) ==> SlashForward(path)[i..j] == path[i..j]
  {
    var q := SlashForward(path);
    assert forall k :: 0 <= k < |path| ==> (q[k] == '/' <==> IsSlash(path[k]));
    if i < j <= |path| {
      assert forall k :: i <= k < j ==> q[i..j][k - i] == q[k];
      if forall k :: i <= k < j ==> !IsSlash(path[k]) {
        assert '/' !in q[i..j];
        assert q[i..j] == path[i..j];
      }
    }
  }

  /** Leading slashes make no difference to the names on a path, nor to its last piece. */
  lemma {:induction false} LeadingSlashesAreEmpty(q: string, name: string)
    ensures name != "" ==> (name in Split(DropLeadingSlashes(q), '/') <==> name in Split(q, '/'))
    ensures FileName(DropLeadingSlashes(q)) == FileName(q)
  {
    if q != "" && q[0] == '/' {
      LeadingSlashesAreEmpty(q[1..], name);
      assert Split(q, '/') == [""] + Split(q[1..], '/');
    }
  }

  /** The segments of a path are the names on it. */
  lemma SegmentsAreNames(path: string, name: string)
    ensures name in WithoutEmpty(Split(NormalizeRelativePath(path), '/'))
            <==> exists i: nat, j: nat :: IsName(path, i, j) && path[i..j] == name
  {
    var q := SlashForward(path);
    WithoutEmptyKeeps(Split(NormalizeRelativePath(path), '/'), name);
    LeadingSlashesAreEmpty(q, name);
    hide Split, IsPiece, WithoutEmpty, SlashForward, DropLeadingSlashes;
    if name != "" && name in Split(q, '/') {
      var m :| 0 <= m < |Split(q, '/')| && Split(q, '/')[m] == name;
      var i, j := PieceLies(q, '/', m);
      NamesArePieces(path, i, j);
      assert IsName(path, i, j) && path[i..j] == name;
    }
    if i: nat, j: nat :| IsName(path, i, j) && path[i..j] == name {
      NamesArePieces(path, i, j);
      PiecesAreFound(q, '/', i, j);
    }
  }

  /** The file name is the name a path ends in; there is none if it ends in a slash, or is empty. */
  lemma FileNameIsLastName(path: string)
    ensures var name := FileName(NormalizeRelativePath(path));
            && (name != "" ==> exists i: nat :: IsName(path, i, |path|) && path[i..] == name)
            && (forall i: nat :: IsName(path, i, |path|) ==> path[i..] == name)
  {
    var q := SlashForward(path);
    var name := FileName(NormalizeRelativePath(path));
    LeadingSlashesAreEmpty(q, "");
    hide Split, IsPiece, DropLeadingSlashes;
    var i, j := PieceLies(q, '/', |Split(q, '/')| - 1);
    WholeSuffix(path, q, i);
    NamesArePieces(path, i, j);
    forall k: nat | IsName(path, k, |path|)
      ensures path[k..] == name
    {
      NamesArePieces(path, k, |path|);
      PiecesAreFound(q, '/', k, |path|);
      WholeSuffix(path, q, k);
    }
  }

  lemma WholeSuffix(path: string, q: string, i: nat)
    requires |q| == |path| && i <= |q|
    ensures q[i..|q|] == q[i..] && path[i..|q|] == path[i..]
  {
  }

  lemma ProtectedNames(name: string)
    ensures ListedIgnoringCase(name, PROTECTED_NAMES) || Contains(Upper(name), "TOKEN") || Contains(Upper(name), "MACHINE_ID")
            <==> IsGuardedName(name)
    ensures IsGuardedName(name) ==> name != ""
  {
    ContainsSomewhere(Upper(name), "TOKEN");
    ContainsSomewhere(Upper(name), "MACHINE_ID");
    assert |Upper(name)| == |name|;
    var names := PROTECTED_NAMES;
    assert |names| == 5 && names[0] == "agent.config.json" && names[1] == "agent-dotnet.state.json";
    assert names[2] == "agent.state.json" && names[3] == "update-state.json" && names[4] == "backup-manifest.json";
    hide Contains;
  }

  lemma ProtectedDirectories(name: string)
    ensures ListedIgnoringCase(name, PROTECTED_DIRECTORIES) <==> IsGuardedDirectory(name)
  {
    var names := PROTECTED_DIRECTORIES;
    assert |names| == 8 && names[0] == "Config" && names[1] == "Identity" && names[2] == "State" && names[3] == "Logs";
    assert names[4] == "Diagnostics" && names[5] == "Updates" && names[6] == "Packages" && names[7] == "Cache";
    hide EqualsIgnoreCase;
  }

  /** The protected paths are exactly the guarded ones. */
  lemma ProtectedMeansGuarded(path: string)
    ensures IsProtected(path) <==> IsGuarded(path)
  {
    var normalized := NormalizeRelativePath(path);
    var name, segments := FileName(normalized), WithoutEmpty(Split(normalized, '/'));
    FileNameIsLastName(path);
    ProtectedNames(name);
    hide IsGuardedName, IsGuardedDirectory, ListedIgnoringCase, Contains, NormalizeRelativePath, WithoutEmpty, Split,
         FileName, Upper;
    if k :| 0 <= k < |segments| && ListedIgnoringCase(segments[k], PROTECTED_DIRECTORIES) {
      SegmentsAreNames(path, segments[k]);
      ProtectedDirectories(segments[k]);
    }
    if i: nat, j: nat :| IsName(path, i, j) && IsGuardedDirectory(path[i..j]) {
      SegmentsAreNames(path, path[i..j]);
      ProtectedDirectories(path[i..j]);
      var k :| 0 <= k < |segments| && segments[k] == path[i..j];
    }
  }

  predicate SameAt(p: Path, one: Files, other: Files) {
    (p in one <==> p in other) && (p in one ==> one[p] == other[p])
  }

  /** Neither copying a package nor restoring a backup that validates touches a guarded path. */
  lemma GuardedFilesAreKept(path: Path, install: Files, staging: Files, b: Backup, updateId: string, version: string)
    requires IsGuarded(path)
    ensures SameAt(path, install, Overlay(install, staging))
    ensures ValidBackup(Some(b), updateId, version) ==> SameAt(path, install, Restored(install, b))
  {
    ProtectedMeansGuarded(path);
    hide IsProtected, IsGuarded;
    if ValidBackup(Some(b), updateId, version) {
      forall p | p in b.manifest.value.files
        ensures !IsProtected(p)
      {
        assert EntryIntact(b, p, b.manifest.value.files[p]);
      }
    }
  }

  /** Every other file of a package is copied, and every other file of an installation is backed up and restored. */
  lemma OtherFilesAreManaged(path: Path, install: Files, staging: Files, updateId: string, version: string)
    requires !IsGuarded(path)
    ensures path in staging ==> SameAt(path, staging, Overlay(install, staging))
    ensures SameAt(path, install, BackupOf(install, updateId, version).files)
  {
    ProtectedMeansGuarded(path);
    hide IsProtected, IsGuarded;
  }

  /** For example, the configuration in any directory, under any spelling. */
  lemma ConfigurationIsGuarded(directory: string, name: string)
    requires directory == "" || IsSlash(directory[|directory| - 1])
    requires EqualsIgnoreCase(name, "agent.config.json")
    ensures IsGuarded(directory + name)
  {
    var path, i := directory + name, |directory|;
    assert path[i..] == name;
    forall k | 0 <= k < |name|
      ensures !IsSlash(name[k])
    {
      assert Upper(name)[k] == Upper("agent.config.json")[k];
    }
    assert IsName(path, i, |path|);
  }

  lemma {:induction false} TextWithoutLetterLacksWord(s: string, word: string, at: nat)
    requires at < |word| && forall i :: 0 <= i < |s| ==> s[i] != word[at]
    ensures !Contains(s, word)
  {
    assert at < |s| ==> s[at] != word[at];
    if s != "" {
      TextWithoutLetterLacksWord(s[1..], word, at);
    }
  }

  lemma NotListedByLength(name: string, names: seq<string>)
    requires forall i :: 0 <= i < |names| ==> |names[i]| != |name|
    ensures !ListedIgnoringCase(name, names)
  {
    forall i | 0 <= i < |names|
      ensures !EqualsIgnoreCase(name, names[i])
    {
      assert |Upper(name)| == |name| && |Upper(names[i])| == |names[i]|;
    }
  }

  /** A bare file name is managed when it is no protected name and can hold neither guarded word. */
  lemma BareNameIsManaged(name: string)
    requires name != "" && forall i :: 0 <= i < |name| ==> name[i] != '/' && name[i] != '\\'
    requires forall i :: 0 <= i < |name| ==> UpperChar(name[i]) != 'K' && UpperChar(name[i]) != 'H'
    requires !ListedIgnoringCase(name, PROTECTED_NAMES) && !ListedIgnoringCase(name, PROTECTED_DIRECTORIES)
    ensures !IsProtected(name)
  {
    assert SlashForward(name) == name;
    SplitAbsent(name, '/');
    assert WithoutEmpty([name]) == [name];
    TextWithoutLetterLacksWord(Upper(name), "TOKEN", 2);
    TextWithoutLetterLacksWord(Upper(name), "MACHINE_ID", 3);
  }

  /** The version file is one of the managed files, so it is backed up and restored like the rest. */
  lemma VersionFileIsManaged()
    ensures !IsProtected(VERSION_FILE)
  {
    NotListedByLength(VERSION_FILE, PROTECTED_NAMES);
    NotListedByLength(VERSION_FILE, PROTECTED_DIRECTORIES);
    BareNameIsManaged(VERSION_FILE);
  }
}
