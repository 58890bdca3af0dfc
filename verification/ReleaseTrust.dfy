/** The release-trust bundle: what a bundle must satisfy to be accepted, how it is installed in four file writes that can
    stop anywhere, and what any sequence of synchronizations keeps. */
module ReleaseTrust {
  import opened Text

  /** A release key; a public key that holds private parameters is marked as such. */
  datatype TrustKey = TrustKey(
    keyId: string, status: string, algorithm: string, publicKey: string, hasPrivateParameters: bool,
    validFrom: Option<int>, validUntil: Option<int>)

  datatype Bundle = Bundle(
    schemaVersion: int, version: int, validFrom: Option<int>, validUntil: Option<int>, keys: seq<TrustKey>)

  /** The bytes of a bundle file, and what they parse to. */
  datatype Document = Document(bytes: seq<int>, content: Option<Bundle>)

  /** SHA-256 as a text: of a document, ideally; or some other text. */
  datatype Digest = Sha256(of: Document) | OtherText(text: string)
  {
    predicate IsBlank() {
      OtherText? && Text.IsBlank(text)
    }
  }

  /** A detached signature: made with a root key over a document, or anything else. */
  datatype Signature = Signed(publicKey: string, of: Document) | OtherBytes(raw: seq<int>)

  datatype Metadata = Metadata(
    schemaVersion: int, bundleVersion: int, bundleSha256: Digest, signatureMatches: bool, rootKeyId: string, size: int)

  datatype RootKey = RootKey(keyId: string, algorithm: string, publicKey: string, revoked: bool)

  datatype TrustState = TrustState(
    version: int, sha256: Digest, rootKeyId: string, activeKeyIds: seq<string>, revokedKeyIds: seq<string>,
    lastError: string)

  const FRESH_STATE := TrustState(0, OtherText(""), "", [], [], "")

  const ALGORITHM := "RSA-PSS-SHA256"

  datatype Error =
    | MetadataInvalid | RootUnknown | RootRevoked | SignatureInvalid | BundleInvalid | BundleExpired
    | BundleDowngrade | SameVersionDivergent | KeyDuplicate | PrivateParameters | RevocationRegression | DownloadFailed

  datatype Verdict = Accepted(bundle: Bundle) | Rejected(error: Error)

  /** Equality of two hexadecimal texts; a blank one equals nothing. */
  predicate DigestsEqual(actual: Digest, expected: Digest) {
    !actual.IsBlank() && !expected.IsBlank() && actual == expected
  }

  predicate HasStatus(k: TrustKey, status: string) {
    EqualsIgnoreCase(k.status, status)
  }

  // The policy for the keys of a bundle.

  predicate KeyIsProper(k: TrustKey) {
    && !IsBlank(k.keyId) && !IsBlank(k.publicKey)
    && EqualsIgnoreCase(k.algorithm, ALGORITHM) && !k.hasPrivateParameters
    && (HasStatus(k, "active") || HasStatus(k, "revoked") || HasStatus(k, "retired"))
    && (k.validFrom.Some? && k.validUntil.Some? ==> k.validFrom.value < k.validUntil.value)
  }

  predicate NoDuplicates(keys: seq<TrustKey>) {
    forall i, j :: 0 <= i < j < |keys| ==> !EqualsIgnoreCase(keys[i].keyId, keys[j].keyId)
  }

  predicate Lists(keys: seq<TrustKey>, keyId: string, status: string) {
    exists i :: 0 <= i < |keys| && EqualsIgnoreCase(keys[i].keyId, keyId) && HasStatus(keys[i], status)
  }

  predicate HasActiveKey(keys: seq<TrustKey>) {
    exists i :: 0 <= i < |keys| && HasStatus(keys[i], "active")
  }

  /** No key the current bundle revokes is active in the new one. */
  predicate KeepsRevocations(current: seq<TrustKey>, keys: seq<TrustKey>) {
    forall i :: 0 <= i < |current| && HasStatus(current[i], "revoked") ==> !Lists(keys, current[i].keyId, "active")
  }

  predicate PolicyHolds(keys: seq<TrustKey>, current: Option<Bundle>) {
    && (forall i :: 0 <= i < |keys| ==> KeyIsProper(keys[i]))
    && NoDuplicates(keys) && HasActiveKey(keys)
    && (current.Some? ==> KeepsRevocations(current.value.keys, keys))
  }

  /** The dictionary of the keys seen so far, by their ids in one case. */
  ghost predicate SeenKeys(seen: map<string, TrustKey>, keys: seq<TrustKey>) {
    && (forall k :: 0 <= k < |keys| ==> Upper(keys[k].keyId) in seen && seen[Upper(keys[k].keyId)] == keys[k])
    && (forall id :: id in seen ==> exists k :: 0 <= k < |keys| && Upper(keys[k].keyId) == id)
  }

  /** ValidateBundlePolicy: one pass over the keys, and one over what the current bundle revokes. */
  method ValidateBundlePolicy(keys: seq<TrustKey>, current: Option<Bundle>) returns (error: Option<Error>)
    ensures error.None? <==> PolicyHolds(keys, current)
    ensures error == Some(RevocationRegression) <==> PolicyHolds(keys, None) && !PolicyHolds(keys, current)
    ensures error == Some(KeyDuplicate) ==> !NoDuplicates(keys)
    ensures error == Some(PrivateParameters) ==> exists i :: 0 <= i < |keys| && keys[i].hasPrivateParameters
  {
    hide KeyIsProper, Upper, KeepsRevocations;
    var seen;
    error, seen := CheckKeys(keys);
    if error.None? && current.Some? {
      var kept := CheckRevocations(seen, keys, current.value.keys);
      error := if kept then None else Some(RevocationRegression);
    }
  }

  method CheckKeys(keys: seq<TrustKey>) returns (error: Option<Error>, seen: map<string, TrustKey>)
    ensures error.None? <==> PolicyHolds(keys, None)
    ensures error != Some(RevocationRegression)
    ensures error == Some(KeyDuplicate) ==> !NoDuplicates(keys)
    ensures error == Some(PrivateParameters) ==> exists i :: 0 <= i < |keys| && keys[i].hasPrivateParameters
    ensures error.None? ==> SeenKeys(seen, keys)
  {
    hide Upper, IsBlank, NoDuplicates, SeenKeys, HasActiveKey, EqualsIgnoreCase, KeyIsProper;
    PolicyOfKeys(keys);
    hide PolicyHolds;
    seen := map[];
    NothingSeen();
    var activeCount := 0;
    assert keys[..0] == [];
    for i := 0 to |keys|
      invariant forall k :: 0 <= k < i ==> KeyIsProper(keys[k])
      invariant NoDuplicates(keys[..i]) && SeenKeys(seen, keys[..i])
      invariant activeCount >= 0 && (activeCount > 0 <==> HasActiveKey(keys[..i]))
    {
      var key := keys[i];
      ghost var before := keys[..i];
      assert keys[..i + 1] == before + [key];
      ActiveSoFar(before, key);
      SeenOneMore(seen, before, key);
      DuplicateOfPrefix(keys, i);
      ImproperKey(keys, i);
      var fault := CheckText(key);
      if fault.Some? {
        return fault, seen;
      }
      if Upper(key.keyId) in seen {
        return Some(KeyDuplicate), seen;
      }
      seen := seen[Upper(key.keyId) := key];
      fault := CheckKey(key);
      if fault.Some? {
        return fault, seen;
      }
      if HasStatus(key, "active") {
        activeCount := activeCount + 1;
      }
    }
    assert keys[..|keys|] == keys;
    error := if activeCount == 0 then Some(BundleInvalid) else None;
  }

  lemma PolicyOfKeys(keys: seq<TrustKey>)
    ensures PolicyHolds(keys, None)
            <==> (forall k :: 0 <= k < |keys| ==> KeyIsProper(keys[k])) && NoDuplicates(keys) && HasActiveKey(keys)
  {
    hide KeyIsProper, NoDuplicates, HasActiveKey;
  }

  lemma NothingSeen()
    ensures NoDuplicates([]) && SeenKeys(map[], []) && !HasActiveKey([])
  {
  }

  lemma ImproperKey(keys: seq<TrustKey>, i: nat)
    requires i < |keys|
    ensures PolicyHolds(keys, None) ==> KeyIsProper(keys[i]) && NoDuplicates(keys)
  {
    hide KeyIsProper;
  }

  method CheckText(key: TrustKey) returns (error: Option<Error>)
    ensures error == if IsBlank(key.keyId) || IsBlank(key.publicKey) then Some(BundleInvalid) else None
    ensures error.Some? ==> !KeyIsProper(key)
  {
    hide IsBlank, EqualsIgnoreCase;
    error := if IsBlank(key.keyId) || IsBlank(key.publicKey) then Some(BundleInvalid) else None;
  }

  /** What is asked of one key beside its id and its text. */
  method CheckKey(key: TrustKey) returns (error: Option<Error>)
    ensures !IsBlank(key.keyId) && !IsBlank(key.publicKey) ==> (error.None? <==> KeyIsProper(key))
    ensures error == Some(PrivateParameters) ==> key.hasPrivateParameters
    ensures error.Some? ==> error.value.BundleInvalid? || error.value.PrivateParameters?
    ensures error.Some? ==> !KeyIsProper(key)
  {
    if !EqualsIgnoreCase(key.algorithm, ALGORITHM) {
      return Some(BundleInvalid);
    }
    if key.hasPrivateParameters {
      return Some(PrivateParameters);
    }
    if !HasStatus(key, "active") && !HasStatus(key, "revoked") && !HasStatus(key, "retired") {
      return Some(BundleInvalid);
    }
    if key.validFrom.Some? && key.validUntil.Some? && key.validUntil.value <= key.validFrom.value {
      return Some(BundleInvalid);
    }
    return None;
  }

  lemma SeenOneMore(seen: map<string, TrustKey>, before: seq<TrustKey>, key: TrustKey)
    requires NoDuplicates(before) && SeenKeys(seen, before)
    ensures Upper(key.keyId) !in seen <==> NoDuplicates(before + [key])
    ensures Upper(key.keyId) !in seen ==> SeenKeys(seen[Upper(key.keyId) := key], before + [key])
  {
    hide Upper;
    var all := before + [key];
    if Upper(key.keyId) in seen {
      var k :| 0 <= k < |before| && Upper(before[k].keyId) == Upper(key.keyId);
      assert EqualsIgnoreCase(all[k].keyId, all[|before|].keyId);
    } else {
      assert forall k :: 0 <= k < |before| ==> all[k] == before[k];
      assert all[|before|] == key;
    }
  }

  lemma DuplicateOfPrefix(keys: seq<TrustKey>, i: nat)
    requires i < |keys|
    ensures NoDuplicates(keys) ==> NoDuplicates(keys[..i + 1])
  {
    hide EqualsIgnoreCase;
  }

  method CheckRevocations(seen: map<string, TrustKey>, keys: seq<TrustKey>, current: seq<TrustKey>) returns (kept: bool)
    requires NoDuplicates(keys) && SeenKeys(seen, keys)
    ensures kept <==> KeepsRevocations(current, keys)
  {
    hide Upper;
    for i := 0 to |current|
      invariant forall k :: 0 <= k < i && HasStatus(current[k], "revoked") ==> !Lists(keys, current[k].keyId, "active")
    {
      if HasStatus(current[i], "revoked") {
        var id := Upper(current[i].keyId);
        SeenIsListed(seen, keys, current[i].keyId);
        if id in seen && HasStatus(seen[id], "active") {
          return false;
        }
      }
    }
    return true;
  }

  lemma SeenIsListed(seen: map<string, TrustKey>, keys: seq<TrustKey>, keyId: string)
    requires SeenKeys(seen, keys)
    ensures Upper(keyId) in seen && HasStatus(seen[Upper(keyId)], "active") <==> Lists(keys, keyId, "active")
  {
    hide Upper;
  }

  lemma ActiveSoFar(before: seq<TrustKey>, key: TrustKey)
    ensures HasActiveKey(before + [key]) <==> HasActiveKey(before) || HasStatus(key, "active")
  {
    if HasActiveKey(before) {
      var i :| 0 <= i < |before| && HasStatus(before[i], "active");
      assert HasStatus((before + [key])[i], "active");
    }
    if HasStatus(key, "active") {
      assert HasStatus((before + [key])[|before|], "active");
    }
  }

  // The validation of a download.

  datatype Download = Download(document: Document, signature: Signature, metadata: Metadata)

  function FindRoot(roots: seq<RootKey>, keyId: string): Option<RootKey> {
    if roots == [] then None
    else if EqualsIgnoreCase(roots[0].keyId, keyId) then Some(roots[0])
    else FindRoot(roots[1..], keyId)
  }

  predicate VerifySignature(publicKey: string, document: Document, signature: Signature) {
    signature == Signed(publicKey, document)
  }

  /** The checks that come before the policy. */
  function CheckedDownload(d: Download, roots: seq<RootKey>, state: TrustState, clock: int): Verdict {
    var m, root := d.metadata, FindRoot(roots, d.metadata.rootKeyId);
    if m.schemaVersion != 1 || m.bundleVersion <= 0 then Rejected(MetadataInvalid)
    else if !DigestsEqual(Sha256(d.document), m.bundleSha256) || !m.signatureMatches then Rejected(MetadataInvalid)
    else if m.size > 0 && m.size != |d.document.bytes| then Rejected(MetadataInvalid)
    else if root.None? then Rejected(RootUnknown)
    else if root.value.revoked then Rejected(RootRevoked)
    else if !EqualsIgnoreCase(root.value.algorithm, ALGORITHM) then Rejected(RootUnknown)
    else if !VerifySignature(root.value.publicKey, d.document, d.signature) then Rejected(SignatureInvalid)
    else if d.document.content.None? then Rejected(BundleInvalid)
    else CheckedBundle(d.document, m, state, clock)
  }

  function CheckedBundle(document: Document, m: Metadata, state: TrustState, clock: int): Verdict
    requires document.content.Some?
  {
    var b := document.content.value;
    if b.schemaVersion != 1 || b.version <= 0 then Rejected(BundleInvalid)
    else if b.version != m.bundleVersion then Rejected(MetadataInvalid)
    else if b.validFrom.Some? && b.validFrom.value > clock then Rejected(BundleInvalid)
    else if b.validUntil.Some? && b.validUntil.value <= clock then Rejected(BundleExpired)
    else if b.version < state.version then Rejected(BundleDowngrade)
    else if b.version == state.version && !state.sha256.IsBlank() && !DigestsEqual(Sha256(document), state.sha256) then
      Rejected(SameVersionDivergent)
    else Accepted(b)
  }

  /** Whether a download is accepted, beside what is installed. */
  predicate Acceptable(d: Download, roots: seq<RootKey>, state: TrustState, current: Option<Bundle>, clock: int) {
    && d.document.content.Some?
    && CheckedDownload(d, roots, state, clock).Accepted?
    && PolicyHolds(d.document.content.value.keys, current)
  }

  method Validate(d: Download, roots: seq<RootKey>, state: TrustState, current: Option<Bundle>, clock: int)
    returns (verdict: Verdict)
    ensures verdict.Accepted? <==> Acceptable(d, roots, state, current, clock)
    ensures verdict.Accepted? ==> d.document.content == Some(verdict.bundle)
    ensures CheckedDownload(d, roots, state, clock).Rejected? ==> verdict == CheckedDownload(d, roots, state, clock)
  {
    verdict := CheckedDownload(d, roots, state, clock);
    if verdict.Accepted? {
      var error := ValidateBundlePolicy(verdict.bundle.keys, current);
      if error.Some? {
        verdict := Rejected(error.value);
      }
    }
  }

  /** What acceptance means for the version, the hash and the signature. */
  lemma AcceptedMeans(d: Download, roots: seq<RootKey>, state: TrustState, current: Option<Bundle>, clock: int)
    requires Acceptable(d, roots, state, current, clock)
    ensures d.document.content.Some? && state.version <= d.document.content.value.version
    ensures d.document.content.value.version == state.version ==> state.sha256.IsBlank() || state.sha256 == Sha256(d.document)
    ensures exists root :: root in roots && !root.revoked && d.signature == Signed(root.publicKey, d.document)
    ensures current.Some? ==> KeepsRevocations(current.value.keys, d.document.content.value.keys)
  {
    FoundRootIsThere(roots, d.metadata.rootKeyId);
  }

  /** A root key of the list that may have signed a document: the first of its id, not revoked, and of the right kind. */
  predicate SignedBy(d: Download, roots: seq<RootKey>, i: nat) {
    && i < |roots| && EqualsIgnoreCase(roots[i].keyId, d.metadata.rootKeyId)
    && (forall k :: 0 <= k < i ==> !EqualsIgnoreCase(roots[k].keyId, d.metadata.rootKeyId))
    && !roots[i].revoked && EqualsIgnoreCase(roots[i].algorithm, "RSA-PSS-SHA256")
    && d.signature == Signed(roots[i].publicKey, d.document)
  }

  /** The metadata describe the document they came with. */
  predicate Describes(m: Metadata, document: Document) {
    && m.schemaVersion == 1 && m.bundleSha256 == Sha256(document) && m.signatureMatches
    && (m.size > 0 ==> m.size == |document.bytes|)
    && document.content.Some? && document.content.value.version == m.bundleVersion
  }

  /** Everything that is asked of a download before the policy for its keys: a document of a positive version that its
      metadata describe, signed with a root, valid now, and no step back from what is on record. */
  lemma AcceptedExactly(d: Download, roots: seq<RootKey>, state: TrustState, clock: int)
    ensures CheckedDownload(d, roots, state, clock).Accepted? <==>
              && Describes(d.metadata, d.document) && (exists i :: SignedBy(d, roots, i))
              && var b := d.document.content.value;
                 && b.schemaVersion == 1 && b.version > 0
                 && (b.validFrom.Some? ==> b.validFrom.value <= clock)
                 && (b.validUntil.Some? ==> clock < b.validUntil.value)
                 && (b.version > state.version
                     || (b.version == state.version && (state.sha256.IsBlank() || state.sha256 == Sha256(d.document))))
  {
    RootIsFirst(roots, d.metadata.rootKeyId);
    if i: nat :| SignedBy(d, roots, i) {
      assert FindRoot(roots, d.metadata.rootKeyId) == Some(roots[i]);
    }
    var root := FindRoot(roots, d.metadata.rootKeyId);
    if root.Some? {
      var i: nat :| i < |roots| && IsFirst(roots, d.metadata.rootKeyId, i);
      assert root == Some(roots[i]);
      assert SignedBy(d, roots, i)
        <==> !root.value.revoked && EqualsIgnoreCase(root.value.algorithm, ALGORITHM)
             && d.signature == Signed(root.value.publicKey, d.document);
    }
    hide EqualsIgnoreCase, FindRoot;
  }

  predicate IsFirst(roots: seq<RootKey>, keyId: string, i: nat) {
    && i < |roots| && EqualsIgnoreCase(roots[i].keyId, keyId)
    && (forall k :: 0 <= k < i ==> !EqualsIgnoreCase(roots[k].keyId, keyId))
  }

  lemma {:induction false} RootIsFirst(roots: seq<RootKey>, keyId: string)
    ensures FindRoot(roots, keyId).Some? ==> exists i: nat :: IsFirst(roots, keyId, i)
    ensures forall i: nat :: IsFirst(roots, keyId, i) ==> FindRoot(roots, keyId) == Some(roots[i])
  {
    hide EqualsIgnoreCase;
    if roots != [] {
      RootIsFirst(roots[1..], keyId);
      if EqualsIgnoreCase(roots[0].keyId, keyId) {
        assert IsFirst(roots, keyId, 0);
      } else {
        forall i: nat | IsFirst(roots[1..], keyId, i)
          ensures IsFirst(roots, keyId, i + 1)
        {
          assert forall k :: 0 < k < i + 1 ==> roots[k] == roots[1..][k - 1];
        }
        forall i: nat | IsFirst(roots, keyId, i)
          ensures FindRoot(roots, keyId) == Some(roots[i])
        {
          assert forall k :: 0 <= k < i - 1 ==> roots[1..][k] == roots[k + 1];
          assert IsFirst(roots[1..], keyId, i - 1);
        }
      }
    }
  }

  /** A download that was accepted once is refused later exactly because it has expired, or because something newer, or
      something else of its version, has been installed; the refusal says which. */
  lemma AcceptanceLasts(d: Download, roots: seq<RootKey>, state: TrustState, clock: int, now: TrustState, later: int)
    requires CheckedDownload(d, roots, state, clock).Accepted? && d.document.content.Some? && clock <= later
    ensures var b := d.document.content.value;
            CheckedDownload(d, roots, now, later)
            == if b.validUntil.Some? && b.validUntil.value <= later then Rejected(BundleExpired)
               else if b.version < now.version then Rejected(BundleDowngrade)
               else if b.version == now.version && !now.sha256.IsBlank() && now.sha256 != Sha256(d.document) then
                 Rejected(SameVersionDivergent)
               else Accepted(b)
  {
    hide FindRoot, EqualsIgnoreCase;
  }

  lemma {:induction false} FoundRootIsThere(roots: seq<RootKey>, keyId: string)
    ensures FindRoot(roots, keyId).Some? ==> FindRoot(roots, keyId).value in roots
  {
    if roots != [] {
      FoundRootIsThere(roots[1..], keyId);
    }
  }

  // What is on disk.

  /** The files of the trust directory, and the bundle of an older layout; a missing or unreadable state file reads as a
      fresh state. */
  datatype Trust = Trust(
    state: Option<TrustState>, bundle: Option<Document>, signature: Option<Signature>, metadata: Option<Metadata>,
    legacyBundle: Option<Document>)

  function LoadState(t: Trust): TrustState {
    if t.state.Some? then t.state.value else FRESH_STATE
  }

  /** The bundle now in use; an unreadable file reads as none, a missing one as that of the older layout. */
  function LoadBundle(t: Trust): Option<Bundle> {
    if t.bundle.Some? then t.bundle.value.content
    else if t.legacyBundle.Some? then t.legacyBundle.value.content
    else None
  }

  function IdsWith(keys: seq<TrustKey>, status: string): seq<string> {
    if keys == [] then []
    else (if HasStatus(keys[0], status) then [keys[0].keyId] else []) + IdsWith(keys[1..], status)
  }

  function InstalledState(b: Bundle, document: Document, rootKeyId: string): TrustState {
    TrustState(b.version, Sha256(document), rootKeyId, IdsWith(b.keys, "active"), IdsWith(b.keys, "revoked"), "")
  }

  function UnchangedState(state: TrustState, b: Bundle, document: Document, rootKeyId: string): TrustState {
    var named := state.(version := b.version, sha256 := Sha256(document),
                        rootKeyId := if IsBlank(state.rootKeyId) then rootKeyId else state.rootKeyId, lastError := "");
    if named.activeKeyIds == [] && named.revokedKeyIds == [] then
      named.(activeKeyIds := IdsWith(b.keys, "active"), revokedKeyIds := IdsWith(b.keys, "revoked"))
    else named
  }

  /** How far the writes of an installation get, and whether the process lives to report an error. */
  datatype Fate = Fate(writes: nat, survives: bool)

  const ALL_WRITES := 4

  function InstallWrites(t: Trust, d: Download, b: Bundle, writes: nat): Trust {
    var t1 := if writes >= 1 then t.(bundle := Some(d.document)) else t;
    var t2 := if writes >= 2 then t1.(signature := Some(d.signature)) else t1;
    var t3 := if writes >= 3 then t2.(metadata := Some(d.metadata)) else t2;
    if writes >= ALL_WRITES then t3.(state := Some(InstalledState(b, d.document, d.metadata.rootKeyId))) else t3
  }

  function WithFailure(t: Trust, error: string): Trust {
    t.(state := Some(LoadState(t).(lastError := error)))
  }

  datatype Request = Request(expectedRootKeyId: string, expectedVersion: Option<int>, expectedSha256: Option<Digest>)

  predicate RequestMatches(r: Request, d: Download) {
    && (IsBlank(r.expectedRootKeyId) || EqualsIgnoreCase(d.metadata.rootKeyId, r.expectedRootKeyId))
    && (r.expectedVersion.Some? ==> d.metadata.bundleVersion == r.expectedVersion.value)
    && (r.expectedSha256.Some? ==> r.expectedSha256.value == Sha256(d.document))
  }

  /** One synchronization: what was asked, what came down (nothing when the download failed), when, and how far it got. */
  datatype Sync = Sync(request: Request, download: Option<Download>, clock: int, fate: Fate)

  predicate Accepts(t: Trust, roots: seq<RootKey>, s: Sync) {
    && s.download.Some? && RequestMatches(s.request, s.download.value)
    && Acceptable(s.download.value, roots, LoadState(t), LoadBundle(t), s.clock)
  }

  predicate IsInstalled(t: Trust, d: Download)
    requires d.document.content.Some?
  {
    && LoadState(t).version == d.document.content.value.version
    && !LoadState(t).sha256.IsBlank() && LoadState(t).sha256 == Sha256(d.document)
  }

  const FAILED := "failed"

  /** What one synchronization leaves on disk. */
  function Synced(t: Trust, roots: seq<RootKey>, s: Sync): Trust {
    if !Accepts(t, roots, s) then
      if s.fate.survives then WithFailure(t, FAILED) else t
    else
      var d := s.download.value;
      var b := d.document.content.value;
      if IsInstalled(t, d) then
        if s.fate.writes >= 1 then
          t.(state := Some(UnchangedState(LoadState(t), b, d.document, d.metadata.rootKeyId)))
        else if s.fate.survives then WithFailure(t, FAILED)
        else t
      else
        var written := InstallWrites(t, d, b, s.fate.writes);
        if s.fate.writes < ALL_WRITES && s.fate.survives then WithFailure(written, FAILED) else written
  }

  datatype Status = NoUpdate | Updated | SyncFailed

  /** The trust directory. */
  class ReleaseTrustStore {
    var files: Trust

    constructor (files: Trust)
      ensures this.files == files
    {
      this.files := files;
    }

    /** InstallAsync: bundle, signature, metadata and state, each written whole or not at all. */
    method Install(d: Download, b: Bundle, writes: nat) returns (done: bool)
      modifies this
      ensures files == InstallWrites(old(files), d, b, writes)
      ensures done <==> writes >= ALL_WRITES
    {
      if writes == 0 {
        return false;
      }
      files := files.(bundle := Some(d.document));
      if writes == 1 {
        return false;
      }
      files := files.(signature := Some(d.signature));
      if writes == 2 {
        return false;
      }
      files := files.(metadata := Some(d.metadata));
      if writes == 3 {
        return false;
      }
      files := files.(state := Some(InstalledState(b, d.document, d.metadata.rootKeyId)));
      return true;
    }

    method MarkNoUpdate(d: Download, b: Bundle)
      modifies this
      ensures files == old(files).(state := Some(UnchangedState(LoadState(old(files)), b, d.document, d.metadata.rootKeyId)))
    {
      var state := LoadState(files);
      state := state.(version := b.version, sha256 := Sha256(d.document));
      if IsBlank(state.rootKeyId) {
        state := state.(rootKeyId := d.metadata.rootKeyId);
      }
      state := state.(lastError := "");
      if |state.activeKeyIds| == 0 && |state.revokedKeyIds| == 0 {
        state := state.(activeKeyIds := IdsWith(b.keys, "active"), revokedKeyIds := IdsWith(b.keys, "revoked"));
      }
      files := files.(state := Some(state));
    }

    method WriteFailure(error: string)
      modifies this
      ensures files == WithFailure(old(files), error)
    {
      var state := LoadState(files);
      files := files.(state := Some(state.(lastError := error)));
    }

    /** SyncAsync. A failing write raises an error that is recorded; a crash records nothing. */
    method Sync(roots: seq<RootKey>, s: Sync) returns (status: Status)
      modifies this
      ensures files == Synced(old(files), roots, s)
      ensures status.SyncFailed? <==>
                (!Accepts(old(files), roots, s)
                 || s.fate.writes < if IsInstalled(old(files), s.download.value) then 1 else ALL_WRITES)
      ensures status.NoUpdate? ==> files.bundle == old(files).bundle
    {
      hide Acceptable, RequestMatches, UnchangedState, InstalledState;
      status := SyncFailed;
      if s.download.Some? && RequestMatches(s.request, s.download.value) {
        var d := s.download.value;
        var verdict := Validate(d, roots, LoadState(files), LoadBundle(files), s.clock);
        if verdict.Accepted? {
          if IsInstalled(files, d) {
            if s.fate.writes >= 1 {
              MarkNoUpdate(d, verdict.bundle);
              return NoUpdate;
            }
          } else {
            var done := Install(d, verdict.bundle, s.fate.writes);
            if done {
              return Updated;
            }
          }
        }
      }
      if s.fate.survives {
        WriteFailure(FAILED);
      }
    }
  }

  // Runs.

  function SyncedAll(t: Trust, roots: seq<RootKey>, syncs: seq<Sync>): Trust
    decreases |syncs|
  {
    if syncs == [] then t else Synced(SyncedAll(t, roots, syncs[..|syncs| - 1]), roots, syncs[|syncs| - 1])
  }

  /** What the state file says is installed, apart from the last error. */
  predicate SameInstalled(a: TrustState, b: TrustState) {
    a.(lastError := "") == b.(lastError := "")
  }

  predicate NotOlder(a: TrustState, b: TrustState) {
    a.version <= b.version && (!a.sha256.IsBlank() ==> !b.sha256.IsBlank() && (a.version == b.version ==> a.sha256 == b.sha256))
  }

  lemma SyncedState(t: Trust, roots: seq<RootKey>, s: Sync)
    ensures NotOlder(LoadState(t), LoadState(Synced(t, roots, s)))
    ensures !Accepts(t, roots, s) || (s.fate.writes < ALL_WRITES && !IsInstalled(t, s.download.value)) ==>
              SameInstalled(LoadState(t), LoadState(Synced(t, roots, s)))
  {
    if Accepts(t, roots, s) {
      AcceptedMeans(s.download.value, roots, LoadState(t), LoadBundle(t), s.clock);
    }
    hide Acceptable, RequestMatches, IdsWith;
  }

  /** Over any sequence of synchronizations, successful, failed or cut off, the installed version never decreases, and
      while it stays the same its hash does too. */
  lemma {:induction false} TrustIsMonotone(t: Trust, roots: seq<RootKey>, syncs: seq<Sync>, i: nat, j: nat)
    requires i <= j <= |syncs|
    ensures NotOlder(LoadState(SyncedAll(t, roots, syncs[..i])), LoadState(SyncedAll(t, roots, syncs[..j])))
    decreases j
  {
    hide Synced;
    if i < j {
      TrustIsMonotone(t, roots, syncs, i, j - 1);
      assert syncs[..j][..j - 1] == syncs[..j - 1];
      SyncedState(SyncedAll(t, roots, syncs[..j - 1]), roots, syncs[j - 1]);
    }
  }

  /** A synchronization that is not accepted, or not written to the end, leaves what is on record as installed alone; one
      that is not accepted leaves the bundle files alone too. */
  lemma FailureKeepsInstalled(t: Trust, roots: seq<RootKey>, s: Sync)
    ensures !Accepts(t, roots, s) ==>
              var after := Synced(t, roots, s);
              && SameInstalled(LoadState(t), LoadState(after))
              && after.bundle == t.bundle && after.signature == t.signature && after.metadata == t.metadata
    ensures Accepts(t, roots, s) && !IsInstalled(t, s.download.value) && s.fate.writes < ALL_WRITES ==>
              SameInstalled(LoadState(t), LoadState(Synced(t, roots, s)))
  {
    SyncedState(t, roots, s);
    hide Acceptable, RequestMatches, SameInstalled;
  }

  /** A list of ids names a key. */
  predicate Names(ids: seq<string>, keyId: string) {
    exists i :: 0 <= i < |ids| && EqualsIgnoreCase(ids[i], keyId)
  }

  lemma {:induction false} IdsAreListed(keys: seq<TrustKey>, status: string, keyId: string)
    ensures Names(IdsWith(keys, status), keyId) <==> Lists(keys, keyId, status)
  {
    if keys != [] {
      var first, rest := if HasStatus(keys[0], status) then [keys[0].keyId] else [], IdsWith(keys[1..], status);
      IdsAreListed(keys[1..], status, keyId);
      NamesOfJoined(first, rest, keyId);
      ListedFirstOrLater(keys, keyId, status);
      assert Names(first, keyId) <==> EqualsIgnoreCase(keys[0].keyId, keyId) && HasStatus(keys[0], status) by {
        if HasStatus(keys[0], status) {
          assert first[0] == keys[0].keyId;
        }
      }
      hide Names, Lists, EqualsIgnoreCase;
    }
  }

  lemma NamesOfJoined(a: seq<string>, b: seq<string>, keyId: string)
    ensures Names(a + b, keyId) <==> Names(a, keyId) || Names(b, keyId)
  {
    hide EqualsIgnoreCase;
    if i :| 0 <= i < |a| && EqualsIgnoreCase(a[i], keyId) {
      assert (a + b)[i] == a[i];
    }
    if i :| 0 <= i < |b| && EqualsIgnoreCase(b[i], keyId) {
      assert (a + b)[|a| + i] == b[i];
    }
  }

  lemma ListedFirstOrLater(keys: seq<TrustKey>, keyId: string, status: string)
    requires keys != []
    ensures Lists(keys, keyId, status)
            <==> (EqualsIgnoreCase(keys[0].keyId, keyId) && HasStatus(keys[0], status)) || Lists(keys[1..], keyId, status)
  {
    hide EqualsIgnoreCase, HasStatus;
    if i :| 0 <= i < |keys[1..]| && EqualsIgnoreCase(keys[1..][i].keyId, keyId) && HasStatus(keys[1..][i], status) {
      assert keys[i + 1] == keys[1..][i];
    }
    if i :| 0 <= i < |keys| && EqualsIgnoreCase(keys[i].keyId, keyId) && HasStatus(keys[i], status) {
      assert i > 0 ==> keys[1..][i - 1] == keys[i];
    }
  }

  /** A complete installation leaves the three files that came down, and a record of their version, hash and root that
      names as active and as revoked exactly the keys that are so in use. */
  lemma InstallationIsRecorded(t: Trust, roots: seq<RootKey>, s: Sync, keyId: string)
    requires Accepts(t, roots, s) && !IsInstalled(t, s.download.value) && s.fate.writes >= 4
    ensures var d, after := s.download.value, Synced(t, roots, s);
            && after.bundle == Some(d.document) && after.signature == Some(d.signature)
            && after.metadata == Some(d.metadata) && after.state.Some?
            && after.state.value.version == d.metadata.bundleVersion && after.state.value.sha256 == Sha256(d.document)
            && after.state.value.rootKeyId == d.metadata.rootKeyId && after.state.value.lastError == ""
            && (Names(after.state.value.activeKeyIds, keyId) <==> InUse(after, keyId, "active"))
            && (Names(after.state.value.revokedKeyIds, keyId) <==> InUse(after, keyId, "revoked"))
  {
    var d := s.download.value;
    AcceptedExactly(d, roots, LoadState(t), s.clock);
    IdsAreListed(d.document.content.value.keys, "active", keyId);
    IdsAreListed(d.document.content.value.keys, "revoked", keyId);
    hide CheckedDownload, PolicyHolds, RequestMatches, IdsWith, Lists, Names, EqualsIgnoreCase;
  }

  /** Whatever a synchronization installs, even in part, is what was asked for. */
  lemma OnlyWhatWasAskedIsInstalled(t: Trust, roots: seq<RootKey>, s: Sync)
    ensures Synced(t, roots, s).bundle != t.bundle ==>
              && s.download.Some? && Synced(t, roots, s).bundle == Some(s.download.value.document)
              && s.download.value.document.content.Some?
              && (s.request.expectedVersion.Some? ==>
                  s.download.value.document.content.value.version == s.request.expectedVersion.value)
              && (s.request.expectedSha256.Some? ==> Sha256(s.download.value.document) == s.request.expectedSha256.value)
              && (!IsBlank(s.request.expectedRootKeyId) ==>
                  EqualsIgnoreCase(s.download.value.metadata.rootKeyId, s.request.expectedRootKeyId))
  {
    if Accepts(t, roots, s) {
      AcceptedExactly(s.download.value, roots, LoadState(t), s.clock);
    }
    hide CheckedDownload, PolicyHolds, IdsWith, EqualsIgnoreCase;
  }

  // Revocation.

  predicate InUse(t: Trust, keyId: string, status: string) {
    LoadBundle(t).Some? && Lists(LoadBundle(t).value.keys, keyId, status)
  }

  predicate ListsOnce(t: Trust) {
    LoadBundle(t).Some? ==> NoDuplicates(LoadBundle(t).value.keys)
  }

  lemma ListedOnce(keys: seq<TrustKey>, keyId: string)
    requires NoDuplicates(keys) && Lists(keys, keyId, "revoked")
    ensures !Lists(keys, keyId, "active")
  {
    var i :| 0 <= i < |keys| && EqualsIgnoreCase(keys[i].keyId, keyId) && HasStatus(keys[i], "revoked");
    assert Upper("revoked")[0] == 'R' && Upper("active")[0] == 'A';
    forall j | 0 <= j < |keys| && EqualsIgnoreCase(keys[j].keyId, keyId)
      ensures !HasStatus(keys[j], "active")
    {
      assert i == j;
    }
  }

  lemma RevocationBlocks(current: seq<TrustKey>, keys: seq<TrustKey>, keyId: string)
    requires KeepsRevocations(current, keys) && Lists(current, keyId, "revoked")
    ensures !Lists(keys, keyId, "active")
  {
    hide Upper;
    var i :| 0 <= i < |current| && EqualsIgnoreCase(current[i].keyId, keyId) && HasStatus(current[i], "revoked");
    assert !Lists(keys, current[i].keyId, "active");
  }

  lemma SyncKeepsRevocation(t: Trust, roots: seq<RootKey>, s: Sync, keyId: string)
    requires ListsOnce(t)
    ensures ListsOnce(Synced(t, roots, s))
    ensures InUse(t, keyId, "revoked") ==> !InUse(Synced(t, roots, s), keyId, "active")
  {
    if Accepts(t, roots, s) && InUse(t, keyId, "revoked") {
      RevocationBlocks(LoadBundle(t).value.keys, s.download.value.document.content.value.keys, keyId);
    }
    if InUse(t, keyId, "revoked") {
      ListedOnce(LoadBundle(t).value.keys, keyId);
    }
    hide CheckedDownload, RequestMatches, IdsWith, Lists, NoDuplicates, KeepsRevocations, KeyIsProper, HasActiveKey;
  }

  /** While every bundle on the way lists a key as revoked, the key is active at no point. */
  lemma RevokedStaysInactive(t: Trust, roots: seq<RootKey>, syncs: seq<Sync>, keyId: string)
    requires ListsOnce(t)
    requires forall k :: 0 <= k <= |syncs| ==> InUse(SyncedAll(t, roots, syncs[..k]), keyId, "revoked")
    ensures forall k :: 0 <= k <= |syncs| ==> !InUse(SyncedAll(t, roots, syncs[..k]), keyId, "active")
  {
    hide SyncedAll, Lists;
    forall k | 0 <= k <= |syncs|
      ensures !InUse(SyncedAll(t, roots, syncs[..k]), keyId, "active")
    {
      var at := SyncedAll(t, roots, syncs[..k]);
      RunListsOnce(t, roots, syncs[..k]);
      assert InUse(at, keyId, "revoked");
      ListedOnce(LoadBundle(at).value.keys, keyId);
    }
  }

  /** A revoked key that is active at the end of a run went through a gap: up to some point every bundle revoked it, and
      the bundle in use there lists it neither as revoked nor as active. */
  lemma {:induction false} RevocationEndsInAGap(t: Trust, roots: seq<RootKey>, syncs: seq<Sync>, keyId: string)
    requires ListsOnce(t) && InUse(t, keyId, "revoked") && InUse(SyncedAll(t, roots, syncs), keyId, "active")
    ensures exists k ::
              && 0 < k < |syncs|
              && (forall i :: 0 <= i < k ==> InUse(SyncedAll(t, roots, syncs[..i]), keyId, "revoked"))
              && !InUse(SyncedAll(t, roots, syncs[..k]), keyId, "revoked")
              && !InUse(SyncedAll(t, roots, syncs[..k]), keyId, "active")
  {
    hide InUse, Synced, ListsOnce;
    assert syncs[..|syncs|] == syncs;
    RunListsOnce(t, roots, syncs);
    OnlyOneStatus(SyncedAll(t, roots, syncs), keyId);
    var k := FirstUnrevoked(t, roots, syncs, keyId, 0);
    var n := k - 1;
    assert syncs[..k][..n] == syncs[..n] && syncs[..k][n] == syncs[n];
    RunListsOnce(t, roots, syncs[..n]);
    assert InUse(SyncedAll(t, roots, syncs[..n]), keyId, "revoked");
    SyncKeepsRevocation(SyncedAll(t, roots, syncs[..n]), roots, syncs[n], keyId);
  }

  lemma OnlyOneStatus(t: Trust, keyId: string)
    requires ListsOnce(t)
    ensures !(InUse(t, keyId, "revoked") && InUse(t, keyId, "active"))
  {
    if InUse(t, keyId, "revoked") {
      ListedOnce(LoadBundle(t).value.keys, keyId);
    }
  }

  lemma FirstUnrevoked(t: Trust, roots: seq<RootKey>, syncs: seq<Sync>, keyId: string, from: nat) returns (k: nat)
    requires from <= |syncs| && !InUse(SyncedAll(t, roots, syncs), keyId, "revoked")
    requires forall i :: 0 <= i <= from ==> InUse(SyncedAll(t, roots, syncs[..i]), keyId, "revoked")
    ensures from < k <= |syncs| && !InUse(SyncedAll(t, roots, syncs[..k]), keyId, "revoked")
    ensures forall i :: 0 <= i < k ==> InUse(SyncedAll(t, roots, syncs[..i]), keyId, "revoked")
    decreases |syncs| - from
  {
    hide InUse, SyncedAll;
    assert syncs[..|syncs|] == syncs;
    assert from < |syncs|;
    if InUse(SyncedAll(t, roots, syncs[..from + 1]), keyId, "revoked") {
      k := FirstUnrevoked(t, roots, syncs, keyId, from + 1);
    } else {
      k := from + 1;
    }
  }

  lemma {:induction false} RunListsOnce(t: Trust, roots: seq<RootKey>, syncs: seq<Sync>)
    requires ListsOnce(t)
    ensures ListsOnce(SyncedAll(t, roots, syncs))
    decreases |syncs|
  {
    hide Synced, ListsOnce;
    if syncs != [] {
      var n := |syncs| - 1;
      RunListsOnce(t, roots, syncs[..n]);
      SyncKeepsRevocation(SyncedAll(t, roots, syncs[..n]), roots, syncs[n], "");
    }
  }

  // When a revoked key comes back.

  predicate IsActiveKey(k: TrustKey) {
    KeyIsProper(k) && HasStatus(k, "active")
  }

  /** A key alone may follow a bundle that does not revoke it. */
  lemma KeyAloneIsAllowed(key: TrustKey, current: Option<Bundle>)
    requires IsActiveKey(key)
    requires current.Some? ==> !Lists(current.value.keys, key.keyId, "revoked")
    ensures PolicyHolds([key], current) && Lists([key], key.keyId, "active")
  {
    hide KeyIsProper, Upper;
    assert HasStatus([key][0], "active");
    if current.Some? {
      var revoked := current.value.keys;
      forall i | 0 <= i < |revoked| && HasStatus(revoked[i], "revoked")
        ensures !Lists([key], revoked[i].keyId, "active")
      {
      }
    }
  }

  /** The policy allows some bundle with a key active exactly when the bundle now in use does not revoke it. */
  lemma KeyMayBecomeActive(key: TrustKey, current: Bundle)
    requires IsActiveKey(key)
    ensures (exists keys :: PolicyHolds(keys, Some(current)) && Lists(keys, key.keyId, "active"))
            <==> !Lists(current.keys, key.keyId, "revoked")
  {
    hide KeyIsProper, NoDuplicates, HasActiveKey;
    if !Lists(current.keys, key.keyId, "revoked") {
      KeyAloneIsAllowed(key, Some(current));
    } else {
      forall keys | PolicyHolds(keys, Some(current))
        ensures !Lists(keys, key.keyId, "active")
      {
        RevocationBlocks(current.keys, keys, key.keyId);
      }
    }
  }

  predicate IsUsable(roots: seq<RootKey>, root: RootKey) {
    FindRoot(roots, root.keyId) == Some(root) && !root.revoked && EqualsIgnoreCase(root.algorithm, ALGORITHM)
  }

  /** A bundle of these keys, of the next version, signed with a root key. */
  function NextSync(t: Trust, root: RootKey, keys: seq<TrustKey>, clock: int): Sync {
    var version := if LoadState(t).version > 0 then LoadState(t).version + 1 else 1;
    var document := Document([], Some(Bundle(1, version, None, None, keys)));
    Sync(Request("", None, None),
         Some(Download(document, Signed(root.publicKey, document),
                       Metadata(1, version, Sha256(document), true, root.keyId, 0))),
         clock, Fate(ALL_WRITES, true))
  }

  /** Such a bundle is installed exactly when the policy allows its keys. */
  lemma NextSyncInstalls(t: Trust, roots: seq<RootKey>, root: RootKey, keys: seq<TrustKey>, clock: int)
    requires IsUsable(roots, root)
    ensures var s := NextSync(t, root, keys, clock);
            && (Accepts(t, roots, s) <==> PolicyHolds(keys, LoadBundle(t)))
            && (PolicyHolds(keys, LoadBundle(t)) ==>
                && LoadBundle(Synced(t, roots, s)).Some? && LoadBundle(Synced(t, roots, s)).value.keys == keys
                && LoadState(Synced(t, roots, s)).version > LoadState(t).version)
  {
    hide PolicyHolds, IdsWith, FindRoot;
  }

  /** With a usable root, one synchronization can leave a key active exactly when the bundle in use does not revoke it. */
  lemma KeyCanBeActiveNext(t: Trust, roots: seq<RootKey>, root: RootKey, key: TrustKey)
    requires IsUsable(roots, root) && ListsOnce(t) && IsActiveKey(key)
    ensures (exists s :: InUse(Synced(t, roots, s), key.keyId, "active")) <==> !InUse(t, key.keyId, "revoked")
  {
    if InUse(t, key.keyId, "revoked") {
      forall s
        ensures !InUse(Synced(t, roots, s), key.keyId, "active")
      {
        SyncKeepsRevocation(t, roots, s, key.keyId);
      }
    } else {
      KeyAloneIsAllowed(key, LoadBundle(t));
      NextSyncInstalls(t, roots, root, [key], 0);
      hide Synced, NextSync, PolicyHolds, Lists;
      assert InUse(Synced(t, roots, NextSync(t, root, [key], 0)), key.keyId, "active");
    }
  }

  /** The keys of three bundles: with another key active, one key is revoked, left out, and active. */
  function RevivalKeys(other: TrustKey, key: TrustKey): seq<seq<TrustKey>> {
    [[other, key.(status := "revoked")], [other], [other, key.(status := "active")]]
  }

  lemma RevivalIsAllowed(other: TrustKey, key: TrustKey, current: Option<Bundle>, step: nat)
    requires IsActiveKey(other) && KeyIsProper(key) && !EqualsIgnoreCase(other.keyId, key.keyId) && step < 3
    requires step == 0 ==> current.Some? ==> !Lists(current.value.keys, other.keyId, "revoked")
    requires step > 0 ==> current.Some? && current.value.keys == RevivalKeys(other, key)[step - 1]
    ensures PolicyHolds(RevivalKeys(other, key)[step], current)
  {
    var keys := RevivalKeys(other, key)[step];
    assert Upper("revoked")[0] == 'R' && Upper("active")[0] == 'A';
    assert Upper(other.status)[0] == 'A';
    hide Upper, IsBlank;
    assert HasStatus(keys[0], "active") && !HasStatus(other, "revoked");
    assert step == 0 ==> !HasStatus(keys[1], "active");
    if current.Some? {
      forall i | 0 <= i < |current.value.keys| && HasStatus(current.value.keys[i], "revoked")
        ensures !Lists(keys, current.value.keys[i].keyId, "active")
      {
      }
    }
  }

  lemma RevivalStatuses(other: TrustKey, key: TrustKey)
    requires !EqualsIgnoreCase(other.keyId, key.keyId)
    ensures Lists(RevivalKeys(other, key)[0], key.keyId, "revoked")
    ensures !Lists(RevivalKeys(other, key)[1], key.keyId, "revoked") && !Lists(RevivalKeys(other, key)[1], key.keyId, "active")
    ensures Lists(RevivalKeys(other, key)[2], key.keyId, "active")
  {
    hide Upper;
    assert HasStatus(RevivalKeys(other, key)[0][1], "revoked") && HasStatus(RevivalKeys(other, key)[2][1], "active");
  }

  /** Three synchronizations with rising versions, all installed: the first revokes a key, the second leaves it out, and
      after the third it is active in use. */
  lemma DroppedKeyComesBack(t: Trust, roots: seq<RootKey>, root: RootKey, other: TrustKey, key: TrustKey, clock: int)
    returns (s1: Sync, s2: Sync, s3: Sync)
    requires IsUsable(roots, root) && IsActiveKey(other) && KeyIsProper(key) && !EqualsIgnoreCase(other.keyId, key.keyId)
    requires !InUse(t, other.keyId, "revoked")
    ensures var t1 := Synced(t, roots, s1);
            var t2 := Synced(t1, roots, s2);
            var t3 := Synced(t2, roots, s3);
            && SyncedAll(t, roots, [s1, s2, s3]) == t3
            && Accepts(t, roots, s1) && Accepts(t1, roots, s2) && Accepts(t2, roots, s3)
            && LoadState(t).version < LoadState(t1).version < LoadState(t2).version < LoadState(t3).version
            && InUse(t1, key.keyId, "revoked") && !InUse(t2, key.keyId, "revoked") && InUse(t3, key.keyId, "active")
  {
    RevivalStatuses(other, key);
    var keys := RevivalKeys(other, key);
    hide Synced, NextSync, PolicyHolds, Lists, Accepts, IsUsable, RevivalKeys, KeyIsProper, HasStatus, EqualsIgnoreCase;
    s1 := NextSync(t, root, keys[0], clock);
    RevivalIsAllowed(other, key, LoadBundle(t), 0);
    NextSyncInstalls(t, roots, root, keys[0], clock);
    var t1 := Synced(t, roots, s1);
    s2 := NextSync(t1, root, keys[1], clock);
    RevivalIsAllowed(other, key, LoadBundle(t1), 1);
    NextSyncInstalls(t1, roots, root, keys[1], clock);
    var t2 := Synced(t1, roots, s2);
    s3 := NextSync(t2, root, keys[2], clock);
    RevivalIsAllowed(other, key, LoadBundle(t2), 2);
    NextSyncInstalls(t2, roots, root, keys[2], clock);
    ThreeSyncs(t, roots, s1, s2, s3);
  }

  lemma ThreeSyncs(t: Trust, roots: seq<RootKey>, s1: Sync, s2: Sync, s3: Sync)
    ensures SyncedAll(t, roots, [s1, s2, s3]) == Synced(Synced(Synced(t, roots, s1), roots, s2), roots, s3)
  {
    hide Synced;
    assert [s1, s2, s3][..2] == [s1, s2] && [s1, s2][..1] == [s1] && [s1][..0] == [];
    assert SyncedAll(t, roots, []) == t;
    assert SyncedAll(t, roots, [s1]) == Synced(t, roots, s1);
    assert SyncedAll(t, roots, [s1, s2]) == Synced(SyncedAll(t, roots, [s1]), roots, s2);
  }

  // Crashes.

  predicate StillValid(b: Bundle, clock: int) {
    (b.validFrom.Some? ==> b.validFrom.value <= clock) && (b.validUntil.Some? ==> b.validUntil.value > clock)
  }

  lemma SelfKeepsRevocations(keys: seq<TrustKey>)
    requires NoDuplicates(keys)
    ensures KeepsRevocations(keys, keys)
  {
    forall i | 0 <= i < |keys| && HasStatus(keys[i], "revoked")
      ensures !Lists(keys, keys[i].keyId, "active")
    {
      ListedOnce(keys, keys[i].keyId);
    }
  }

  /** An installation cut off between its writes is repaired by synchronizing the same bundle again while it is valid: the
      files end up exactly as if nothing had happened. */
  lemma CrashIsRepaired(t: Trust, roots: seq<RootKey>, s: Sync, later: int)
    requires Accepts(t, roots, s) && !IsInstalled(t, s.download.value) && s.fate.writes < ALL_WRITES
    requires StillValid(s.download.value.document.content.value, later)
    ensures var cut := Synced(t, roots, s);
            var again := s.(clock := later, fate := Fate(ALL_WRITES, true));
            && Accepts(cut, roots, again)
            && Synced(cut, roots, again) == Synced(t, roots, s.(fate := Fate(ALL_WRITES, true)))
  {
    var cut := Synced(t, roots, s);
    var d := s.download.value;
    RecheckedLater(d, roots, LoadState(t), LoadState(cut), s.clock, later);
    SelfKeepsRevocations(d.document.content.value.keys);
    hide CheckedDownload, RequestMatches, IdsWith, Lists, NoDuplicates, KeepsRevocations, KeyIsProper, HasActiveKey;
  }

  lemma RecheckedLater(d: Download, roots: seq<RootKey>, state: TrustState, same: TrustState, clock: int, later: int)
    requires CheckedDownload(d, roots, state, clock).Accepted? && d.document.content.Some?
    requires state.version == same.version && state.sha256 == same.sha256
    requires StillValid(d.document.content.value, later)
    ensures CheckedDownload(d, roots, same, later).Accepted?
  {
  }

  function FileVersion(t: Trust): int {
    if LoadBundle(t).Some? then LoadBundle(t).value.version else 0
  }

  /** The bundle file in use is the one on record. */
  predicate Agrees(t: Trust) {
    && t.state.Some? && t.bundle.Some? && LoadBundle(t).Some?
    && t.state.value.version == FileVersion(t) && t.state.value.sha256 == Sha256(t.bundle.value)
  }

  /** Versions are compared with the record, not with the file: a synchronization takes the bundle file back exactly when
      it installs a bundle older than the file, which takes a file that is ahead of the record. */
  lemma FileGoesBack(t: Trust, roots: seq<RootKey>, s: Sync)
    ensures FileVersion(Synced(t, roots, s)) < FileVersion(t)
            <==> Accepts(t, roots, s) && !IsInstalled(t, s.download.value) && s.fate.writes >= 1
                 && s.download.value.document.content.value.version < FileVersion(t)
    ensures FileVersion(Synced(t, roots, s)) < FileVersion(t) ==> LoadState(t).version < FileVersion(t)
  {
    if Accepts(t, roots, s) {
      AcceptedMeans(s.download.value, roots, LoadState(t), LoadBundle(t), s.clock);
    }
    hide Acceptable, RequestMatches, IdsWith;
  }

  /** While the record and the file agree and no installation is cut off, they keep agreeing, and the file never goes
      back. */
  lemma AgreementIsKept(t: Trust, roots: seq<RootKey>, s: Sync)
    requires Agrees(t)
    requires Accepts(t, roots, s) && !IsInstalled(t, s.download.value) ==> s.fate.writes == 0 || s.fate.writes >= ALL_WRITES
    ensures Agrees(Synced(t, roots, s)) && FileVersion(t) <= FileVersion(Synced(t, roots, s))
  {
    FileGoesBack(t, roots, s);
    if Accepts(t, roots, s) {
      AcceptedMeans(s.download.value, roots, LoadState(t), LoadBundle(t), s.clock);
    }
    hide Acceptable, RequestMatches, IdsWith;
  }

  /** How it comes to that: an installation cut off after its first write leaves the file ahead of the record, and a bundle
      between the two is then accepted over it. */
  lemma CutInstallationLetsFileGoBack(t: Trust, roots: seq<RootKey>, cut: Sync, next: Sync)
    requires Agrees(t) && Accepts(t, roots, cut) && cut.fate == Fate(1, false)
    requires LoadState(t).version < cut.download.value.document.content.value.version
    requires next.download.Some? && RequestMatches(next.request, next.download.value) && next.fate.writes >= ALL_WRITES
    requires next.download.value.document.content.Some?
    requires CheckedDownload(next.download.value, roots, LoadState(t), next.clock).Accepted?
    requires PolicyHolds(next.download.value.document.content.value.keys, cut.download.value.document.content)
    requires LoadState(t).version < next.download.value.document.content.value.version
             < cut.download.value.document.content.value.version
    ensures var ahead := Synced(t, roots, cut);
            && FileVersion(t) < FileVersion(ahead)
            && FileVersion(Synced(ahead, roots, next)) == next.download.value.document.content.value.version
            && FileVersion(Synced(ahead, roots, next)) < FileVersion(ahead)
  {
    hide CheckedDownload, PolicyHolds, RequestMatches, IdsWith;
  }
}
