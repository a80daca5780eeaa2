/**
  Exporting approved context and judging the export
  (internal/providerexport/plan.go, export.go, manifest.go and
  internal/providercontext/reduce.go).

  `Plan` selects from a tree listing, `Export` reads and scans what was
  selected, and `Reduce` judges the result on its own.  `ExportPassesReduce`
  says that whatever `Export` produces passes the reducer's path checks, and its
  redaction check exactly when the generator and the redaction policy are
  registered.
 */
module ProviderExport {
  import opened Options
  import opened ProviderPolicy
  import opened Sequences

  const GENERATOR_ID: string := "workspace_export@1"
  const REDACTION_ID: string := "builtin:secret_deny@1"
  const REDUCER_ID: string := "provider_context_boundary@1"
  const MAX_PATIENCE_SECONDS: int := 2_592_000

  datatype Policy = Policy(
    workItem: bool, provider: string, allowed: seq<string>, denied: seq<string>, redaction: string,
    tools: seq<string>, launch: LaunchMode, reducer: string, patience: int)

  datatype LaunchMode = ExportProxy | Worktree | Direct | UnknownMode(name: string)

  datatype Mode = Blob | BlobExec | Symlink | Gitlink | OtherMode

  /** One entry of a tree listing; utf8 says whether its path is valid text. */
  datatype TreeEntry = TreeEntry(path: string, mode: Mode, utf8: bool)

  datatype OmitReason = DeniedPath | SymlinkPath | Submodule | NonUtf8Path | UnsupportedMode

  datatype Omitted = Omitted(path: string, reason: OmitReason)

  /** What the library decides: globs with classes, and content scanning. */
  datatype Library = Library(glob: (string, string) -> bool, scan: (string, string) -> bool)

  // -------------------------------------------------------------------- plan

  predicate Clean(entries: seq<string>) {
    forall i :: 0 <= i < |entries| ==> CleanEntry(entries[i])
  }

  predicate CoversSecrets(denied: seq<string>) {
    forall i :: 0 <= i < |SECRETS| ==> Covers(denied, SECRETS[i])
  }

  /** The checks that `validatePolicy` and `Plan` make before they touch the tree. */
  predicate Hygienic(p: Policy) {
    p.allowed != [] && Clean(p.allowed) && Clean(p.denied) && CoversSecrets(p.denied)
  }

  /** What becomes of one listed path. */
  datatype Fate = Ignored | Left(reason: OmitReason) | Included

  function FateOf(lib: Library, p: Policy, e: TreeEntry): (f: Fate) {
    if !MatchesAny(lib.glob, e.path, p.allowed) then Ignored
    else if MatchesAnyDeny(lib.glob, e.path, p.denied) then Left(DeniedPath)
    else if e.mode.Symlink? then Left(SymlinkPath)
    else if e.mode.Gitlink? then Left(Submodule)
    else if !e.utf8 then Left(NonUtf8Path)
    else if e.mode.Blob? || e.mode.BlobExec? then Included
    else Left(UnsupportedMode)
  }

  function Selected(lib: Library, p: Policy, tree: seq<TreeEntry>): (s: seq<TreeEntry>) {
    if tree == [] then []
    else
      var last := tree[|tree| - 1];
      var before := Selected(lib, p, tree[..|tree| - 1]);
      if FateOf(lib, p, last).Included? then before + [last] else before
  }

  function LeftOut(lib: Library, p: Policy, tree: seq<TreeEntry>): (s: seq<Omitted>) {
    if tree == [] then []
    else
      var last := tree[|tree| - 1];
      var before := LeftOut(lib, p, tree[..|tree| - 1]);
      var fate := FateOf(lib, p, last);
      if fate.Left? then before + [Omitted(last.path, fate.reason)] else before
  }

  /** `Plan`: one pass over the listing, keeping its order. */
  method Plan(lib: Library, p: Policy, tree: seq<TreeEntry>) returns (ok: bool, included: seq<TreeEntry>, omitted: seq<Omitted>)
    ensures ok <==> Hygienic(p)
    ensures ok ==> included == Selected(lib, p, tree) && omitted == LeftOut(lib, p, tree)
    ensures !ok ==> included == [] && omitted == []
  {
    included, omitted := [], [];
    ok := Hygienic(p);
    if !ok {
      return;
    }
    for i := 0 to |tree|
      invariant included == Selected(lib, p, tree[..i]) && omitted == LeftOut(lib, p, tree[..i])
    {
      assert tree[..i + 1][..i] == tree[..i];
      match FateOf(lib, p, tree[i])
      case Ignored =>
      case Left(reason) => omitted := omitted + [Omitted(tree[i].path, reason)];
      case Included => included := included + [tree[i]];
    }
    assert tree[..|tree|] == tree;
  }

  /** Every selected path is allowed, not denied, and a regular file with a text path. */
  lemma {:induction false} SelectedAllowed(lib: Library, p: Policy, tree: seq<TreeEntry>)
    ensures forall i :: 0 <= i < |Selected(lib, p, tree)| ==>
              Selected(lib, p, tree)[i] in tree && FateOf(lib, p, Selected(lib, p, tree)[i]).Included?
  {
    if tree != [] {
      var front := tree[..|tree| - 1];
      SelectedAllowed(lib, p, front);
      assert forall e :: e in front ==> e in tree;
    }
  }

  ghost predicate Allows(lib: Library, p: Policy, path: string) {
    exists entry :: entry in p.allowed && Matches(lib.glob, path, entry)
  }

  ghost predicate Denies(lib: Library, p: Policy, path: string) {
    exists entry :: entry in p.denied && MatchesDeny(lib.glob, path, entry)
  }

  lemma AllowsIff(lib: Library, p: Policy, path: string)
    ensures MatchesAny(lib.glob, path, p.allowed) <==> Allows(lib, p, path)
    ensures MatchesAnyDeny(lib.glob, path, p.denied) <==> Denies(lib, p, path)
  {
    if i :| 0 <= i < |p.allowed| && Matches(lib.glob, path, p.allowed[i]) {
      assert p.allowed[i] in p.allowed;
    }
    if i :| 0 <= i < |p.denied| && MatchesDeny(lib.glob, path, p.denied[i]) {
      assert p.denied[i] in p.denied;
    }
  }

  /** What is exported of an allowed path: a regular file with a text path that nothing denies. */
  ghost predicate Exportable(lib: Library, p: Policy, e: TreeEntry) {
    Allows(lib, p, e.path) && !Denies(lib, p, e.path) && e.utf8 && e.mode in {Blob, BlobExec}
  }

  /** Why an allowed path is left out: a denial first, then what the entry is. */
  ghost predicate OmittedFor(lib: Library, p: Policy, e: TreeEntry, why: OmitReason) {
    && Allows(lib, p, e.path)
    && (why == DeniedPath <==> Denies(lib, p, e.path))
    && (why == SymlinkPath ==> e.mode == Symlink)
    && (why == Submodule ==> e.mode == Gitlink)
    && (why == NonUtf8Path ==> !e.utf8 && e.mode !in {Symlink, Gitlink})
    && (why == UnsupportedMode ==> e.utf8 && e.mode == OtherMode)
  }

  /** The plan takes the entries one by one: each is kept, left out for its reason, or not allowed at all. */
  lemma OneMoreEntry(lib: Library, p: Policy, tree: seq<TreeEntry>, e: TreeEntry)
    ensures Selected(lib, p, []) == [] && LeftOut(lib, p, []) == []
    ensures Selected(lib, p, tree + [e]) == Selected(lib, p, tree) + (if Exportable(lib, p, e) then [e] else [])
    ensures !Allows(lib, p, e.path) || Exportable(lib, p, e) ==> LeftOut(lib, p, tree + [e]) == LeftOut(lib, p, tree)
    ensures Allows(lib, p, e.path) && !Exportable(lib, p, e) ==>
              exists why :: OmittedFor(lib, p, e, why) && LeftOut(lib, p, tree + [e]) == LeftOut(lib, p, tree) + [Omitted(e.path, why)]
  {
    AllowsIff(lib, p, e.path);
    assert (tree + [e])[..|tree|] == tree;
    var fate := FateOf(lib, p, e);
    if fate.Left? {
      assert OmittedFor(lib, p, e, fate.reason);
    }
  }

  ghost predicate AllClean(entries: seq<string>) {
    forall entry :: entry in entries ==> CleanEntry(entry)
  }

  ghost predicate ListsSecrets(denied: seq<string>) {
    && ".meristem/" in denied && ".env" in denied && ".env.*" in denied
    && "*.env" in denied && "*.env.*" in denied && "*.token" in denied
  }

  lemma CleanIff(entries: seq<string>)
    ensures Clean(entries) <==> AllClean(entries)
  {
    if Clean(entries) {
      forall entry | entry in entries ensures CleanEntry(entry) {
        var i :| 0 <= i < |entries| && entries[i] == entry;
      }
    }
  }

  lemma SecretsIff(denied: seq<string>)
    ensures CoversSecrets(denied) <==> ListsSecrets(denied)
  {
    SecretsListed();
    if CoversSecrets(denied) {
      forall b | b in SECRETS ensures b in denied {
        var i :| 0 <= i < |SECRETS| && SECRETS[i] == b;
        CoveredIsListed(denied, b);
      }
    }
    if ListsSecrets(denied) {
      forall i | 0 <= i < |SECRETS| ensures Covers(denied, SECRETS[i]) {
        SecretsAre(SECRETS[i]);
        var k :| 0 <= k < |denied| && denied[k] == SECRETS[i];
      }
    }
  }

  /** A policy is hygienic when it allows something, is clean throughout, and lists every built-in secret. */
  lemma HygienicIff(p: Policy)
    ensures Hygienic(p) <==> p.allowed != [] && AllClean(p.allowed) && AllClean(p.denied) && ListsSecrets(p.denied)
  {
    CleanIff(p.allowed);
    CleanIff(p.denied);
    SecretsIff(p.denied);
  }

  // ------------------------------------------------------------------ export

  /** One exported file, by its content. */
  datatype File = File(path: string, mode: Mode, content: string, redactionPassed: bool)

  datatype ManifestEntry = ManifestEntry(path: string, redactionPassed: bool)

  datatype Generated = Generated(generator: string, pathCount: int)

  datatype Bundle = Bundle(files: seq<File>, omitted: seq<Omitted>, generated: Generated, entries: seq<ManifestEntry>, redaction: string)

  datatype ExportError = PolicyRefused | RedactionMismatch | ReadFailed | ScanFailed(path: string)

  datatype Result = Exported(bundle: Bundle) | Failed(error: ExportError)

  function Entries(files: seq<File>): (es: seq<ManifestEntry>)
    ensures |es| == |files|
    ensures forall i :: 0 <= i < |files| ==> es[i] == ManifestEntry(files[i].path, files[i].redactionPassed)
  {
    if files == [] then [] else [ManifestEntry(files[0].path, files[0].redactionPassed)] + Entries(files[1..])
  }

  /** `BuildManifest`, without digests. */
  function Assemble(files: seq<File>, omitted: seq<Omitted>): (b: Bundle) {
    Bundle(files, omitted, Generated(GENERATOR_ID, |files|), Entries(files), REDACTION_ID)
  }

  /** The files are the selected entries with what was read for them, all of it scanned. */
  predicate FilesOf(lib: Library, blobs: string -> Option<string>, planned: seq<TreeEntry>, files: seq<File>) {
    && |files| == |planned|
    && forall i :: 0 <= i < |files| ==>
         && blobs(planned[i].path).Some?
         && files[i] == File(planned[i].path, planned[i].mode, blobs(planned[i].path).value, true)
         && lib.scan(planned[i].path, files[i].content)
  }

  /** The paths read are a prefix of the selected ones. */
  predicate ReadsPlanned(planned: seq<TreeEntry>, fetched: seq<string>) {
    |fetched| <= |planned| && forall i :: 0 <= i < |fetched| ==> fetched[i] == planned[i].path
  }

  /** The blob cannot be read, or its content trips a rule. */
  predicate Unfit(lib: Library, blobs: string -> Option<string>, path: string) {
    blobs(path).None? || !lib.scan(path, blobs(path).value)
  }

  predicate AllFit(lib: Library, blobs: string -> Option<string>, planned: seq<TreeEntry>) {
    forall i :: 0 <= i < |planned| ==> !Unfit(lib, blobs, planned[i].path)
  }

  function Complaint(lib: Library, blobs: string -> Option<string>, path: string): (e: ExportError) {
    if blobs(path).None? then ReadFailed else ScanFailed(path)
  }

  /** Steps 5 and 6 of `Export`: read, scan, then keep; the first failure aborts everything. */
  method ReadAndScan(lib: Library, planned: seq<TreeEntry>, blobs: string -> Option<string>)
    returns (error: Option<ExportError>, files: seq<File>, fetched: seq<string>)
    ensures ReadsPlanned(planned, fetched)
    ensures error.None? ==> FilesOf(lib, blobs, planned, files)
    ensures error.None? <==> AllFit(lib, blobs, planned)
    ensures error.Some? ==> fetched != [] && error.value == Complaint(lib, blobs, fetched[|fetched| - 1])
                            && AllFit(lib, blobs, planned[..|fetched| - 1])
    ensures error.None? ==> |fetched| == |planned|
  {
    files, fetched, error := [], [], None;
    for i := 0 to |planned|
      invariant |fetched| == i && ReadsPlanned(planned, fetched)
      invariant AllFit(lib, blobs, planned[..i]) && FilesOf(lib, blobs, planned[..i], files)
    {
      fetched := fetched + [planned[i].path];
      var blob := blobs(planned[i].path);
      if blob.None? {
        assert Unfit(lib, blobs, planned[i].path);
        return Some(ReadFailed), [], fetched;
      }
      if !lib.scan(planned[i].path, blob.value) {
        assert Unfit(lib, blobs, planned[i].path);
        return Some(ScanFailed(planned[i].path)), [], fetched;
      }
      files := files + [File(planned[i].path, planned[i].mode, blob.value, true)];
    }
    assert planned[..|planned|] == planned;
  }

  /** `Export`, given the sorted listing of the resolved commit and what reading a blob yields. */
  method Export(lib: Library, p: Policy, tree: seq<TreeEntry>, blobs: string -> Option<string>)
    returns (r: Result, fetched: seq<string>)
    ensures ReadsPlanned(Selected(lib, p, tree), fetched)
    ensures r.Exported? <==> Hygienic(p) && p.redaction == REDACTION_ID && AllFit(lib, blobs, Selected(lib, p, tree))
    ensures r.Exported? ==>
              && |fetched| == |Selected(lib, p, tree)|
              && FilesOf(lib, blobs, Selected(lib, p, tree), r.bundle.files)
              && r.bundle == Assemble(r.bundle.files, LeftOut(lib, p, tree))
    ensures Hygienic(p) && p.redaction == REDACTION_ID && r.Failed? ==>
              && fetched != [] && r.error == Complaint(lib, blobs, fetched[|fetched| - 1])
              && AllFit(lib, blobs, Selected(lib, p, tree)[..|fetched| - 1])
    ensures !Hygienic(p) ==> r == Failed(PolicyRefused) && fetched == []
    ensures Hygienic(p) && p.redaction != REDACTION_ID ==> r == Failed(RedactionMismatch) && fetched == []
  {
    if !Hygienic(p) {
      return Failed(PolicyRefused), [];
    }
    if p.redaction != REDACTION_ID {
      return Failed(RedactionMismatch), [];
    }
    var ok, planned, omitted := Plan(lib, p, tree);
    var error, files;
    error, files, fetched := ReadAndScan(lib, planned, blobs);
    r := if error.Some? then Failed(error.value) else Exported(Assemble(files, omitted));
  }

  /** Whatever the outcome, no denied path is ever read. */
  lemma NoDeniedRead(lib: Library, p: Policy, tree: seq<TreeEntry>, fetched: seq<string>, i: nat)
    requires ReadsPlanned(Selected(lib, p, tree), fetched) && i < |fetched|
    ensures MatchesAny(lib.glob, fetched[i], p.allowed) && !MatchesAnyDeny(lib.glob, fetched[i], p.denied)
  {
    SelectedAllowed(lib, p, tree);
    assert FateOf(lib, p, Selected(lib, p, tree)[i]).Included?;
  }

  /** No path that is read or exported has a secret segment at any depth. */
  lemma NoSecretRead(lib: Library, p: Policy, tree: seq<TreeEntry>, fetched: seq<string>, i: nat, k: nat)
    requires Hygienic(p) && ReadsPlanned(Selected(lib, p, tree), fetched) && i < |fetched| && k < |Segments(fetched[i])|
    ensures !SecretSegment(Segments(fetched[i])[k])
  {
    NoDeniedRead(lib, p, tree, fetched, i);
    if SecretSegment(Segments(fetched[i])[k]) {
      forall b | b in SECRETS ensures Covers(p.denied, b) {
        var j :| 0 <= j < |SECRETS| && SECRETS[j] == b;
      }
      SecretsDenied(lib.glob, fetched[i], p.denied, k);
    }
  }

  // ----------------------------------------------------------------- reducer

  datatype Review = Blocked | WavedThrough | Approved

  /** The facts the reducer is given. */
  datatype Facts = Facts(
    policy: Policy, generated: Generated, manifest: seq<ManifestEntry>, appliedRedaction: string,
    found: bool, terminal: bool, review: Review,
    generators: map<string, seq<string>>, knownRedactions: seq<string>, grantableTools: seq<string>)

  datatype Check = Anchor | PathHygiene | DenySuperset | ManifestPaths | Redaction | Tools | Launch | Identity

  datatype Verdict = Accept | Reject(check: Check) | Escalate(check: Check)

  predicate HygieneOk(p: Policy) {
    p.allowed != [] && Clean(p.allowed) && Clean(p.denied)
  }

  predicate ManifestOk(lib: Library, p: Policy, entries: seq<ManifestEntry>) {
    forall i :: 0 <= i < |entries| ==>
      !MatchesAnyDeny(lib.glob, entries[i].path, p.denied) && MatchesAny(lib.glob, entries[i].path, p.allowed)
  }

  predicate Registered(f: Facts) {
    && f.policy.provider in f.generators && f.generated.generator in f.generators[f.policy.provider]
    && f.policy.redaction in f.knownRedactions
  }

  predicate RedactionOk(f: Facts) {
    && Registered(f)
    && f.appliedRedaction == f.policy.redaction
    && (forall i :: 0 <= i < |f.manifest| ==> f.manifest[i].redactionPassed)
    && f.generated.pathCount == |f.manifest|
  }

  /** `Reduce`: the eight checks, in order. */
  function Reduce(lib: Library, f: Facts): (v: Verdict) {
    if !f.found || f.terminal then Reject(Anchor)
    else if f.review.Blocked? then Escalate(Anchor)
    else if !HygieneOk(f.policy) then Reject(PathHygiene)
    else if !CoversSecrets(f.policy.denied) then Reject(DenySuperset)
    else if !ManifestOk(lib, f.policy, f.manifest) then Reject(ManifestPaths)
    else if !RedactionOk(f) then Reject(Redaction)
    else if exists i :: 0 <= i < |f.policy.tools| && f.policy.tools[i] !in f.grantableTools then Reject(Tools)
    else if f.policy.launch.UnknownMode? then Reject(Launch)
    else if f.policy.launch.Direct? && !f.review.Approved? then Escalate(Launch)
    else if f.policy.reducer != REDUCER_ID || f.policy.patience <= 0 || f.policy.patience > MAX_PATIENCE_SECONDS || !f.policy.workItem
    then Reject(Identity)
    else Accept
  }

  /** The verdict names one of these checks. */
  predicate FailsAt(v: Verdict, check: Check) {
    !v.Accept? && v.check == check
  }

  /** The facts judge the given bundle under the given policy. */
  predicate Judges(f: Facts, p: Policy, b: Bundle) {
    f.policy == p && f.generated == b.generated && f.manifest == b.entries && f.appliedRedaction == b.redaction
  }

  lemma ExportedManifestOk(lib: Library, p: Policy, tree: seq<TreeEntry>, blobs: string -> Option<string>, files: seq<File>)
    requires FilesOf(lib, blobs, Selected(lib, p, tree), files)
    ensures ManifestOk(lib, p, Entries(files))
  {
    SelectedAllowed(lib, p, tree);
    forall i | 0 <= i < |files|
      ensures !MatchesAnyDeny(lib.glob, files[i].path, p.denied) && MatchesAny(lib.glob, files[i].path, p.allowed)
    {
      assert FateOf(lib, p, Selected(lib, p, tree)[i]).Included?;
    }
  }

  lemma ExportedRedaction(lib: Library, planned: seq<TreeEntry>, blobs: string -> Option<string>, files: seq<File>, f: Facts)
    requires FilesOf(lib, blobs, planned, files)
    requires f.manifest == Entries(files) && f.generated.pathCount == |files| && f.appliedRedaction == f.policy.redaction
    ensures RedactionOk(f) <==> Registered(f)
  {
  }

  /** Where the reducer stops when the path checks hold. */
  lemma ReduceStops(lib: Library, f: Facts)
    requires HygieneOk(f.policy) && CoversSecrets(f.policy.denied) && ManifestOk(lib, f.policy, f.manifest)
    ensures var v := Reduce(lib, f);
            && !FailsAt(v, PathHygiene) && !FailsAt(v, DenySuperset) && !FailsAt(v, ManifestPaths)
            && (!FailsAt(v, Anchor) ==> (FailsAt(v, Redaction) <==> !RedactionOk(f)))
  {
  }

  /**
    Whatever `Export` produced, and whatever else the reducer knows: it never
    fails the path checks, and once the anchor is open it fails the redaction
    check exactly when the generator or the redaction policy is not registered.
   */
  lemma ExportPassesReduce(lib: Library, p: Policy, tree: seq<TreeEntry>, blobs: string -> Option<string>, b: Bundle, f: Facts)
    requires Hygienic(p) && p.redaction == REDACTION_ID
    requires FilesOf(lib, blobs, Selected(lib, p, tree), b.files) && b == Assemble(b.files, LeftOut(lib, p, tree))
    requires Judges(f, p, b)
    ensures var v := Reduce(lib, f);
            && !FailsAt(v, PathHygiene) && !FailsAt(v, DenySuperset) && !FailsAt(v, ManifestPaths)
            && (!FailsAt(v, Anchor) ==> (FailsAt(v, Redaction) <==> !Registered(f)))
  {
    ExportedManifestOk(lib, p, tree, blobs, b.files);
    ExportedRedaction(lib, Selected(lib, p, tree), blobs, b.files, f);
    ReduceStops(lib, f);
  }

  /** The checks, in the order they are made. */
  const CHECKS: seq<Check> := [Anchor, PathHygiene, DenySuperset, ManifestPaths, Redaction, Tools, Launch, Identity]

  /** What stands against an export, check by check. */
  ghost predicate Against(lib: Library, f: Facts, check: Check) {
    var p := f.policy;
    match check
    case Anchor => !f.found || f.terminal || f.review == Blocked
    case PathHygiene => p.allowed == [] || !Clean(p.allowed) || !Clean(p.denied)
    case DenySuperset => !CoversSecrets(p.denied)
    case ManifestPaths => exists entry :: entry in f.manifest && (Denies(lib, p, entry.path) || !Allows(lib, p, entry.path))
    case Redaction =>
      || p.provider !in f.generators || f.generated.generator !in f.generators[p.provider] || p.redaction !in f.knownRedactions
      || f.appliedRedaction != p.redaction || (exists entry :: entry in f.manifest && !entry.redactionPassed)
      || f.generated.pathCount != |f.manifest|
    case Tools => exists tool :: tool in p.tools && tool !in f.grantableTools
    case Launch => p.launch.UnknownMode? || (p.launch == Direct && f.review != Approved)
    case Identity => p.reducer != "provider_context_boundary@1" || !(0 < p.patience <= 30 * 24 * 60 * 60) || !p.workItem
  }

  /** What is open to a human goes to one: a review that blocks, and a direct launch nobody approved. */
  ghost predicate ForHumans(f: Facts, check: Check) {
    (check == Anchor && f.found && !f.terminal) || (check == Launch && f.policy.launch == Direct)
  }

  lemma ManifestIff(lib: Library, f: Facts)
    ensures ManifestOk(lib, f.policy, f.manifest) <==> !Against(lib, f, ManifestPaths)
  {
    forall i | 0 <= i < |f.manifest|
      ensures MatchesAnyDeny(lib.glob, f.manifest[i].path, f.policy.denied) <==> Denies(lib, f.policy, f.manifest[i].path)
      ensures MatchesAny(lib.glob, f.manifest[i].path, f.policy.allowed) <==> Allows(lib, f.policy, f.manifest[i].path)
    {
      AllowsIff(lib, f.policy, f.manifest[i].path);
    }
    if !ManifestOk(lib, f.policy, f.manifest) {
      var i :| 0 <= i < |f.manifest| && (Denies(lib, f.policy, f.manifest[i].path) || !Allows(lib, f.policy, f.manifest[i].path));
      assert f.manifest[i] in f.manifest;
    }
    if Against(lib, f, ManifestPaths) {
      var entry :| entry in f.manifest && (Denies(lib, f.policy, entry.path) || !Allows(lib, f.policy, entry.path));
      var i :| 0 <= i < |f.manifest| && f.manifest[i] == entry;
    }
  }

  lemma RedactionIff(lib: Library, f: Facts)
    ensures RedactionOk(f) <==> !Against(lib, f, Redaction)
  {
    if i :| 0 <= i < |f.manifest| && !f.manifest[i].redactionPassed {
      assert f.manifest[i] in f.manifest;
    }
    if entry :| entry in f.manifest && !entry.redactionPassed {
      var i :| 0 <= i < |f.manifest| && f.manifest[i] == entry;
    }
  }

  lemma ToolsIff(lib: Library, f: Facts)
    ensures (exists i :: 0 <= i < |f.policy.tools| && f.policy.tools[i] !in f.grantableTools) <==> Against(lib, f, Tools)
  {
    if i :| 0 <= i < |f.policy.tools| && f.policy.tools[i] !in f.grantableTools {
      assert f.policy.tools[i] in f.policy.tools;
    }
  }

  /** The first of the flags from the n-th on that is up, or how many there are. */
  function FirstUp(flags: seq<bool>, n: nat): (k: nat)
    requires n <= |flags|
    ensures n <= k <= |flags| && (k < |flags| ==> flags[k])
    ensures forall i :: n <= i < k ==> !flags[i]
    decreases |flags| - n
  {
    if n == |flags| || flags[n] then n else FirstUp(flags, n + 1)
  }

  /** Which checks have something against the export. */
  ghost function Flags(lib: Library, f: Facts): (flags: seq<bool>)
    ensures |flags| == |CHECKS|
  {
    seq(|CHECKS|, i requires 0 <= i < |CHECKS| => Against(lib, f, CHECKS[i]))
  }

  lemma FlagsAre(lib: Library, f: Facts)
    ensures Flags(lib, f)
            == [Against(lib, f, Anchor), Against(lib, f, PathHygiene), Against(lib, f, DenySuperset), Against(lib, f, ManifestPaths),
                Against(lib, f, Redaction), Against(lib, f, Tools), Against(lib, f, Launch), Against(lib, f, Identity)]
  {
  }

  lemma FirstOfEight(a: bool, b: bool, c: bool, d: bool, e: bool, f: bool, g: bool, h: bool)
    ensures FirstUp([a, b, c, d, e, f, g, h], 0)
            == if a then 0 else if b then 1 else if c then 2 else if d then 3 else if e then 4 else if f then 5
               else if g then 6 else if h then 7 else 8
  {
    var flags := [a, b, c, d, e, f, g, h];
    assert FirstUp(flags, 7) == if h then 7 else 8;
    assert FirstUp(flags, 6) == if g then 6 else FirstUp(flags, 7);
    assert FirstUp(flags, 5) == if f then 5 else FirstUp(flags, 6);
    assert FirstUp(flags, 4) == if e then 4 else FirstUp(flags, 5);
    assert FirstUp(flags, 3) == if d then 3 else FirstUp(flags, 4);
    assert FirstUp(flags, 2) == if c then 2 else FirstUp(flags, 3);
    assert FirstUp(flags, 1) == if b then 1 else FirstUp(flags, 2);
  }

  /** The verdict a first failing check calls for. */
  ghost function VerdictAt(f: Facts, k: nat): (v: Verdict)
    requires k <= |CHECKS|
  {
    if k == |CHECKS| then Accept else if ForHumans(f, CHECKS[k]) then Escalate(CHECKS[k]) else Reject(CHECKS[k])
  }

  lemma VerdictsAre(f: Facts)
    ensures VerdictAt(f, 0) == (if f.found && !f.terminal then Escalate(Anchor) else Reject(Anchor))
    ensures VerdictAt(f, 1) == Reject(PathHygiene) && VerdictAt(f, 2) == Reject(DenySuperset)
    ensures VerdictAt(f, 3) == Reject(ManifestPaths) && VerdictAt(f, 4) == Reject(Redaction) && VerdictAt(f, 5) == Reject(Tools)
    ensures VerdictAt(f, 6) == (if f.policy.launch == Direct then Escalate(Launch) else Reject(Launch))
    ensures VerdictAt(f, 7) == Reject(Identity) && VerdictAt(f, 8) == Accept
  {
    assert CHECKS[0] == Anchor && CHECKS[1] == PathHygiene && CHECKS[2] == DenySuperset && CHECKS[3] == ManifestPaths;
    assert CHECKS[4] == Redaction && CHECKS[5] == Tools && CHECKS[6] == Launch && CHECKS[7] == Identity;
  }

  /** The reducer's own conditions, check by check. */
  lemma ChecksAre(lib: Library, f: Facts)
    ensures Reduce(lib, f)
            == if Against(lib, f, Anchor) then (if f.found && !f.terminal then Escalate(Anchor) else Reject(Anchor))
               else if Against(lib, f, PathHygiene) then Reject(PathHygiene)
               else if Against(lib, f, DenySuperset) then Reject(DenySuperset)
               else if Against(lib, f, ManifestPaths) then Reject(ManifestPaths)
               else if Against(lib, f, Redaction) then Reject(Redaction)
               else if Against(lib, f, Tools) then Reject(Tools)
               else if Against(lib, f, Launch) then (if f.policy.launch == Direct then Escalate(Launch) else Reject(Launch))
               else if Against(lib, f, Identity) then Reject(Identity)
               else Accept
  {
    ManifestIff(lib, f);
    RedactionIff(lib, f);
    ToolsIff(lib, f);
  }

  /**
    The eight checks are made in order; the first with something against the
    export decides, by rejecting it unless the matter is for humans, and without
    any the export is accepted.
   */
  lemma ReduceIs(lib: Library, f: Facts)
    ensures Reduce(lib, f) == VerdictAt(f, FirstUp(Flags(lib, f), 0))
  {
    FlagsAre(lib, f);
    FirstOfEight(Against(lib, f, Anchor), Against(lib, f, PathHygiene), Against(lib, f, DenySuperset),
                 Against(lib, f, ManifestPaths), Against(lib, f, Redaction), Against(lib, f, Tools),
                 Against(lib, f, Launch), Against(lib, f, Identity));
    VerdictsAre(f);
    ChecksAre(lib, f);
  }

  // ----------------------------------------------------------- bundle digest

  /** What the digest sees of a file. */
  datatype Stamp = Stamp(path: string, mode: string, sum: string)

  const NUL: char := 0 as char

  /** `path NUL mode NUL sum LF`. */
  function Line(s: Stamp): (t: string) {
    s.path + [NUL] + (s.mode + [NUL] + (s.sum + "\n"))
  }

  /** The bytes `ComputeBundleDigest` hashes, for files in path order. */
  function Framed(stamps: seq<Stamp>): (t: string) {
    if stamps == [] then "" else Line(stamps[0]) + Framed(stamps[1..])
  }

  /** Paths and modes without NUL, sums without a line break. */
  predicate Frameable(s: Stamp) {
    Free(s.path, NUL) && Free(s.mode, NUL) && Free(s.sum, '\n')
  }

  lemma LineThen(s: Stamp, rest: string)
    ensures Line(s) + rest == s.path + [NUL] + (s.mode + [NUL] + (s.sum + "\n" + rest))
  {
    Assoc(s.path + [NUL], s.mode + [NUL] + (s.sum + "\n"), rest);
    Assoc(s.mode + [NUL], s.sum + "\n", rest);
  }

  /** Two bundles hash the same bytes only when they hold the same paths, modes and content sums in the same order. */
  lemma {:induction false} FramedInjective(a: seq<Stamp>, b: seq<Stamp>)
    requires (forall i :: 0 <= i < |a| ==> Frameable(a[i])) && (forall i :: 0 <= i < |b| ==> Frameable(b[i]))
    requires Framed(a) == Framed(b)
    ensures a == b
    decreases |a|
  {
    if a != [] && b != [] {
      var x, y := Framed(a[1..]), Framed(b[1..]);
      LineThen(a[0], x);
      LineThen(b[0], y);
      Apart(a[0].path, a[0].mode + [NUL] + (a[0].sum + "\n" + x), b[0].path, b[0].mode + [NUL] + (b[0].sum + "\n" + y), NUL);
      Apart(a[0].mode, a[0].sum + "\n" + x, b[0].mode, b[0].sum + "\n" + y, NUL);
      Apart(a[0].sum, x, b[0].sum, y, '\n');
      FramedInjective(a[1..], b[1..]);
      HeadTail(a);
      HeadTail(b);
    }
  }
}
