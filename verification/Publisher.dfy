/** The publication tree: immutable configurations and SDK assets, mutable pointers and an
    append-merging manifest, written by publishers that share one lock but read outside it. */
module Publisher {
  import opened Wrappers
  import Slugs

  /** The storage key of a container; it depends on the folded id only. */
  datatype Key = Key(org: string, folded: string)

  datatype Path =
    | ConfigPath(key: Key, version: string)
    | ConfigShaPath(key: Key, version: string)
    | SdkPath(sdk: string)
    | SdkShaPath(sdk: string)
    | LatestPath(key: Key, slug: string)
    | LatestShaPath(key: Key, slug: string)
    | ManifestPath(key: Key, slug: string)

  /** A digest over everything else in a configuration. */
  datatype Digest =
    Digest(containerId: string, environment: string, version: string, number: nat, publishedAt: string, body: string)

  /** A configuration carries the name of the environment it was built for. */
  datatype Config = Config(containerId: string, environment: string, version: string, number: nat, publishedAt: string,
                           body: string, digest: Digest)

  /** The SHA-256 of a file; distinct files have distinct ones. */
  datatype Sha = Sha(of: File)

  datatype Entry = Entry(version: string, number: nat, configVersion: string, sha: Sha, digest: Digest,
                         publishedAt: string)

  datatype Pointer = Pointer(environment: string, version: string, number: nat, sha: Sha, digest: Digest, sdk: string,
                             sdkSha: Sha, publishedAt: string)

  datatype File =
    | ConfigFile(config: Config)
    | AssetFile(text: string)
    | ShaFile(sha: Sha)
    | LatestFile(pointer: Pointer)
    | ManifestFile(environment: string, current: string, revisions: seq<Entry>)
    | OtherFile(text: string)

  type Tree = map<Path, File>

  function Seal(c: Config): Digest {
    Digest(c.containerId, c.environment, c.version, c.number, c.publishedAt, c.body)
  }

  /** `verify_published_config`. */
  predicate Intact(c: Config) { c.digest == Seal(c) }

  /** One call of `publish_environment`: the container's own id, the configuration just built
      for the environment's active revision, and the publisher's SDK. */
  datatype Attempt = Attempt(key: Key, containerId: string, built: Config, sdk: string, asset: Option<string>) {
    function Name(): string { built.environment }

    function Slug(): string { Slugs.Slug(Name()) }
  }

  predicate Proper(a: Attempt) { Intact(a.built) && a.built.version != "" }

  datatype Outcome = Published | NoSlug | WrongIdentity | Unreadable | AssetMissing | Conflicting(path: Path)

  datatype Reading = Reading(config: Config) | Rejected(outcome: Outcome)

  /** The first look, outside the lock: a configuration already published for this revision
      is reused instead of the one just built. */
  function Identified(tree: Tree, a: Attempt): Reading {
    var path := ConfigPath(a.key, a.built.version);
    if path !in tree then Reading(a.built)
    else if !tree[path].ConfigFile? then Rejected(Unreadable)
    else
      var existing := tree[path].config;
      if existing.containerId != a.containerId || existing.version != a.built.version then Rejected(WrongIdentity)
      else if !Intact(existing) then Rejected(Unreadable)
      else Reading(existing)
  }

  /** The second look, still outside the lock: the bytes to write. */
  function BytesAt(tree: Tree, a: Attempt, config: Config): File {
    var path := ConfigPath(a.key, a.built.version);
    if path in tree then tree[path] else ConfigFile(config)
  }

  datatype Write = Write(path: Path, file: File)

  /** `_write_immutable` over a list of files: stops at the first one that exists with other
      contents, leaving those before it. */
  function WriteAll(tree: Tree, writes: seq<Write>): (Tree, Option<Path>)
    decreases |writes|
  {
    if writes == [] then (tree, None)
    else
      var w := writes[0];
      if w.path in tree then if tree[w.path] == w.file then WriteAll(tree, writes[1..]) else (tree, Some(w.path))
      else WriteAll(tree[w.path := w.file], writes[1..])
  }

  function ImmutableWrites(a: Attempt, asset: string, bytes: File): seq<Write> {
    var version := a.built.version;
    [Write(ConfigPath(a.key, version), bytes), Write(ConfigShaPath(a.key, version), ShaFile(Sha(bytes))),
     Write(SdkPath(a.sdk), AssetFile(asset)), Write(SdkShaPath(a.sdk), ShaFile(Sha(AssetFile(asset))))]
  }

  /** A dictionary by version, in insertion order: a known version keeps its place. */
  function Put(entries: seq<Entry>, e: Entry): seq<Entry> {
    if entries == [] then [e]
    else if entries[0].version == e.version then [e] + entries[1..]
    else [entries[0]] + Put(entries[1..], e)
  }

  function ByVersion(entries: seq<Entry>): seq<Entry> {
    if entries == [] then []
    else
      var front, last := ByVersion(entries[..|entries| - 1]), entries[|entries| - 1];
      if last.version == "" then front else Put(front, last)
  }

  function InsertByNumber(e: Entry, sorted: seq<Entry>): seq<Entry> {
    if sorted == [] || sorted[0].number <= e.number then [e] + sorted
    else [sorted[0]] + InsertByNumber(e, sorted[1..])
  }

  /** The stable sort by descending revision number. */
  function SortByNumber(entries: seq<Entry>): seq<Entry> {
    if entries == [] then [] else InsertByNumber(entries[0], SortByNumber(entries[1..]))
  }

  function NewEntry(config: Config, bytes: File): Entry {
    Entry(config.version, config.number, config.version, Sha(bytes), config.digest, config.publishedAt)
  }

  function OldEntries(tree: Tree, key: Key, slug: string): seq<Entry> {
    var path := ManifestPath(key, slug);
    if path in tree && tree[path].ManifestFile? then tree[path].revisions else []
  }

  /** `_build_manifest`. */
  function Manifest(tree: Tree, a: Attempt, config: Config, bytes: File): File {
    ManifestFile(config.environment, config.version,
                 SortByNumber(Put(ByVersion(OldEntries(tree, a.key, a.Slug())), NewEntry(config, bytes))))
  }

  function NewPointer(a: Attempt, asset: string, config: Config, bytes: File): File {
    LatestFile(Pointer(config.environment, config.version, config.number, Sha(bytes), config.digest, a.sdk,
                       Sha(AssetFile(asset)), config.publishedAt))
  }

  /** What happens under the lock. */
  function Committed(tree: Tree, a: Attempt, asset: string, config: Config, bytes: File): (Tree, Outcome) {
    var (written, conflict) := WriteAll(tree, ImmutableWrites(a, asset, bytes));
    if conflict.Some? then (written, Conflicting(conflict.value))
    else
      var pointer := NewPointer(a, asset, config, bytes);
      (written[LatestPath(a.key, a.Slug()) := pointer][LatestShaPath(a.key, a.Slug()) := ShaFile(Sha(pointer))]
         [ManifestPath(a.key, a.Slug()) := Manifest(written, a, config, bytes)], Published)
  }

  /** A whole attempt: the two looks see the trees `first` and `second`, the lock is taken
      on `now`. */
  function Attempted(first: Tree, second: Tree, now: Tree, a: Attempt): (Tree, Outcome) {
    if a.Slug() == "" then (now, NoSlug)
    else
      match Identified(first, a)
      case Rejected(outcome) => (now, outcome)
      case Reading(config) =>
        if a.asset.None? then (now, AssetMissing)
        else Committed(now, a, a.asset.value, config, BytesAt(second, a, config))
  }

  datatype Problem =
    | NoContainers | InvalidManifest | MissingConfig | ShaMismatch | IntegrityFailure | IdentityMismatch
    | InvalidPointer | PointerMismatch

  datatype Issue = Issue(path: Option<Path>, problem: Problem)

  predicate UnderContainers(p: Path) { !p.SdkPath? && !p.SdkShaPath? }

  predicate HasContainers(tree: Tree) {
    exists p | p in tree :: UnderContainers(p)
  }

  /** What `verify` finds wrong with one revision of a manifest. */
  function EntryIssue(tree: Tree, key: Key, e: Entry): Option<Issue> {
    var path := ConfigPath(key, e.configVersion);
    if path !in tree then Some(Issue(Some(path), MissingConfig))
    else if Sha(tree[path]) != e.sha then Some(Issue(Some(path), ShaMismatch))
    else if !tree[path].ConfigFile? || !Intact(tree[path].config) then Some(Issue(Some(path), IntegrityFailure))
    else if tree[path].config.version != e.version then Some(Issue(Some(path), IdentityMismatch))
    else None
  }

  function PointerIssue(tree: Tree, key: Key, slug: string, current: string): Option<Issue> {
    var path := LatestPath(key, slug);
    if path !in tree then None
    else if !tree[path].LatestFile? then Some(Issue(Some(path), InvalidPointer))
    else if tree[path].pointer.version != current then Some(Issue(Some(path), PointerMismatch))
    else None
  }

  ghost predicate IssueAt(tree: Tree, key: Key, slug: string, issue: Issue) {
    var path := ManifestPath(key, slug);
    && path in tree
    && if !tree[path].ManifestFile? then issue == Issue(Some(path), InvalidManifest)
       else
         || (exists i | 0 <= i < |tree[path].revisions| ::
           EntryIssue(tree, key, tree[path].revisions[i]) == Some(issue))
         || PointerIssue(tree, key, slug, tree[path].current) == Some(issue)
  }

  /** Everything `verify` reports. */
  ghost predicate Reported(tree: Tree, issue: Issue) {
    if !HasContainers(tree) then issue == Issue(None, NoContainers)
    else exists key, slug :: IssueAt(tree, key, slug, issue)
  }

  /** How long a path may be cached: for ever, or not at all. */
  datatype Cache = Immutable | Revalidated

  /** `_update_headers`: what a publication adds to the cache policy. */
  function HeadersAfter(headers: map<Path, Cache>, a: Attempt, version: string): map<Path, Cache> {
    headers[SdkPath(a.sdk) := Immutable][ConfigPath(a.key, version) := Immutable]
           [LatestPath(a.key, a.Slug()) := Revalidated][ManifestPath(a.key, a.Slug()) := Revalidated]
  }

  /** `_build_index`: the pointers of all environments. */
  function IndexOf(tree: Tree): map<Path, Pointer> {
    map p | p in tree && p.LatestPath? && tree[p].LatestFile? :: tree[p].pointer
  }

  class FilesystemCDN {
    const sdk: string
    const asset: Option<string>
    var tree: Tree
    var headers: map<Path, Cache>
    var index: map<Path, Pointer>

    constructor (sdk: string, asset: Option<string>)
      ensures tree == map[] && headers == map[] && index == map[] && this.sdk == sdk && this.asset == asset
    {
      this.sdk, this.asset := sdk, asset;
      tree, headers, index := map[], map[], map[];
    }

    method WriteImmutable(path: Path, file: File) returns (ok: bool)
      modifies this`tree
      ensures ok <==> path !in old(tree) || old(tree)[path] == file
      ensures tree == if path in old(tree) then old(tree) else old(tree)[path := file]
    {
      if path in tree { return tree[path] == file; }
      tree := tree[path := file];
      return true;
    }

    /** The locked part of `publish_environment`, file by file. */
    method Commit(a: Attempt, asset: string, config: Config, bytes: File) returns (outcome: Outcome)
      modifies this
      ensures (tree, outcome) == Committed(old(tree), a, asset, config, bytes)
      ensures headers == if outcome.Published? then HeadersAfter(old(headers), a, config.version) else old(headers)
      ensures index == if outcome.Published? then IndexOf(tree) else old(index)
    {
      var writes := ImmutableWrites(a, asset, bytes);
      ghost var before := tree;
      hide Put, ByVersion, SortByNumber;
      for i := 0 to |writes|
        invariant WriteAll(before, writes) == WriteAll(tree, writes[i..])
        invariant headers == old(headers) && index == old(index)
      {
        ghost var rest := writes[i..];
        assert rest[0] == writes[i] && rest[1..] == writes[i + 1..];
        var ok := WriteImmutable(writes[i].path, writes[i].file);
        if !ok { return Conflicting(writes[i].path); }
      }
      assert writes[|writes|..] == [];
      var pointer := NewPointer(a, asset, config, bytes);
      var manifest := Manifest(tree, a, config, bytes);
      assert OldEntries(tree[LatestPath(a.key, a.Slug()) := pointer]
                            [LatestShaPath(a.key, a.Slug()) := ShaFile(Sha(pointer))], a.key, a.Slug())
          == OldEntries(tree, a.key, a.Slug());
      tree := tree[LatestPath(a.key, a.Slug()) := pointer];
      tree := tree[LatestShaPath(a.key, a.Slug()) := ShaFile(Sha(pointer))];
      tree := tree[ManifestPath(a.key, a.Slug()) := Manifest(tree, a, config, bytes)];
      headers := HeadersAfter(headers, a, config.version);
      index := IndexOf(tree);
      return Published;
    }

    /** `verify`: an independent reading of the tree. */
    method Verify() returns (issues: seq<Issue>)
      ensures forall issue :: issue in issues <==> Reported(tree, issue)
    {
      if !HasContainers(tree) { return [Issue(None, NoContainers)]; }
      issues := [];
      var rest := set p | p in tree && p.ManifestPath?;
      while rest != {}
        invariant rest <= tree.Keys && forall p | p in rest :: p.ManifestPath?
        invariant forall issue :: issue in issues <==> ReportedExcept(tree, rest, issue)
        decreases rest
      {
        var p :| p in rest;
        var found := VerifyManifest(p.key, p.slug);
        ReportedMore(tree, rest, p);
        issues := issues + found;
        rest := rest - {p};
      }
      AllReported(tree);
    }

    method VerifyManifest(key: Key, slug: string) returns (issues: seq<Issue>)
      requires ManifestPath(key, slug) in tree
      ensures forall issue :: issue in issues <==> IssueAt(tree, key, slug, issue)
    {
      var file := tree[ManifestPath(key, slug)];
      if !file.ManifestFile? { return [Issue(Some(ManifestPath(key, slug)), InvalidManifest)]; }
      issues := [];
      hide EntryIssue, PointerIssue;
      for i := 0 to |file.revisions|
        invariant forall issue ::
          issue in issues <==> exists j | 0 <= j < i :: EntryIssue(tree, key, file.revisions[j]) == Some(issue)
      {
        var found := EntryIssue(tree, key, file.revisions[i]);
        if found.Some? { issues := issues + [found.value]; }
      }
      var found := PointerIssue(tree, key, slug, file.current);
      if found.Some? { issues := issues + [found.value]; }
    }
  }

  /** The issues of the manifests not in `rest`. */
  ghost predicate ReportedExcept(tree: Tree, rest: set<Path>, issue: Issue) {
    exists key, slug :: ManifestPath(key, slug) !in rest && IssueAt(tree, key, slug, issue)
  }

  lemma ReportedMore(tree: Tree, rest: set<Path>, p: Path)
    requires p in rest && p.ManifestPath?
    ensures forall issue :: ReportedExcept(tree, rest - {p}, issue) <==>
      ReportedExcept(tree, rest, issue) || IssueAt(tree, p.key, p.slug, issue)
  {
    hide IssueAt;
    assert p == ManifestPath(p.key, p.slug);
    forall issue
      ensures ReportedExcept(tree, rest - {p}, issue) <==>
        ReportedExcept(tree, rest, issue) || IssueAt(tree, p.key, p.slug, issue)
    {
      if IssueAt(tree, p.key, p.slug, issue) { assert ManifestPath(p.key, p.slug) !in rest - {p}; }
      if ReportedExcept(tree, rest, issue) {
        var key, slug :| ManifestPath(key, slug) !in rest && IssueAt(tree, key, slug, issue);
        assert ManifestPath(key, slug) !in rest - {p};
      }
    }
  }

  lemma AllReported(tree: Tree)
    requires HasContainers(tree)
    ensures forall issue :: ReportedExcept(tree, {}, issue) <==> Reported(tree, issue)
  {
    hide IssueAt, HasContainers;
  }
}
