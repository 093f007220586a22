/** Any number of publishers interleaved at the lock, their unlocked looks as old as they
    like: what the tree then always satisfies. */
module PublisherRuns {
  import opened Wrappers
  import opened Publisher
  import opened Slugs

  ghost predicate ConfigsOk(tree: Tree) {
    forall key, v | ConfigPath(key, v) in tree ::
      tree[ConfigPath(key, v)].ConfigFile? && Intact(tree[ConfigPath(key, v)].config)
        && tree[ConfigPath(key, v)].config.version == v
  }

  ghost predicate ShasOk(tree: Tree) {
    && (forall key, v | ConfigShaPath(key, v) in tree ::
          ConfigPath(key, v) in tree && tree[ConfigShaPath(key, v)] == ShaFile(Sha(tree[ConfigPath(key, v)])))
    && (forall sdk | SdkShaPath(sdk) in tree ::
          SdkPath(sdk) in tree && tree[SdkShaPath(sdk)] == ShaFile(Sha(tree[SdkPath(sdk)])))
  }

  /** The entry describes a stored configuration, byte for byte. */
  predicate EntryOk(tree: Tree, key: Key, e: Entry) {
    && e.version != "" && e.configVersion == e.version
    && ConfigPath(key, e.version) in tree && Sha(tree[ConfigPath(key, e.version)]) == e.sha
  }

  predicate Distinct(entries: seq<Entry>) {
    forall i, j | 0 <= i < j < |entries| :: entries[i].version != entries[j].version
  }

  function Versions(entries: seq<Entry>): set<string> {
    set i | 0 <= i < |entries| :: entries[i].version
  }

  /** The highest number comes first. */
  predicate Descending(entries: seq<Entry>) {
    forall i, j | 0 <= i < j < |entries| :: entries[i].number >= entries[j].number
  }

  ghost predicate ManifestOk(tree: Tree, key: Key, slug: string, file: File) {
    && file.ManifestFile? && Distinct(file.revisions) && Descending(file.revisions)
    && file.current in Versions(file.revisions)
    && (forall i | 0 <= i < |file.revisions| :: EntryOk(tree, key, file.revisions[i]))
  }

  /** The pointer under a slug names its manifest's current version. */
  ghost predicate PointerOk(tree: Tree, key: Key, slug: string) {
    && LatestPath(key, slug) in tree && tree[LatestPath(key, slug)].LatestFile?
    && ManifestPath(key, slug) in tree && tree[ManifestPath(key, slug)].ManifestFile?
    && tree[LatestPath(key, slug)].pointer.version == tree[ManifestPath(key, slug)].current
  }

  ghost predicate EnvironmentsOk(tree: Tree) {
    && (forall key, slug | ManifestPath(key, slug) in tree ::
           ManifestOk(tree, key, slug, tree[ManifestPath(key, slug)]))
    && (forall key, slug | ManifestPath(key, slug) in tree :: PointerOk(tree, key, slug))
  }

  ghost predicate TreeOk(tree: Tree) {
    ConfigsOk(tree) && ShasOk(tree) && EnvironmentsOk(tree)
  }

  /** Nothing is rewritten except pointers and manifests. */
  predicate Fixed(p: Path) { !p.LatestPath? && !p.LatestShaPath? && !p.ManifestPath? }

  ghost predicate Keeps(tree: Tree, tree': Tree) {
    forall p | p in tree && Fixed(p) :: p in tree' && tree'[p] == tree[p]
  }

  /** The bytes an attempt writes: a sealed configuration of the revision it publishes. */
  predicate GoodBytes(a: Attempt, bytes: File) {
    bytes.ConfigFile? && Intact(bytes.config) && bytes.config.version == a.built.version
  }

  /** What the immutable writes keep, wherever they stop. */
  ghost predicate Grown(tree: Tree, written: Tree) {
    && ConfigsOk(written) && ShasOk(written)
    && (forall p | p in tree :: p in written && written[p] == tree[p])
    && (forall p | p in written && p !in tree :: Fixed(p))
  }

  function Added(tree: Tree, w: Write): Tree {
    if w.path in tree then tree else tree[w.path := w.file]
  }

  predicate Clashes(tree: Tree, w: Write) { w.path in tree && tree[w.path] != w.file }

  lemma OneWrite(tree: Tree, writes: seq<Write>, w: Write)
    requires writes != [] && writes[0] == w
    ensures WriteAll(tree, writes) ==
      if Clashes(tree, w) then (tree, Some(w.path)) else WriteAll(Added(tree, w), writes[1..])
  {
  }

  lemma ConfigAdded(tree: Tree, written: Tree, a: Attempt, bytes: File)
    requires Grown(tree, written) && GoodBytes(a, bytes)
    ensures Grown(tree, Added(written, Write(ConfigPath(a.key, a.built.version), bytes)))
  {
  }

  lemma ConfigShaAdded(tree: Tree, written: Tree, a: Attempt, bytes: File)
    requires Grown(tree, written) && ConfigPath(a.key, a.built.version) in written
    requires written[ConfigPath(a.key, a.built.version)] == bytes
    ensures Grown(tree, Added(written, Write(ConfigShaPath(a.key, a.built.version), ShaFile(Sha(bytes)))))
  {
  }

  lemma SdkAdded(tree: Tree, written: Tree, a: Attempt, asset: string)
    requires Grown(tree, written)
    ensures Grown(tree, Added(written, Write(SdkPath(a.sdk), AssetFile(asset))))
  {
  }

  lemma SdkShaAdded(tree: Tree, written: Tree, a: Attempt, asset: string)
    requires Grown(tree, written) && SdkPath(a.sdk) in written && written[SdkPath(a.sdk)] == AssetFile(asset)
    ensures Grown(tree, Added(written, Write(SdkShaPath(a.sdk), ShaFile(Sha(AssetFile(asset))))))
  {
  }

  /** The immutable writes keep the tree in order; they conflict exactly when the
      configuration or the SDK asset is stored with other contents. */
  lemma ImmutableWritesGrow(tree: Tree, a: Attempt, asset: string, bytes: File)
    requires ConfigsOk(tree) && ShasOk(tree) && GoodBytes(a, bytes)
    ensures var (written, conflict) := WriteAll(tree, ImmutableWrites(a, asset, bytes));
      && Grown(tree, written) && ConfigPath(a.key, a.built.version) in written
      && (conflict.None? <==>
            && !Clashes(tree, Write(ConfigPath(a.key, a.built.version), bytes))
            && !Clashes(tree, Write(SdkPath(a.sdk), AssetFile(asset))))
      && (conflict.None? ==> written[ConfigPath(a.key, a.built.version)] == bytes)
  {
    var version, ws := a.built.version, ImmutableWrites(a, asset, bytes);
    hide ConfigsOk, ShasOk, Grown, WriteAll;
    NothingGrown(tree);
    OneWrite(tree, ws, ws[0]);
    if !Clashes(tree, ws[0]) {
      var one := Added(tree, ws[0]);
      ConfigAdded(tree, tree, a, bytes);
      OneWrite(one, ws[1..], ws[1]);
      ShaNeverClashes(tree, one, a, bytes);
      var two := Added(one, ws[1]);
      ConfigShaAdded(tree, one, a, bytes);
      OneWrite(two, ws[1..][1..], ws[2]);
      if !Clashes(two, ws[2]) {
        var three := Added(two, ws[2]);
        SdkAdded(tree, two, a, asset);
        OneWrite(three, ws[1..][1..][1..], ws[3]);
        SdkShaNeverClashes(tree, three, a, asset);
        SdkShaAdded(tree, three, a, asset);
        AllWritten(Added(three, ws[3]), ws[1..][1..][1..][1..]);
      }
    }
  }

  lemma AllWritten(tree: Tree, writes: seq<Write>)
    requires writes == []
    ensures WriteAll(tree, writes) == (tree, None)
  {
  }

  lemma NothingGrown(tree: Tree)
    requires ConfigsOk(tree) && ShasOk(tree)
    ensures Grown(tree, tree)
  {
    hide ConfigsOk, ShasOk;
  }

  lemma ShaNeverClashes(tree: Tree, one: Tree, a: Attempt, bytes: File)
    requires ConfigsOk(tree) && ShasOk(tree) && !Clashes(tree, Write(ConfigPath(a.key, a.built.version), bytes))
    requires one == Added(tree, Write(ConfigPath(a.key, a.built.version), bytes))
    ensures !Clashes(one, Write(ConfigShaPath(a.key, a.built.version), ShaFile(Sha(bytes))))
  {
  }

  lemma SdkShaNeverClashes(tree: Tree, three: Tree, a: Attempt, asset: string)
    requires Grown(tree, three) && SdkPath(a.sdk) in three && three[SdkPath(a.sdk)] == AssetFile(asset)
    ensures !Clashes(three, Write(SdkShaPath(a.sdk), ShaFile(Sha(AssetFile(asset)))))
  {
  }

  lemma {:induction false} PutVersions(entries: seq<Entry>, e: Entry)
    ensures forall x :: x in Put(entries, e) ==> x == e || x in entries
    ensures e in Put(entries, e)
    ensures forall x :: x in entries ==> exists y :: y in Put(entries, e) && y.version == x.version
  {
    if entries != [] {
      if entries[0].version != e.version { PutVersions(entries[1..], e); }
      assert entries == [entries[0]] + entries[1..];
    }
  }

  lemma {:induction false} PutDistinct(entries: seq<Entry>, e: Entry)
    requires Distinct(entries)
    ensures Distinct(Put(entries, e))
  {
    if entries != [] && entries[0].version != e.version {
      PutVersions(entries[1..], e);
      PutDistinct(entries[1..], e);
      var rest := Put(entries[1..], e);
      forall j | 0 <= j < |rest|
        ensures rest[j].version != entries[0].version
      {
        assert rest[j] in rest;
        if rest[j] != e {
          var i :| 0 <= i < |entries[1..]| && entries[1..][i] == rest[j];
          assert entries[i + 1] == rest[j];
        }
      }
    }
  }

  lemma {:induction false} PutNew(entries: seq<Entry>, e: Entry)
    requires forall i | 0 <= i < |entries| :: entries[i].version != e.version
    ensures Put(entries, e) == entries + [e]
  {
    if entries != [] {
      PutNew(entries[1..], e);
      assert entries == [entries[0]] + entries[1..];
    }
  }

  /** A manifest written by a publisher is read back entry by entry. */
  lemma {:induction false} DictOfDistinct(entries: seq<Entry>)
    requires Distinct(entries) && forall i | 0 <= i < |entries| :: entries[i].version != ""
    ensures ByVersion(entries) == entries
  {
    if entries != [] {
      var front, last := entries[..|entries| - 1], entries[|entries| - 1];
      DictOfDistinct(front);
      PutNew(front, last);
      assert entries == front + [last];
    }
  }

  lemma {:induction false} InsertPermutes(e: Entry, sorted: seq<Entry>)
    ensures multiset(InsertByNumber(e, sorted)) == multiset(sorted) + multiset{e}
  {
    if sorted == [] || sorted[0].number <= e.number {
    } else {
      InsertPermutes(e, sorted[1..]);
      assert sorted == [sorted[0]] + sorted[1..];
    }
  }

  lemma {:induction false} SortPermutes(entries: seq<Entry>)
    ensures multiset(SortByNumber(entries)) == multiset(entries)
  {
    if entries != [] {
      SortPermutes(entries[1..]);
      InsertPermutes(entries[0], SortByNumber(entries[1..]));
      assert entries == [entries[0]] + entries[1..];
    }
  }

  lemma {:induction false} InsertDescends(e: Entry, sorted: seq<Entry>)
    requires Descending(sorted)
    ensures Descending(InsertByNumber(e, sorted))
  {
    if sorted != [] && sorted[0].number > e.number {
      InsertDescends(e, sorted[1..]);
      InsertPermutes(e, sorted[1..]);
      var rest := InsertByNumber(e, sorted[1..]);
      forall j | 0 <= j < |rest|
        ensures sorted[0].number >= rest[j].number
      {
        assert rest[j] in multiset(rest);
        if rest[j] != e { assert rest[j] in sorted[1..]; }
      }
    }
  }

  lemma {:induction false} SortDescends(entries: seq<Entry>)
    ensures Descending(SortByNumber(entries))
  {
    if entries != [] {
      SortDescends(entries[1..]);
      InsertDescends(entries[0], SortByNumber(entries[1..]));
    }
  }

  lemma PermutedMember(a: seq<Entry>, b: seq<Entry>, e: Entry)
    requires multiset(a) == multiset(b) && e in a
    ensures e in b
  {
    assert e in multiset(a);
  }

  lemma {:induction false} DistinctCounts(entries: seq<Entry>, i: nat, j: nat)
    requires i < j < |entries| && entries[i] == entries[j]
    ensures multiset(entries)[entries[i]] >= 2
  {
    var before, after := entries[..j], entries[j..];
    assert entries == before + after && before[i] == entries[i] && after[0] == entries[j];
    assert entries[i] in multiset(before) && entries[i] in multiset(after);
  }

  lemma {:induction false} DistinctCountsOnce(entries: seq<Entry>, e: Entry)
    requires Distinct(entries)
    ensures multiset(entries)[e] <= 1
  {
    if entries != [] {
      var front, last := entries[..|entries| - 1], entries[|entries| - 1];
      assert entries == front + [last];
      DistinctCountsOnce(front, e);
    }
  }

  lemma PermutedDistinct(a: seq<Entry>, b: seq<Entry>)
    requires multiset(a) == multiset(b) && Distinct(a)
    ensures Distinct(b)
  {
    forall i, j | 0 <= i < j < |b|
      ensures b[i].version != b[j].version
    {
      PermutedMember(b, a, b[i]);
      PermutedMember(b, a, b[j]);
      if b[i] == b[j] {
        DistinctCounts(b, i, j);
        DistinctCountsOnce(a, b[i]);
      }
      var k :| 0 <= k < |a| && a[k] == b[i];
      var m :| 0 <= m < |a| && a[m] == b[j];
    }
  }

  /** The merged list of revisions: no version twice, the new entry in, every old version
      still there, nothing else, and the highest number first. */
  lemma MergedEntries(entries: seq<Entry>, e: Entry, merged: seq<Entry>)
    requires Distinct(entries) && forall i | 0 <= i < |entries| :: entries[i].version != ""
    requires merged == SortByNumber(Put(ByVersion(entries), e))
    ensures Distinct(merged) && Descending(merged) && Versions(merged) == Versions(entries) + {e.version}
    ensures e in merged
    ensures forall i | 0 <= i < |merged| :: merged[i] == e || merged[i] in entries
  {
    hide Put, ByVersion, SortByNumber, Descending;
    DictOfDistinct(entries);
    var put := Put(entries, e);
    PutVersions(entries, e);
    PutDistinct(entries, e);
    SortPermutes(put);
    SortDescends(put);
    PermutedDistinct(put, merged);
    hide Distinct;
    PermutedMember(put, merged, e);
    forall i | 0 <= i < |merged|
      ensures merged[i] == e || merged[i] in entries
    {
      PermutedMember(merged, put, merged[i]);
    }
    SameVersions(entries, e, put, merged);
  }

  lemma SameVersions(entries: seq<Entry>, e: Entry, put: seq<Entry>, merged: seq<Entry>)
    requires multiset(put) == multiset(merged) && e in put && forall x | x in put :: x == e || x in entries
    requires forall x | x in entries :: exists y :: y in put && y.version == x.version
    ensures Versions(merged) == Versions(entries) + {e.version}
  {
    forall i | 0 <= i < |merged|
      ensures merged[i] == e || merged[i] in entries
    {
      PermutedMember(merged, put, merged[i]);
    }
    forall v
      ensures v in Versions(merged) <==> v in Versions(entries) || v == e.version
    {
      if v == e.version {
        PermutedMember(put, merged, e);
      } else if v in Versions(entries) {
        var i :| 0 <= i < |entries| && entries[i].version == v;
        assert entries[i] in entries;
        var y :| y in put && y.version == v;
        PermutedMember(put, merged, y);
      }
    }
  }

  lemma EntryStays(tree: Tree, tree': Tree, key: Key, e: Entry)
    requires EntryOk(tree, key, e) && Keeps(tree, tree')
    ensures EntryOk(tree', key, e)
  {
    assert Fixed(ConfigPath(key, e.version));
  }

  /** The versions the manifest under a slug lists. */
  function Listed(tree: Tree, key: Key, slug: string): set<string> {
    Versions(OldEntries(tree, key, slug))
  }

  /** Where the manifest under a slug stands after a publication there. */
  lemma ManifestUpdated(tree: Tree, written: Tree, a: Attempt, config: Config, bytes: File, after: Tree)
    requires EnvironmentsOk(tree) && Grown(tree, written) && Keeps(written, after)
    requires config.version == a.built.version != ""
    requires ConfigPath(a.key, config.version) in written && written[ConfigPath(a.key, config.version)] == bytes
    ensures var m := Manifest(written, a, config, bytes);
      m.ManifestFile? && ManifestOk(after, a.key, a.Slug(), m) && m.current == config.version
        && Versions(m.revisions) == Listed(tree, a.key, a.Slug()) + {config.version}
  {
    hide Put, ByVersion, SortByNumber, ConfigsOk, ShasOk, Distinct, Versions;
    OldEntriesOk(tree, written, a.key, a.Slug());
    var entries, e := OldEntries(written, a.key, a.Slug()), NewEntry(config, bytes);
    var merged := SortByNumber(Put(ByVersion(entries), e));
    MergedEntries(entries, e, merged);
    assert Fixed(ConfigPath(a.key, config.version));
    forall i | 0 <= i < |merged|
      ensures EntryOk(after, a.key, merged[i])
    {
      if merged[i] != e {
        var j :| 0 <= j < |entries| && entries[j] == merged[i];
        EntryStays(written, after, a.key, merged[i]);
      }
    }
  }

  lemma OldEntriesOk(tree: Tree, written: Tree, key: Key, slug: string)
    requires EnvironmentsOk(tree) && Grown(tree, written)
    ensures OldEntries(written, key, slug) == OldEntries(tree, key, slug) && Distinct(OldEntries(tree, key, slug))
    ensures forall i | 0 <= i < |OldEntries(tree, key, slug)| ::
      OldEntries(tree, key, slug)[i].version != "" && EntryOk(written, key, OldEntries(tree, key, slug)[i])
  {
    hide ConfigsOk, ShasOk, Distinct;
    var path := ManifestPath(key, slug);
    if path in tree {
      assert ManifestOk(tree, key, slug, tree[path]);
      var entries := OldEntries(tree, key, slug);
      forall i | 0 <= i < |entries|
        ensures entries[i].version != "" && EntryOk(written, key, entries[i])
      {
        EntryStays(tree, written, key, entries[i]);
      }
    } else {
      assert path !in written;
      EmptyDistinct();
    }
  }

  lemma EmptyDistinct()
    ensures Distinct([])
  {
  }

  predicate SdkFree(tree: Tree, a: Attempt) {
    a.asset.Some? && !Clashes(tree, Write(SdkPath(a.sdk), AssetFile(a.asset.value)))
  }

  /** The manifest under the slug now names `version` as current and lists it too. */
  ghost predicate NowCurrent(tree: Tree, tree': Tree, key: Key, slug: string, version: string) {
    var path := ManifestPath(key, slug);
    && path in tree' && tree'[path].ManifestFile? && tree'[path].current == version
    && Listed(tree', key, slug) == Listed(tree, key, slug) + {version}
  }

  predicate SameManifest(tree: Tree, tree': Tree, key: Key, slug: string) {
    var path := ManifestPath(key, slug);
    (path in tree' <==> path in tree) && (path in tree ==> tree'[path] == tree[path])
  }

  /** One step of the tree, seen from the slugs. */
  ghost predicate Stepped(tree: Tree, tree': Tree, a: Attempt, outcome: Outcome) {
    && TreeOk(tree') && Keeps(tree, tree')
    && (outcome.Published? ==> NowCurrent(tree, tree', a.key, a.Slug(), a.built.version))
    && (forall key, slug ::
          (outcome.Published? && key == a.key && slug == a.Slug()) || SameManifest(tree, tree', key, slug))
  }

  lemma EnvironmentsStay(tree: Tree, tree': Tree, key: Key, slug: string)
    requires EnvironmentsOk(tree) && Keeps(tree, tree') && ManifestPath(key, slug) in tree
    ensures ManifestOk(tree', key, slug, tree[ManifestPath(key, slug)])
  {
    hide Distinct, Versions;
    var file := tree[ManifestPath(key, slug)];
    assert ManifestOk(tree, key, slug, file);
    forall i | 0 <= i < |file.revisions|
      ensures EntryOk(tree', key, file.revisions[i])
    {
      EntryStays(tree, tree', key, file.revisions[i]);
    }
  }

  lemma OnlyWritten(tree: Tree, written: Tree, a: Attempt, outcome: Outcome)
    requires TreeOk(tree) && Grown(tree, written) && !outcome.Published?
    ensures Stepped(tree, written, a, outcome)
  {
    hide ConfigsOk, ShasOk, ManifestOk;
    forall key, slug | ManifestPath(key, slug) in written
      ensures ManifestOk(written, key, slug, written[ManifestPath(key, slug)]) && PointerOk(written, key, slug)
    {
      assert ManifestPath(key, slug) in tree;
      EnvironmentsStay(tree, written, key, slug);
      assert PointerOk(tree, key, slug);
    }
  }

  lemma PointedAndListed(tree: Tree, written: Tree, a: Attempt, config: Config, bytes: File, asset: string, after: Tree)
    requires TreeOk(tree) && Grown(tree, written) && config.version == a.built.version != ""
    requires ConfigPath(a.key, config.version) in written && written[ConfigPath(a.key, config.version)] == bytes
    requires IsPointedAndListed(written, a, asset, config, bytes, after)
    ensures Stepped(tree, after, a, Published)
  {
    hide ManifestOk, Versions, Manifest, OldEntries, ConfigsOk, ShasOk, EnvironmentsOk;
    ManifestUpdated(tree, written, a, config, bytes, after);
    SameConfigs(written, after);
    PointersKept(tree, written, a, config, bytes, asset, after);
    ManifestNow(after, a, Manifest(written, a, config, bytes));
  }

  lemma ManifestNow(after: Tree, a: Attempt, m: File)
    requires ManifestPath(a.key, a.Slug()) in after && after[ManifestPath(a.key, a.Slug())] == m && m.ManifestFile?
    ensures Listed(after, a.key, a.Slug()) == Versions(m.revisions)
  {
  }

  /** The pointer, its checksum and the manifest are written; nothing else changes. */
  ghost predicate IsPointedAndListed(written: Tree, a: Attempt, asset: string, config: Config, bytes: File,
                                     after: Tree) {
    var pointer := NewPointer(a, asset, config, bytes);
    after == written[LatestPath(a.key, a.Slug()) := pointer][LatestShaPath(a.key, a.Slug()) := ShaFile(Sha(pointer))]
               [ManifestPath(a.key, a.Slug()) := Manifest(written, a, config, bytes)]
  }

  lemma PointersKept(tree: Tree, written: Tree, a: Attempt, config: Config, bytes: File, asset: string, after: Tree)
    requires EnvironmentsOk(tree) && Grown(tree, written) && Keeps(tree, after)
    requires IsPointedAndListed(written, a, asset, config, bytes, after)
    requires var m := Manifest(written, a, config, bytes);
      ManifestOk(after, a.key, a.Slug(), m) && m.ManifestFile? && m.current == config.version
    ensures EnvironmentsOk(after)
  {
    hide ManifestOk, Manifest, ConfigsOk, ShasOk;
    forall key, slug | ManifestPath(key, slug) in after
      ensures ManifestOk(after, key, slug, after[ManifestPath(key, slug)]) && PointerOk(after, key, slug)
    {
      if key != a.key || slug != a.Slug() {
        assert ManifestPath(key, slug) in tree;
        EnvironmentsStay(tree, after, key, slug);
        assert PointerOk(tree, key, slug);
      }
    }
  }

  lemma SameConfigs(written: Tree, after: Tree)
    requires ConfigsOk(written) && ShasOk(written)
    requires forall p | Fixed(p) :: (p in after <==> p in written) && (p in written ==> after[p] == written[p])
    ensures ConfigsOk(after) && ShasOk(after)
  {
    assert forall key, v :: Fixed(ConfigPath(key, v)) && Fixed(ConfigShaPath(key, v));
    assert forall sdk :: Fixed(SdkPath(sdk)) && Fixed(SdkShaPath(sdk));
  }

  lemma CommittedSteps(tree: Tree, a: Attempt, asset: string, config: Config, bytes: File)
    requires TreeOk(tree) && Proper(a) && GoodBytes(a, bytes) && config.version == a.built.version
    ensures var (tree', outcome) := Committed(tree, a, asset, config, bytes);
      && Stepped(tree, tree', a, outcome) && HasContainers(tree') && (outcome.Published? || outcome.Conflicting?)
      && (outcome.Published? <==>
            && !Clashes(tree, Write(ConfigPath(a.key, a.built.version), bytes))
            && !Clashes(tree, Write(SdkPath(a.sdk), AssetFile(asset))))
  {
    hide Stepped, Grown, WriteAll, NewPointer, Manifest, ConfigsOk, ShasOk, EnvironmentsOk;
    ImmutableWritesGrow(tree, a, asset, bytes);
    var (written, conflict) := WriteAll(tree, ImmutableWrites(a, asset, bytes));
    var tree' := Committed(tree, a, asset, config, bytes).0;
    if conflict.Some? {
      OnlyWritten(tree, written, a, Conflicting(conflict.value));
    } else {
      PointedAndListed(tree, written, a, config, bytes, asset, tree');
    }
    assert ConfigPath(a.key, a.built.version) in tree' && UnderContainers(ConfigPath(a.key, a.built.version));
  }

  /** An attempt whose two looks saw the trees `first` and `second` of a run so far. */
  lemma AttemptedSteps(first: Tree, second: Tree, now: Tree, a: Attempt)
    requires TreeOk(first) && TreeOk(second) && TreeOk(now) && Proper(a)
    ensures var (now', outcome) := Attempted(first, second, now, a);
      && Stepped(now, now', a, outcome)
      && (if outcome.Published? || outcome.Conflicting? then HasContainers(now') else now' == now)
  {
    hide Stepped, ShasOk, EnvironmentsOk, Committed, HasContainers;
    var reading := Identified(first, a);
    if a.Slug() == "" || reading.Rejected? || a.asset.None? {
      NothingStepped(now, a, Attempted(first, second, now, a).1);
    } else {
      CommittedSteps(now, a, a.asset.value, reading.config, BytesAt(second, a, reading.config));
    }
  }

  lemma NothingStepped(tree: Tree, a: Attempt, outcome: Outcome)
    requires TreeOk(tree) && !outcome.Published?
    ensures Stepped(tree, tree, a, outcome)
  {
    hide TreeOk;
  }

  /** An attempt: its two looks, at the trees with these indices, and then the lock. */
  datatype Event = Event(attempt: Attempt, first: nat, second: nat)

  datatype Run = Run(events: seq<Event>, trees: seq<Tree>, outcomes: seq<Outcome>)

  ghost predicate EventAt(r: Run, i: nat)
    requires |r.trees| == |r.events| + 1 == |r.outcomes| + 1 && i < |r.events|
  {
    var e := r.events[i];
    && Proper(e.attempt) && e.first <= e.second <= i
    && (r.trees[i + 1], r.outcomes[i]) == Attempted(r.trees[e.first], r.trees[e.second], r.trees[i], e.attempt)
  }

  /** Attempts in the order in which they take the lock (or give up before it). */
  ghost predicate IsRun(r: Run) {
    && |r.trees| == |r.events| + 1 == |r.outcomes| + 1 && r.trees[0] == map[]
    && forall i | 0 <= i < |r.events| :: EventAt(r, i)
  }

  lemma {:induction false} RunKeepsTree(r: Run, i: nat)
    requires IsRun(r) && i <= |r.events|
    ensures TreeOk(r.trees[i])
    decreases i, 0
  {
    if i > 0 { RunSteps(r, i - 1); }
  }

  lemma {:induction false} RunSteps(r: Run, i: nat)
    requires IsRun(r) && i < |r.events|
    ensures Stepped(r.trees[i], r.trees[i + 1], r.events[i].attempt, r.outcomes[i]) && TreeOk(r.trees[i + 1])
    ensures if r.outcomes[i].Published? || r.outcomes[i].Conflicting? then HasContainers(r.trees[i + 1])
            else r.trees[i + 1] == r.trees[i]
    decreases i, 1
  {
    hide TreeOk, Attempted, HasContainers;
    assert EventAt(r, i);
    var e := r.events[i];
    RunKeepsTree(r, i);
    RunKeepsTree(r, e.second);
    RunKeepsTree(r, e.first);
    AttemptedSteps(r.trees[e.first], r.trees[e.second], r.trees[i], e.attempt);
  }

  /** `publish_environment` never rewrites a published file: configurations, checksums and
      SDK assets keep their bytes for ever. */
  lemma {:induction false} PublishedNeverChanges(r: Run, i: nat, j: nat, p: Path)
    requires IsRun(r) && i <= j <= |r.events| && p in r.trees[i] && Fixed(p)
    ensures p in r.trees[j] && r.trees[j][p] == r.trees[i][p]
  {
    if i < j {
      hide TreeOk;
      PublishedNeverChanges(r, i, j - 1, p);
      RunSteps(r, j - 1);
    }
  }

  predicate PublishesTo(r: Run, i: nat, key: Key, slug: string)
    requires i < |r.events| == |r.outcomes|
  {
    r.outcomes[i].Published? && r.events[i].attempt.key == key && r.events[i].attempt.Slug() == slug
  }

  /** The versions successfully published to a slug by the first `i` attempts. */
  function History(r: Run, i: nat, key: Key, slug: string): set<string>
    requires i <= |r.events| == |r.outcomes|
  {
    if i == 0 then {}
    else
      History(r, i - 1, key, slug)
      + if PublishesTo(r, i - 1, key, slug) then {r.events[i - 1].attempt.built.version} else {}
  }

  /** The last of them. */
  function LastPublished(r: Run, i: nat, key: Key, slug: string): Option<string>
    requires i <= |r.events| == |r.outcomes|
  {
    if i == 0 then None
    else if PublishesTo(r, i - 1, key, slug) then Some(r.events[i - 1].attempt.built.version)
    else LastPublished(r, i - 1, key, slug)
  }

  ghost predicate ManifestTells(tree: Tree, key: Key, slug: string, history: set<string>, last: Option<string>) {
    var path := ManifestPath(key, slug);
    && Listed(tree, key, slug) == history && (path in tree <==> last.Some?)
    && (last.Some? ==> tree[path].ManifestFile? && tree[path].current == last.value)
  }

  /** The manifest under a slug lists exactly the versions ever published to it, so it
      never shrinks; its current version is the last one published, it is a member, and the
      pointer names it too. */
  lemma {:induction false} ManifestIsHistory(r: Run, i: nat, key: Key, slug: string)
    requires IsRun(r) && i <= |r.events|
    ensures ManifestTells(r.trees[i], key, slug, History(r, i, key, slug), LastPublished(r, i, key, slug))
    ensures LastPublished(r, i, key, slug).Some? ==>
      PointerOk(r.trees[i], key, slug) && LastPublished(r, i, key, slug).value in History(r, i, key, slug)
  {
    RunKeepsTree(r, i);
    hide IsRun, Stepped, TreeOk, PointerOk;
    PointersFollow(r.trees[i], key, slug);
    if i > 0 {
      ManifestIsHistory(r, i - 1, key, slug);
      RunSteps(r, i - 1);
      hide Versions, Keeps, Listed;
      StepKeepsListed(r.trees[i - 1], r.trees[i], r.events[i - 1].attempt, r.outcomes[i - 1], key, slug);
    } else {
      NothingListed(key, slug);
    }
  }

  lemma NothingListed(key: Key, slug: string)
    ensures Listed(map[], key, slug) == {}
  {
  }

  lemma StepKeepsListed(tree: Tree, tree': Tree, a: Attempt, outcome: Outcome, key: Key, slug: string)
    requires Stepped(tree, tree', a, outcome)
    ensures if outcome.Published? && key == a.key && slug == a.Slug()
            then NowCurrent(tree, tree', key, slug, a.built.version)
            else SameManifest(tree, tree', key, slug) && Listed(tree', key, slug) == Listed(tree, key, slug)
  {
    hide TreeOk, Keeps, Versions;
    if !(outcome.Published? && key == a.key && slug == a.Slug()) { assert SameManifest(tree, tree', key, slug); }
  }

  lemma PointersFollow(tree: Tree, key: Key, slug: string)
    requires TreeOk(tree)
    ensures ManifestPath(key, slug) in tree ==> PointerOk(tree, key, slug)
  {
    hide ConfigsOk, ShasOk, ManifestOk;
  }

  /** In a tree left by publishers the checker finds nothing but a missing tree. */
  lemma SoundTreeVerifies(tree: Tree, issue: Issue)
    requires TreeOk(tree)
    ensures Reported(tree, issue) <==> !HasContainers(tree) && issue == Issue(None, NoContainers)
  {
    hide HasContainers, ShasOk;
    if HasContainers(tree) {
      forall key, slug
        ensures !IssueAt(tree, key, slug, issue)
      {
        NoIssueAt(tree, key, slug, issue);
      }
    }
  }

  lemma NoIssueAt(tree: Tree, key: Key, slug: string, issue: Issue)
    requires TreeOk(tree)
    ensures !IssueAt(tree, key, slug, issue)
  {
    hide ShasOk, Distinct, Versions;
    var path := ManifestPath(key, slug);
    if path in tree {
      var file := tree[path];
      assert ManifestOk(tree, key, slug, file) && PointerOk(tree, key, slug);
      forall i | 0 <= i < |file.revisions|
        ensures EntryIssue(tree, key, file.revisions[i]) == None
      {
        assert EntryOk(tree, key, file.revisions[i]);
      }
    }
  }

  ghost predicate TookLock(r: Run, j: nat)
    requires j < |r.outcomes|
  {
    r.outcomes[j].Published? || r.outcomes[j].Conflicting?
  }

  /** `verify` accepts the tree as soon as any attempt took the lock, whether or not it
      succeeded, and until then reports only that nothing is published. */
  lemma {:induction false} VerifyAcceptsOnceLocked(r: Run, i: nat, issue: Issue)
    requires IsRun(r) && i <= |r.events|
    ensures Reported(r.trees[i], issue) <==>
      (forall j | 0 <= j < i :: !TookLock(r, j)) && issue == Issue(None, NoContainers)
  {
    RunKeepsTree(r, i);
    hide TreeOk, Attempted, Reported;
    ContainersAppear(r, i);
    SoundTreeVerifies(r.trees[i], issue);
  }

  lemma {:induction false} ContainersAppear(r: Run, i: nat)
    requires IsRun(r) && i <= |r.events|
    ensures HasContainers(r.trees[i]) <==> exists j :: 0 <= j < i && TookLock(r, j)
  {
    if i > 0 {
      hide TreeOk, Attempted;
      ContainersAppear(r, i - 1);
      RunSteps(r, i - 1);
      if TookLock(r, i - 1) {
      } else {
        assert forall j | 0 <= j < i && TookLock(r, j) :: j < i - 1;
      }
    }
  }

  /** When an attempt should succeed.  The SDK asset must exist and not differ from the one
      published under its version.  A revision seen as published is reused, but only if its
      first publisher spelled the container id as the container does; one not yet seen must
      not meanwhile have been published with other contents. */
  predicate ShouldPublish(first: Tree, second: Tree, now: Tree, a: Attempt) {
    var path := ConfigPath(a.key, a.built.version);
    && a.Slug() != "" && SdkFree(now, a)
    && if path in first then first[path].ConfigFile? && first[path].config.containerId == a.containerId
       else path in second || path !in now || now[path] == ConfigFile(a.built)
  }

  lemma PublishSucceedsIff(r: Run, i: nat)
    requires IsRun(r) && i < |r.events|
    ensures EventAt(r, i)
    ensures var e := r.events[i];
      r.outcomes[i].Published? <==> ShouldPublish(r.trees[e.first], r.trees[e.second], r.trees[i], e.attempt)
  {
    assert EventAt(r, i);
    var e := r.events[i];
    RunKeepsTree(r, i);
    RunKeepsTree(r, e.first);
    RunKeepsTree(r, e.second);
    var a, path := e.attempt, ConfigPath(e.attempt.key, e.attempt.built.version);
    var first, second, now := r.trees[e.first], r.trees[e.second], r.trees[i];
    if path in first { PublishedNeverChanges(r, e.first, e.second, path); }
    if path in second { PublishedNeverChanges(r, e.second, i, path); }
    hide IsRun, ShasOk, EnvironmentsOk, Committed;
    var reading := Identified(first, a);
    if reading.Reading? && a.asset.Some? {
      CommittedSteps(now, a, a.asset.value, reading.config, BytesAt(second, a, reading.config));
    }
  }

  /** The configuration an attempt publishes was stored between its two looks by another
      publisher, who built it otherwise. */
  predicate Raced(first: Tree, second: Tree, a: Attempt) {
    var path := ConfigPath(a.key, a.built.version);
    path !in first && path in second && second[path].ConfigFile? && second[path].config.digest != a.built.digest
  }

  /** What the pointer of a publication says of the stored configuration: its SHA-256 always,
      and its integrity digest exactly when the publication did not race past another one. */
  lemma DigestMatchesIff(r: Run, i: nat)
    requires IsRun(r) && i < |r.events| && r.outcomes[i].Published?
    ensures EventAt(r, i)
    ensures var e := r.events[i];
      var latest := LatestPath(e.attempt.key, e.attempt.Slug());
      var path := ConfigPath(e.attempt.key, e.attempt.built.version);
      var after := r.trees[i + 1];
      && latest in after && after[latest].LatestFile? && path in after && after[path].ConfigFile?
      && after[latest].pointer.sha == Sha(after[path])
      && (after[latest].pointer.digest == after[path].config.digest <==>
            !Raced(r.trees[e.first], r.trees[e.second], e.attempt))
  {
    assert EventAt(r, i);
    var e := r.events[i];
    var a, path := e.attempt, ConfigPath(e.attempt.key, e.attempt.built.version);
    RunKeepsTree(r, i);
    RunKeepsTree(r, e.first);
    RunKeepsTree(r, e.second);
    if path in r.trees[e.first] { PublishedNeverChanges(r, e.first, e.second, path); }
    hide IsRun, ShasOk, EnvironmentsOk;
    CommittedPointer(r.trees[e.first], r.trees[e.second], r.trees[i], a);
  }

  lemma CommittedPointer(first: Tree, second: Tree, now: Tree, a: Attempt)
    requires ConfigsOk(first) && ConfigsOk(second) && ConfigsOk(now) && ShasOk(now) && Proper(a)
    requires Attempted(first, second, now, a).1.Published?
    requires var path := ConfigPath(a.key, a.built.version); path in first ==>
      path in second && second[path] == first[path]
    ensures var after := Attempted(first, second, now, a).0;
      var latest, path := LatestPath(a.key, a.Slug()), ConfigPath(a.key, a.built.version);
      && latest in after && after[latest].LatestFile? && path in after && after[path].ConfigFile?
      && after[latest].pointer.sha == Sha(after[path])
      && (after[latest].pointer.digest == after[path].config.digest <==> !Raced(first, second, a))
  {
    hide WriteAll, Manifest, ShasOk;
    var path := ConfigPath(a.key, a.built.version);
    var config := Identified(first, a).config;
    var bytes := BytesAt(second, a, config);
    assert GoodBytes(a, bytes);
    ImmutableWritesGrow(now, a, a.asset.value, bytes);
    hide Grown, ConfigsOk;
    var written := WriteAll(now, ImmutableWrites(a, a.asset.value, bytes)).0;
    var after := Attempted(first, second, now, a).0;
    assert Attempted(first, second, now, a) == Committed(now, a, a.asset.value, config, bytes);
    assert after[LatestPath(a.key, a.Slug())] == NewPointer(a, a.asset.value, config, bytes);
    assert path in after && after[path] == written[path] == bytes;
    assert path in first ==> config == bytes.config;
  }

  /** Two publishers of one revision, the second of whom looks once before the first has
      published and once after. */
  lemma RaceLeavesOtherDigest(key: Key, one: Config, other: Config, sdk: string, asset: string) returns (r: Run)
    requires Intact(one) && Intact(other) && one.version == other.version != "" && one.digest != other.digest
    requires one.environment == other.environment && Slug(one.environment) != ""
    ensures IsRun(r) && |r.events| == 2 && r.outcomes[1].Published?
    ensures var after := r.trees[2];
      var latest, path := LatestPath(key, Slug(one.environment)), ConfigPath(key, one.version);
      && latest in after && after[latest].LatestFile? && path in after && after[path] == ConfigFile(one)
      && after[latest].pointer.digest == other.digest
    ensures forall issue :: !Reported(r.trees[2], issue)
  {
    var a := Attempt(key, one.containerId, one, sdk, Some(asset));
    var b := Attempt(key, other.containerId, other, sdk, Some(asset));
    var t1 := Attempted(map[], map[], map[], a);
    var t2 := Attempted(map[], t1.0, t1.0, b);
    r := Run([Event(a, 0, 0), Event(b, 0, 1)], [map[], t1.0, t2.0], [t1.1, t2.1]);
    hide Attempted;
    assert EventAt(r, 0) && EventAt(r, 1);
    FirstPublishes(key, one, sdk, asset);
    SecondPublishes(t1.0, key, one, other, sdk, asset);
    hide IsRun, EventAt, TreeOk;
    assert TookLock(r, 0);
    forall issue { VerifyAcceptsOnceLocked(r, 2, issue); }
  }

  lemma FirstPublishes(key: Key, one: Config, sdk: string, asset: string)
    requires Intact(one) && one.version != "" && Slug(one.environment) != ""
    ensures var (tree, outcome) :=
      Attempted(map[], map[], map[], Attempt(key, one.containerId, one, sdk, Some(asset)));
      && outcome.Published? && TreeOk(tree)
      && ConfigPath(key, one.version) in tree && tree[ConfigPath(key, one.version)] == ConfigFile(one)
      && SdkPath(sdk) in tree && tree[SdkPath(sdk)] == AssetFile(asset)
  {
    var a := Attempt(key, one.containerId, one, sdk, Some(asset));
    EmptyTree();
    hide WriteAll, Manifest, TreeOk, Grown, ConfigsOk, ShasOk, EnvironmentsOk, NewPointer, Keeps, NowCurrent,
         SameManifest;
    AttemptedSteps(map[], map[], map[], a);
    CommittedSteps(map[], a, asset, one, ConfigFile(one));
    ImmutableWritesGrow(map[], a, asset, ConfigFile(one));
    AssetWritten(map[], a, asset, ConfigFile(one));
  }

  lemma EmptyTree()
    ensures TreeOk(map[]) && ConfigsOk(map[]) && ShasOk(map[])
  {
  }

  /** Once nothing clashes, the SDK asset is in the tree. */
  lemma AssetWritten(tree: Tree, a: Attempt, asset: string, bytes: File)
    requires WriteAll(tree, ImmutableWrites(a, asset, bytes)).1.None?
    ensures var written := WriteAll(tree, ImmutableWrites(a, asset, bytes)).0;
      SdkPath(a.sdk) in written && written[SdkPath(a.sdk)] == AssetFile(asset)
  {
    var writes := ImmutableWrites(a, asset, bytes);
    hide WriteAll;
    var one := Added(tree, writes[0]);
    var two := Added(one, writes[1]);
    var three := Added(two, writes[2]);
    OneWrite(tree, writes, writes[0]);
    OneWrite(one, writes[1..], writes[1]);
    assert writes[1..][1..] == writes[2..];
    OneWrite(two, writes[2..], writes[2]);
    assert writes[2..][1..] == writes[3..];
    OneWrite(three, writes[3..], writes[3]);
    assert writes[3..][1..] == [];
    AllWritten(Added(three, writes[3]), []);
  }

  lemma SecondPublishes(tree: Tree, key: Key, one: Config, other: Config, sdk: string, asset: string)
    requires TreeOk(tree) && Intact(one) && Intact(other) && one.version == other.version != ""
    requires Slug(other.environment) != ""
    requires ConfigPath(key, one.version) in tree && tree[ConfigPath(key, one.version)] == ConfigFile(one)
    requires SdkPath(sdk) in tree && tree[SdkPath(sdk)] == AssetFile(asset)
    ensures var (after, outcome) :=
      Attempted(map[], tree, tree, Attempt(key, other.containerId, other, sdk, Some(asset)));
      var latest := LatestPath(key, Slug(other.environment));
      && outcome.Published? && latest in after && after[latest].LatestFile?
      && after[latest].pointer.digest == other.digest
      && ConfigPath(key, one.version) in after && after[ConfigPath(key, one.version)] == ConfigFile(one)
  {
    var b := Attempt(key, other.containerId, other, sdk, Some(asset));
    CommittedSteps(tree, b, asset, other, ConfigFile(one));
    ImmutableWritesGrow(tree, b, asset, ConfigFile(one));
    hide WriteAll, Manifest, TreeOk, Grown, Stepped;
  }

  /** The cache policy after the first `i` attempts. */
  function Headers(r: Run, i: nat): map<Path, Cache>
    requires i <= |r.events| == |r.outcomes|
  {
    if i == 0 then map[]
    else
      var before, a := Headers(r, i - 1), r.events[i - 1].attempt;
      if r.outcomes[i - 1].Published? then HeadersAfter(before, a, a.built.version) else before
  }

  lemma PublishedAssetStays(r: Run, i: nat)
    requires IsRun(r) && i < |r.events| && r.outcomes[i].Published?
    ensures var a := r.events[i].attempt;
      ConfigPath(a.key, a.built.version) in r.trees[i + 1] && SdkPath(a.sdk) in r.trees[i + 1]
  {
    assert EventAt(r, i);
    DigestMatchesIff(r, i);
    var e := r.events[i];
    RunKeepsTree(r, e.first);
    hide IsRun, TreeOk, ShasOk, EnvironmentsOk, WriteAll, Manifest;
    var config := Identified(r.trees[e.first], e.attempt).config;
    AssetWritten(r.trees[i], e.attempt, e.attempt.asset.value, BytesAt(r.trees[e.second], e.attempt, config));
  }

  /** What may be cached for ever never changes: a path that the policy calls immutable is
      stored, and keeps its bytes in every later tree. */
  lemma {:induction false} CachedForEverIsFixed(r: Run, i: nat, j: nat, p: Path)
    requires IsRun(r) && i <= j <= |r.events| && p in Headers(r, i) && Headers(r, i)[p] == Immutable
    ensures p in r.trees[i] && p in r.trees[j] && r.trees[j][p] == r.trees[i][p]
    decreases i
  {
    var a := r.events[i - 1].attempt;
    hide IsRun;
    if r.outcomes[i - 1].Published? && (p == SdkPath(a.sdk) || p == ConfigPath(a.key, a.built.version)) {
      PublishedAssetStays(r, i - 1);
      PublishedNeverChanges(r, i, j, p);
    } else {
      CachedForEverIsFixed(r, i - 1, i, p);
      CachedForEverIsFixed(r, i - 1, j, p);
    }
  }
}
