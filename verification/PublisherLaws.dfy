/** What published files say, and what `verify` checks. */
module PublisherLaws {
  import opened Wrappers
  import opened Publisher
  import opened PublisherRuns
  import opened EnvironmentHistory
  import Slugs

  /** The digest of a configuration covers all of it: two that are intact and have one digest
      are one. */
  lemma DigestCoversAll(c: Config, d: Config)
    requires Intact(c) && Intact(d) && c.digest == d.digest
    ensures c == d
  {
  }

  /** Of an older manifest those entries are kept that have a version, the last of each. */
  lemma {:induction false} KeptEntries(entries: seq<Entry>, e: Entry)
    ensures e in ByVersion(entries) <==>
      e.version != "" && exists i :: 0 <= i < |entries| && IsLastOf(entries, i, e)
  {
    if entries != [] {
      var front, last := entries[..|entries| - 1], entries[|entries| - 1];
      KeptEntries(front, e);
      KeptDistinct(front);
      PutIff(ByVersion(front), last, e);
      hide ByVersion, Put, PublisherRuns.Distinct;
      assert ByVersion(entries) == if last.version == "" then ByVersion(front) else Put(ByVersion(front), last) by {
        KeptStep(entries);
      }
      if i :| 0 <= i < |front| && IsLastOf(front, i, e) {
        if last.version != e.version { assert IsLastOf(entries, i, e); }
      }
      if i :| 0 <= i < |entries| && IsLastOf(entries, i, e) {
        if i < |front| { assert IsLastOf(front, i, e); }
      }
      if e == last { assert IsLastOf(entries, |front|, e); }
    }
  }

  predicate IsLastOf(entries: seq<Entry>, i: nat, e: Entry) {
    i < |entries| && entries[i] == e && forall j | i < j < |entries| :: entries[j].version != e.version
  }

  lemma KeptStep(entries: seq<Entry>)
    requires entries != []
    ensures var front, last := entries[..|entries| - 1], entries[|entries| - 1];
      ByVersion(entries) == if last.version == "" then ByVersion(front) else Put(ByVersion(front), last)
  {
  }

  lemma {:induction false} KeptDistinct(entries: seq<Entry>)
    ensures PublisherRuns.Distinct(ByVersion(entries))
  {
    if entries != [] {
      KeptDistinct(entries[..|entries| - 1]);
      PutDistinct(ByVersion(entries[..|entries| - 1]), entries[|entries| - 1]);
    }
  }

  lemma {:induction false} PutIff(entries: seq<Entry>, last: Entry, e: Entry)
    requires PublisherRuns.Distinct(entries)
    ensures e in Put(entries, last) <==> e == last || (e in entries && e.version != last.version)
  {
    if entries != [] {
      PutIff(entries[1..], last, e);
      if entries[0].version == last.version {
        forall x | x in entries[1..]
          ensures x.version != last.version
        {
          var i :| 0 <= i < |entries[1..]| && entries[1..][i] == x;
          assert entries[i + 1] == x;
        }
      }
    }
  }

  /** The configuration that an attempt publishes: the one it saw published at first, or the
      one just built. */
  function PublishedConfig(first: Tree, a: Attempt): Config {
    var path := ConfigPath(a.key, a.built.version);
    if path in first && first[path].ConfigFile? then first[path].config else a.built
  }

  /** What a publication leaves behind: a pointer to the stored configuration and the stored SDK
      asset, the pointer's checksum, and an entry in the manifest. */
  lemma PublicationRecorded(r: Run, i: nat)
    requires IsRun(r) && i < |r.events| && r.outcomes[i].Published?
    ensures EventAt(r, i)
    ensures var e, after := r.events[i], r.trees[i + 1];
      var a, c := e.attempt, PublishedConfig(r.trees[e.first], e.attempt);
      var path, latest := ConfigPath(a.key, a.built.version), LatestPath(a.key, a.Slug());
      && path in after && SdkPath(a.sdk) in after && a.asset.Some? && after[SdkPath(a.sdk)] == AssetFile(a.asset.value)
      && latest in after && after[latest] == LatestFile(
           Pointer(c.environment, a.built.version, c.number, Sha(after[path]), c.digest, a.sdk,
                   Sha(after[SdkPath(a.sdk)]), c.publishedAt))
      && LatestShaPath(a.key, a.Slug()) in after
      && after[LatestShaPath(a.key, a.Slug())] == ShaFile(Sha(after[latest]))
      && Entry(a.built.version, c.number, a.built.version, Sha(after[path]), c.digest, c.publishedAt)
           in OldEntries(after, a.key, a.Slug())
      && forall x | x in OldEntries(after, a.key, a.Slug()) ::
           x.version == a.built.version || x in OldEntries(r.trees[i], a.key, a.Slug())
  {
    assert EventAt(r, i);
    var e := r.events[i];
    var a, path := e.attempt, ConfigPath(e.attempt.key, e.attempt.built.version);
    RunKeepsTree(r, i);
    RunKeepsTree(r, e.first);
    RunKeepsTree(r, e.second);
    if path in r.trees[e.first] { PublishedNeverChanges(r, e.first, e.second, path); }
    hide IsRun;
    CommittedRecords(r.trees[e.first], r.trees[e.second], r.trees[i], a);
  }

  lemma IdentifiedIs(first: Tree, second: Tree, a: Attempt)
    requires ConfigsOk(first) && ConfigsOk(second) && Proper(a) && Identified(first, a).Reading?
    requires var path := ConfigPath(a.key, a.built.version); path in first ==>
      path in second && second[path] == first[path]
    ensures var c := Identified(first, a).config; c == PublishedConfig(first, a) && c.version == a.built.version
    ensures GoodBytes(a, BytesAt(second, a, Identified(first, a).config))
  {
  }

  lemma CommittedRecords(first: Tree, second: Tree, now: Tree, a: Attempt)
    requires TreeOk(first) && TreeOk(second) && TreeOk(now) && Proper(a)
    requires Attempted(first, second, now, a).1.Published?
    requires var path := ConfigPath(a.key, a.built.version); path in first ==>
      path in second && second[path] == first[path]
    ensures var after, c := Attempted(first, second, now, a).0, PublishedConfig(first, a);
      var path, latest := ConfigPath(a.key, a.built.version), LatestPath(a.key, a.Slug());
      && path in after && SdkPath(a.sdk) in after && a.asset.Some? && after[SdkPath(a.sdk)] == AssetFile(a.asset.value)
      && latest in after && after[latest] == LatestFile(
           Pointer(c.environment, a.built.version, c.number, Sha(after[path]), c.digest, a.sdk,
                   Sha(after[SdkPath(a.sdk)]), c.publishedAt))
      && LatestShaPath(a.key, a.Slug()) in after
      && after[LatestShaPath(a.key, a.Slug())] == ShaFile(Sha(after[latest]))
      && Entry(a.built.version, c.number, a.built.version, Sha(after[path]), c.digest, c.publishedAt)
           in OldEntries(after, a.key, a.Slug())
      && forall x | x in OldEntries(after, a.key, a.Slug()) ::
           x.version == a.built.version || x in OldEntries(now, a.key, a.Slug())
  {
    hide EnvironmentsOk, ShasOk, WriteAll, Put, ByVersion, SortByNumber, Slugs.Slug;
    IdentifiedIs(first, second, a);
    var c := Identified(first, a).config;
    var bytes, asset := BytesAt(second, a, c), a.asset.value;
    hide Identified, PublishedConfig;
    var written := WriteAll(now, ImmutableWrites(a, asset, bytes)).0;
    ImmutableWritesGrow(now, a, asset, bytes);
    AssetWritten(now, a, asset, bytes);
    hide ImmutableWrites, ConfigsOk;
    OldEntriesOk(now, written, a.key, a.Slug());
    var entries, entry := OldEntries(now, a.key, a.Slug()), NewEntry(c, bytes);
    MergedEntries(entries, entry, SortByNumber(Put(ByVersion(entries), entry)));
  }

  /** The tree is in order: each manifest reads, each revision it lists is stored where it says,
      with the checksum it says, intact and of that version; and the pointer beside it, if there
      is one, reads and names the manifest's current version. */
  ghost predicate InOrder(tree: Tree, key: Key, slug: string) {
    var path, latest := ManifestPath(key, slug), LatestPath(key, slug);
    path in tree ==>
      && tree[path].ManifestFile?
      && (forall e | e in tree[path].revisions ::
            var config := ConfigPath(key, e.configVersion);
            && config in tree && e.sha == Sha(tree[config]) && tree[config].ConfigFile?
            && Intact(tree[config].config) && tree[config].config.version == e.version)
      && (latest in tree ==> tree[latest].LatestFile? && tree[latest].pointer.version == tree[path].current)
  }

  lemma InOrderIff(tree: Tree, key: Key, slug: string)
    ensures InOrder(tree, key, slug) <==> forall issue :: !IssueAt(tree, key, slug, issue)
  {
    var path := ManifestPath(key, slug);
    hide Intact;
    if path in tree && tree[path].ManifestFile? {
      EntriesInOrder(tree, key, tree[path].revisions);
      PointerInOrder(tree, key, slug, tree[path].current);
      hide EntryIssue, PointerIssue;
      var revisions, current := tree[path].revisions, tree[path].current;
      if i :| 0 <= i < |revisions| && EntryIssue(tree, key, revisions[i]) != None {
        assert IssueAt(tree, key, slug, EntryIssue(tree, key, revisions[i]).value);
      } else if PointerIssue(tree, key, slug, current) != None {
        assert IssueAt(tree, key, slug, PointerIssue(tree, key, slug, current).value);
      }
    } else if path in tree {
      assert IssueAt(tree, key, slug, Issue(Some(path), InvalidManifest));
    }
  }

  lemma EntriesInOrder(tree: Tree, key: Key, revisions: seq<Entry>)
    ensures (forall i | 0 <= i < |revisions| :: EntryIssue(tree, key, revisions[i]) == None) <==>
      forall e | e in revisions ::
        var config := ConfigPath(key, e.configVersion);
        && config in tree && e.sha == Sha(tree[config]) && tree[config].ConfigFile?
        && Intact(tree[config].config) && tree[config].config.version == e.version
  {
    hide Intact;
  }

  lemma PointerInOrder(tree: Tree, key: Key, slug: string, current: string)
    ensures var latest := LatestPath(key, slug);
      PointerIssue(tree, key, slug, current) == None <==>
        (latest in tree ==> tree[latest].LatestFile? && tree[latest].pointer.version == current)
  {
  }

  /** When `verify` finds nothing, on any tree, whoever wrote it: something is published and all
      of it is in order. */
  lemma VerifyCleanIff(tree: Tree)
    ensures (forall issue :: !Reported(tree, issue)) <==>
      && (exists p :: p in tree && !p.SdkPath? && !p.SdkShaPath?)
      && forall key, slug :: InOrder(tree, key, slug)
  {
    forall key, slug
      ensures InOrder(tree, key, slug) <==> forall issue :: !IssueAt(tree, key, slug, issue)
    {
      InOrderIff(tree, key, slug);
    }
    hide InOrder, IssueAt;
    if !HasContainers(tree) {
      assert Reported(tree, Issue(None, NoContainers));
    } else {
      if key, slug :| !InOrder(tree, key, slug) {
        var issue :| IssueAt(tree, key, slug, issue);
        assert Reported(tree, issue);
      } else {
        forall issue
          ensures !Reported(tree, issue)
        {
          forall key, slug
            ensures !IssueAt(tree, key, slug, issue)
          {
            assert InOrder(tree, key, slug);
          }
        }
      }
    }
  }

  /** The cache policy after a publication: what it wrote once may be kept for ever, and what the
      next publication rewrites must be asked for again. */
  lemma {:induction false} PolicyOfPublications(r: Run, i: nat, j: nat)
    requires IsRun(r) && j < i <= |r.events| && r.outcomes[j].Published?
    ensures var a, headers := r.events[j].attempt, Headers(r, i);
      && SdkPath(a.sdk) in headers && headers[SdkPath(a.sdk)] == Immutable
      && ConfigPath(a.key, a.built.version) in headers && headers[ConfigPath(a.key, a.built.version)] == Immutable
      && LatestPath(a.key, a.Slug()) in headers && headers[LatestPath(a.key, a.Slug())] == Revalidated
      && ManifestPath(a.key, a.Slug()) in headers && headers[ManifestPath(a.key, a.Slug())] == Revalidated
  {
    hide IsRun, Slugs.Slug;
    if j < i - 1 { PolicyOfPublications(r, i - 1, j); }
  }

  lemma PointersAppear(first: Tree, second: Tree, now: Tree, a: Attempt, key: Key, slug: string)
    ensures var (after, outcome) := Attempted(first, second, now, a);
      LatestPath(key, slug) in after <==>
        LatestPath(key, slug) in now || (outcome.Published? && key == a.key && slug == a.Slug())
  {
    hide Slugs.Slug, Manifest, NewPointer, WriteAll;
    if Identified(first, a).Reading? && a.asset.Some? {
      var bytes := BytesAt(second, a, Identified(first, a).config);
      var writes := ImmutableWrites(a, a.asset.value, bytes);
      var p := LatestPath(key, slug);
      if p !in now { WritesOnly(now, writes, p); }
      WritesKeep(now, writes, p);
    }
  }

  lemma {:induction false} WritesKeep(tree: Tree, writes: seq<Write>, p: Path)
    ensures p in tree ==> p in WriteAll(tree, writes).0
    decreases |writes|
  {
    if writes != [] {
      WritesKeep(tree, writes[1..], p);
      WritesKeep(tree[writes[0].path := writes[0].file], writes[1..], p);
    }
  }

  lemma {:induction false} PointerIffPublished(r: Run, i: nat, key: Key, slug: string)
    requires IsRun(r) && i <= |r.events|
    ensures LatestPath(key, slug) in r.trees[i] <==> LastPublished(r, i, key, slug).Some?
  {
    if i > 0 {
      hide Attempted, Slugs.Slug;
      PointerIffPublished(r, i - 1, key, slug);
      assert EventAt(r, i - 1);
      var e := r.events[i - 1];
      PointersAppear(r.trees[e.first], r.trees[e.second], r.trees[i - 1], e.attempt, key, slug);
    }
  }

  /** The index built over a tree of publications has an entry for exactly the slugs ever
      published to, naming the version last published there. */
  lemma IndexIsPublications(r: Run, i: nat, p: Path)
    requires IsRun(r) && i <= |r.events|
    ensures p in IndexOf(r.trees[i]) <==> p.LatestPath? && LastPublished(r, i, p.key, p.slug).Some?
    ensures p in IndexOf(r.trees[i]) ==>
      p.LatestPath? && Some(IndexOf(r.trees[i])[p].version) == LastPublished(r, i, p.key, p.slug)
  {
    if p.LatestPath? {
      PointerIffPublished(r, i, p.key, p.slug);
      ManifestIsHistory(r, i, p.key, p.slug);
    }
    hide IsRun, LastPublished, History, Listed;
  }
}
