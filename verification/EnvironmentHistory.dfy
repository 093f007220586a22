/** Publications, seen from an environment. */
module EnvironmentHistory {
  import opened Wrappers
  import opened Publisher
  import opened PublisherRuns
  import opened Slugs
  import ControlPlane

  /** The attempt published the environment of the container. */
  predicate PublishesOwn(r: Run, i: nat, key: Key, name: string)
    requires i < |r.events| == |r.outcomes|
  {
    r.outcomes[i].Published? && r.events[i].attempt.key == key && r.events[i].attempt.Name() == name
  }

  /** It published another environment of the container, whose name has the same slug. */
  predicate PublishesForeign(r: Run, i: nat, key: Key, name: string)
    requires i < |r.events| == |r.outcomes|
  {
    PublishesTo(r, i, key, Slug(name)) && r.events[i].attempt.Name() != name
  }

  function VersionAt(r: Run, i: nat): string
    requires i < |r.events|
  {
    r.events[i].attempt.built.version
  }

  /** The versions of the environment published by the first `i` attempts. */
  function OwnHistory(r: Run, i: nat, key: Key, name: string): set<string>
    requires i <= |r.events| == |r.outcomes|
  {
    if i == 0 then {}
    else OwnHistory(r, i - 1, key, name) + if PublishesOwn(r, i - 1, key, name) then {VersionAt(r, i - 1)} else {}
  }

  /** The last of them. */
  function OwnLast(r: Run, i: nat, key: Key, name: string): Option<string>
    requires i <= |r.events| == |r.outcomes|
  {
    if i == 0 then None
    else if PublishesOwn(r, i - 1, key, name) then Some(VersionAt(r, i - 1))
    else OwnLast(r, i - 1, key, name)
  }

  /** The manifest lists the environment's own publications and no others, and the manifest and
      the pointer name its last one, if any. */
  ghost predicate TellsOwn(r: Run, i: nat, key: Key, name: string)
    requires i <= |r.events| == |r.outcomes| && i < |r.trees|
  {
    var tree, latest := r.trees[i], LatestPath(key, Slug(name));
    && ManifestTells(tree, key, Slug(name), OwnHistory(r, i, key, name), OwnLast(r, i, key, name))
    && (OwnLast(r, i, key, name).Some? ==>
          latest in tree && tree[latest].LatestFile?
            && Some(tree[latest].pointer.version) == OwnLast(r, i, key, name))
  }

  /** No publication to the slug follows the attempt. */
  ghost predicate IsLastTo(r: Run, j: nat, i: nat, key: Key, slug: string)
    requires j < i <= |r.events| == |r.outcomes|
  {
    forall k | j < k < i :: !PublishesTo(r, k, key, slug)
  }

  /** The publication of another environment shows: its version is not one of the
      environment's own, or it is the latest one and its version is not the own last. */
  ghost predicate Interferes(r: Run, j: nat, i: nat, key: Key, name: string)
    requires j < i <= |r.events| == |r.outcomes|
  {
    && PublishesForeign(r, j, key, name)
    && (VersionAt(r, j) !in OwnHistory(r, i, key, name)
        || (IsLastTo(r, j, i, key, Slug(name)) && OwnLast(r, i, key, name) != Some(VersionAt(r, j))))
  }

  lemma {:induction false} InHistoryIff(r: Run, i: nat, key: Key, slug: string, v: string)
    requires i <= |r.events| == |r.outcomes|
    ensures v in History(r, i, key, slug) <==>
      exists j :: 0 <= j < i && PublishesTo(r, j, key, slug) && VersionAt(r, j) == v
  {
    if i > 0 {
      InHistoryIff(r, i - 1, key, slug, v);
      hide PublishesTo;
      if PublishesTo(r, i - 1, key, slug) && VersionAt(r, i - 1) == v {
      } else {
        assert forall j | 0 <= j < i && PublishesTo(r, j, key, slug) && VersionAt(r, j) == v :: j < i - 1;
      }
    }
  }

  lemma {:induction false} InOwnIff(r: Run, i: nat, key: Key, name: string, v: string)
    requires i <= |r.events| == |r.outcomes|
    ensures v in OwnHistory(r, i, key, name) <==>
      exists j :: 0 <= j < i && PublishesOwn(r, j, key, name) && VersionAt(r, j) == v
  {
    if i > 0 {
      InOwnIff(r, i - 1, key, name, v);
      hide PublishesOwn;
      if PublishesOwn(r, i - 1, key, name) && VersionAt(r, i - 1) == v {
      } else {
        assert forall j | 0 <= j < i && PublishesOwn(r, j, key, name) && VersionAt(r, j) == v :: j < i - 1;
      }
    }
  }

  lemma OwnOrForeign(r: Run, j: nat, key: Key, name: string)
    requires j < |r.events| == |r.outcomes|
    ensures PublishesTo(r, j, key, Slug(name)) <==> PublishesOwn(r, j, key, name) || PublishesForeign(r, j, key, name)
  {
  }

  /** The manifest's versions are the own ones, and those of other environments. */
  lemma HistoryIsOwnIff(r: Run, i: nat, key: Key, name: string)
    requires i <= |r.events| == |r.outcomes|
    ensures History(r, i, key, Slug(name)) == OwnHistory(r, i, key, name) <==>
      forall j | 0 <= j < i && PublishesForeign(r, j, key, name) :: VersionAt(r, j) in OwnHistory(r, i, key, name)
  {
    var slug := Slug(name);
    forall v
      ensures v in History(r, i, key, slug) <==>
        exists j :: 0 <= j < i && PublishesTo(r, j, key, slug) && VersionAt(r, j) == v
      ensures v in OwnHistory(r, i, key, name) <==>
        exists j :: 0 <= j < i && PublishesOwn(r, j, key, name) && VersionAt(r, j) == v
    {
      InHistoryIff(r, i, key, slug, v);
      InOwnIff(r, i, key, name, v);
    }
    forall j | 0 <= j < i
      ensures PublishesTo(r, j, key, slug) <==> PublishesOwn(r, j, key, name) || PublishesForeign(r, j, key, name)
    {
      OwnOrForeign(r, j, key, name);
    }
    hide PublishesTo, PublishesOwn, PublishesForeign, History, OwnHistory, Slug;
    if forall j | 0 <= j < i && PublishesForeign(r, j, key, name) :: VersionAt(r, j) in OwnHistory(r, i, key, name) {
      assert forall v :: v in History(r, i, key, slug) <==> v in OwnHistory(r, i, key, name);
    }
  }

  /** The last publication to the slug, if it is not one of the environment's own. */
  lemma {:induction false} LastIsOwnIff(r: Run, i: nat, key: Key, name: string)
    requires i <= |r.events| == |r.outcomes|
    ensures LastPublished(r, i, key, Slug(name)) == OwnLast(r, i, key, name) <==>
      forall j | 0 <= j < i && PublishesForeign(r, j, key, name) && IsLastTo(r, j, i, key, Slug(name)) ::
        OwnLast(r, i, key, name) == Some(VersionAt(r, j))
  {
    var slug := Slug(name);
    hide Slug;
    if i > 0 {
      OwnOrForeign(r, i - 1, key, name);
      hide PublishesTo, PublishesOwn, PublishesForeign;
      if PublishesForeign(r, i - 1, key, name) {
        assert IsLastTo(r, i - 1, i, key, slug);
        OnlyOneIsOwn(r, i - 1, key, name);
      } else if !PublishesTo(r, i - 1, key, slug) {
        LastIsOwnIff(r, i - 1, key, name);
        assert forall j | 0 <= j < i - 1 :: IsLastTo(r, j, i, key, slug) <==> IsLastTo(r, j, i - 1, key, slug);
      }
    }
  }

  lemma OnlyOneIsOwn(r: Run, j: nat, key: Key, name: string)
    requires j < |r.events| == |r.outcomes| && PublishesForeign(r, j, key, name)
    ensures !PublishesOwn(r, j, key, name) && PublishesTo(r, j, key, Slug(name))
  {
  }

  /** An environment's manifest and pointer tell of exactly its own publications if and only if
      no publication of another environment with the same slug interferes. */
  lemma TellsOwnIff(r: Run, i: nat, key: Key, name: string)
    requires IsRun(r) && i <= |r.events|
    ensures TellsOwn(r, i, key, name) <==> forall j | 0 <= j < i :: !Interferes(r, j, i, key, name)
  {
    TellsOwnIfSame(r, i, key, name);
    HistoryIsOwnIff(r, i, key, name);
    LastIsOwnIff(r, i, key, name);
    hide IsRun, PublishesForeign, IsLastTo, TellsOwn, LastPublished, OwnLast, History, OwnHistory, Slug;
    if forall j | 0 <= j < i :: !Interferes(r, j, i, key, name) {
      forall j | 0 <= j < i && PublishesForeign(r, j, key, name)
        ensures VersionAt(r, j) in OwnHistory(r, i, key, name)
        ensures IsLastTo(r, j, i, key, Slug(name)) ==> OwnLast(r, i, key, name) == Some(VersionAt(r, j))
      {
        assert !Interferes(r, j, i, key, name);
      }
    }
  }

  lemma TellsOwnIfSame(r: Run, i: nat, key: Key, name: string)
    requires IsRun(r) && i <= |r.events|
    ensures TellsOwn(r, i, key, name) <==>
      && History(r, i, key, Slug(name)) == OwnHistory(r, i, key, name)
      && LastPublished(r, i, key, Slug(name)) == OwnLast(r, i, key, name)
  {
    ManifestIsHistory(r, i, key, Slug(name));
    hide IsRun, Listed, LastPublished, OwnLast, History, OwnHistory, Slug;
  }

  /** No two published environments of the container have one slug: then all is told. */
  lemma DistinctSlugsTellOwn(r: Run, i: nat, key: Key, name: string)
    requires IsRun(r) && i <= |r.events|
    requires forall j | 0 <= j < i && r.outcomes[j].Published? && r.events[j].attempt.key == key
      && r.events[j].attempt.Slug() == Slug(name) ::
      r.events[j].attempt.Name() == name
    ensures TellsOwn(r, i, key, name)
  {
    hide IsRun, TellsOwn, Slug, IsLastTo;
    TellsOwnIff(r, i, key, name);
  }

  /** The run goes on with an attempt whose looks see the tree as it is. */
  function Extended(r: Run, a: Attempt): Run
    requires |r.trees| == |r.events| + 1
  {
    var n := |r.events|;
    var (tree, outcome) := Attempted(r.trees[n], r.trees[n], r.trees[n], a);
    Run(r.events + [Event(a, n, n)], r.trees + [tree], r.outcomes + [outcome])
  }

  lemma ExtendedIsRun(r: Run, a: Attempt)
    requires IsRun(r) && Proper(a)
    ensures IsRun(Extended(r, a))
  {
    hide Attempted, Proper;
    var r' := Extended(r, a);
    forall i | 0 <= i < |r'.events|
      ensures EventAt(r', i)
    {
      if i < |r.events| { assert EventAt(r, i); }
    }
  }

  /** Two configurations of one container are published one after the other. */
  function InTurn(key: Key, one: Config, other: Config, sdk: string, asset: string): Run {
    Extended(Extended(Run([], [map[]], []), Attempt(key, one.containerId, one, sdk, Some(asset))),
             Attempt(key, other.containerId, other, sdk, Some(asset)))
  }

  predicate Publishable(c: Config) { Intact(c) && c.version != "" && Slug(c.environment) != "" }

  /** Both succeed if the second is of another revision, or has the same container id. */
  lemma InTurnPublishes(key: Key, one: Config, other: Config, sdk: string, asset: string)
    requires Publishable(one) && Publishable(other)
    requires one.version != other.version || one.containerId == other.containerId
    ensures var r := InTurn(key, one, other, sdk, asset);
      && IsRun(r) && |r.events| == 2 && r.outcomes == [Published, Published]
      && r.events[0] == Event(Attempt(key, one.containerId, one, sdk, Some(asset)), 0, 0)
      && r.events[1] == Event(Attempt(key, other.containerId, other, sdk, Some(asset)), 1, 1)
      && ConfigPath(key, one.version) in r.trees[1] && r.trees[1][ConfigPath(key, one.version)] == ConfigFile(one)
      && (other.version != one.version ==> ConfigPath(key, other.version) !in r.trees[1])
  {
    var a := Attempt(key, one.containerId, one, sdk, Some(asset));
    var b := Attempt(key, other.containerId, other, sdk, Some(asset));
    var start := Run([], [map[]], []);
    FirstPublishes(key, one, sdk, asset);
    if other.version != one.version { OnlyOneConfig(key, one, sdk, asset, other.version); }
    hide Attempted;
    ExtendedIsRun(start, a);
    ExtendedIsRun(Extended(start, a), b);
    var r := InTurn(key, one, other, sdk, asset);
    PublishSucceedsIff(r, 1);
    hide IsRun, TreeOk;
  }

  lemma OnlyOneConfig(key: Key, one: Config, sdk: string, asset: string, v: string)
    requires Publishable(one) && v != one.version
    ensures var a := Attempt(key, one.containerId, one, sdk, Some(asset));
      ConfigPath(key, v) !in Attempted(map[], map[], map[], a).0
  {
    var a := Attempt(key, one.containerId, one, sdk, Some(asset));
    WritesOnly(map[], ImmutableWrites(a, asset, ConfigFile(one)), ConfigPath(key, v));
    hide WriteAll, Manifest, NewPointer, Slug;
  }

  lemma {:induction false} WritesOnly(tree: Tree, writes: seq<Write>, p: Path)
    requires p !in tree && forall i | 0 <= i < |writes| :: writes[i].path != p
    ensures p !in WriteAll(tree, writes).0
    decreases |writes|
  {
    if writes != [] {
      var w := writes[0];
      WritesOnly(tree, writes[1..], p);
      WritesOnly(tree[w.path := w.file], writes[1..], p);
    }
  }

  /** Two environments of a container whose names have the same slug: whatever the two
      publish, the second publication replaces the pointer of the first environment, adds to
      its manifest, and `verify` has no complaint. */
  lemma OtherEnvironmentOverwrites(key: Key, one: Config, other: Config, sdk: string, asset: string)
    requires Publishable(one) && Publishable(other) && one.version != other.version
    requires one.environment != other.environment && Slug(one.environment) == Slug(other.environment)
    ensures var r := InTurn(key, one, other, sdk, asset);
      && IsRun(r) && |r.events| == 2 && r.outcomes == [Published, Published]
      && OwnLast(r, 2, key, one.environment) == Some(one.version)
      && LastPublished(r, 2, key, Slug(one.environment)) == Some(other.version)
      && PointerOk(r.trees[2], key, Slug(one.environment))
      && !TellsOwn(r, 2, key, one.environment) && !TellsOwn(r, 2, key, other.environment)
      && forall issue :: !Reported(r.trees[2], issue)
  {
    InTurnPublishes(key, one, other, sdk, asset);
    var r := InTurn(key, one, other, sdk, asset);
    hide InTurn, Attempted, Slug, Intact;
    ManifestIsHistory(r, 2, key, Slug(one.environment));
    TellsOwnIff(r, 2, key, one.environment);
    TellsOwnIff(r, 2, key, other.environment);
    hide IsRun, TellsOwn, PointerOk, ManifestTells;
    OwnOfTwo(r, key, one.environment);
    OwnOfTwo(r, key, other.environment);
    assert Interferes(r, 1, 2, key, one.environment);
    assert Interferes(r, 0, 2, key, other.environment);
    assert TookLock(r, 0);
    forall issue { VerifyAcceptsOnceLocked(r, 2, issue); }
  }

  lemma OwnOfTwo(r: Run, key: Key, name: string)
    requires |r.events| == |r.outcomes| == 2
    ensures OwnHistory(r, 2, key, name) ==
      (if PublishesOwn(r, 0, key, name) then {VersionAt(r, 0)} else {})
      + (if PublishesOwn(r, 1, key, name) then {VersionAt(r, 1)} else {})
    ensures OwnLast(r, 2, key, name) ==
      if PublishesOwn(r, 1, key, name) then Some(VersionAt(r, 1))
      else if PublishesOwn(r, 0, key, name) then Some(VersionAt(r, 0)) else None
  {
    assert OwnHistory(r, 0, key, name) == {} && OwnLast(r, 0, key, name) == None;
    hide PublishesOwn;
    assert OwnHistory(r, 1, key, name) == if PublishesOwn(r, 0, key, name) then {VersionAt(r, 0)} else {};
    assert OwnLast(r, 1, key, name) == if PublishesOwn(r, 0, key, name) then Some(VersionAt(r, 0)) else None;
  }

  /** Such names exist, and one container may have both. */
  lemma TwoNamesOneSlug()
    ensures Slug("Prod EU") == Slug("Prod-EU") != "" && ControlPlane.Fold("Prod EU") != ControlPlane.Fold("Prod-EU")
  {
    SeparatorsDoNotCount("Prod EU", "Prod-EU");
    SlugShape("Prod EU");
    assert IsLetterOrDigit("Prod EU"[0]);
    assert ControlPlane.Fold("Prod EU")[4] == ' ' && ControlPlane.Fold("Prod-EU")[4] == '-';
  }

  /** Which environment a published pointer and manifest call themselves: the one published,
      unless the revision had before been seen published for an environment of another name,
      whose configuration is then reused. */
  lemma PointerNamesIff(r: Run, i: nat)
    requires IsRun(r) && i < |r.events| && r.outcomes[i].Published?
    ensures EventAt(r, i)
    ensures var e := r.events[i];
      var a, after, first := e.attempt, r.trees[i + 1], r.trees[e.first];
      var latest, manifest := LatestPath(a.key, a.Slug()), ManifestPath(a.key, a.Slug());
      var path := ConfigPath(a.key, a.built.version);
      && latest in after && after[latest].LatestFile? && manifest in after && after[manifest].ManifestFile?
      && after[latest].pointer.environment == after[manifest].environment
      && (path in first ==> first[path].ConfigFile?)
      && (after[latest].pointer.environment == a.Name() <==>
            (path in first ==> first[path].config.environment == a.Name()))
  {
    assert EventAt(r, i);
    var e := r.events[i];
    RunKeepsTree(r, e.first);
    hide IsRun, ShasOk, EnvironmentsOk, WriteAll, ImmutableWrites, Slug;
  }

  /** One revision, published for one environment and then for another: the second
      environment's pointer carries the name of the first. */
  lemma PromotedKeepsName(key: Key, one: Config, other: Config, sdk: string, asset: string)
    requires Publishable(one) && Publishable(other) && one.version == other.version
    requires one.containerId == other.containerId && one.environment != other.environment
    ensures var r := InTurn(key, one, other, sdk, asset);
      var latest := LatestPath(key, Slug(other.environment));
      && IsRun(r) && r.outcomes == [Published, Published]
      && latest in r.trees[2] && r.trees[2][latest].LatestFile?
      && r.trees[2][latest].pointer.environment != other.environment
  {
    InTurnPublishes(key, one, other, sdk, asset);
    hide InTurn, Slug;
    var r := InTurn(key, one, other, sdk, asset);
    PointerNamesIff(r, 1);
  }
}
