/** Import and clone against the store, and what they preserve. */
module Clone {
  import opened Wrappers
  import opened Config
  import opened ControlPlane
  import opened Transfer

  datatype ImportReply = Imported(count: nat) | AlreadyPresent | DocumentRejected | KeyTaken | WriteFailed

  type Store = map<string, Container>

  function Fingerprints(rs: seq<Revision>): seq<(nat, Checksum)> {
    seq(|rs|, i requires 0 <= i < |rs| => (rs[i].number, rs[i].checksum))
  }

  function StoreKey(doc: Document, asId: Option<string>): string {
    Fold(if asId.Some? then asId.value else doc.containerId)
  }

  /** Revisions that can be saved one after the other into an empty container. */
  predicate Storable(rs: seq<Revision>, id: string) {
    && (forall i | 0 <= i < |rs| :: Verified(rs[i]) && rs[i].containerId == id)
    && (forall i, j | 0 <= i < j < |rs| :: rs[i].version != rs[j].version)
  }

  /** Saving one container, its revisions (each under a path that must not exist yet) and its
      environments.  A write that fails, at `failAt` or for a reason of its own, removes the
      whole container again. */
  method WriteContainer(store: Store, key: string, id: string, rs: seq<Revision>, es: seq<Environment>,
                        failAt: Option<nat>)
    returns (store': Store, ok: bool)
    requires key !in store
    ensures !ok ==> store' == store
    ensures ok ==> store' == store[key := Container(id, RevisionMap(rs), EnvironmentMap(es), map[])]
    ensures failAt.None? && Storable(rs, id) && AllIn(es, id) ==> ok
  {
    if failAt == Some(0) { return store, false; }
    var partial := Container(id, map[], map[], map[]);
    store' := store[key := partial];
    assert rs[..0] == [] && es[..0] == [];
    for i := 0 to |rs|
      invariant partial == Container(id, RevisionMap(rs[..i]), map[], map[]) && store' == store[key := partial]
    {
      VersionsOf(rs[..i]);
      if failAt == Some(1 + i) || rs[i].containerId != id || !Verified(rs[i]) || rs[i].version in partial.revisions {
        assert store' - {key} == store;
        return store' - {key}, false;
      }
      assert rs[..i + 1][..i] == rs[..i];
      partial := partial.(revisions := partial.revisions[rs[i].version := rs[i]]);
      store' := store[key := partial];
    }
    assert rs[..|rs|] == rs;
    for i := 0 to |es|
      invariant partial == Container(id, RevisionMap(rs), EnvironmentMap(es[..i]), map[])
      invariant store' == store[key := partial]
    {
      if failAt == Some(1 + |rs| + i) || es[i].containerId != id {
        assert store' - {key} == store;
        return store' - {key}, false;
      }
      assert es[..i + 1][..i] == es[..i];
      partial := partial.(environments := partial.environments[es[i].id := es[i]]);
      store' := store[key := partial];
    }
    assert es[..|es|] == es;
    ok := true;
  }

  lemma VersionsOf(rs: seq<Revision>)
    ensures forall v | v in RevisionMap(rs) :: exists i | 0 <= i < |rs| :: rs[i].version == v
  {
  }

  /** The document can be imported: it parses and, for a copy, parents precede children. */
  predicate Importable(doc: Document, asId: Option<string>, sorted: seq<Revision>) {
    RevisionsOk(doc) && EnvironmentsOk(doc) && (asId.None? || ParentsPrecede(sorted))
  }

  /** The stored revisions, listed in order, have the document's fingerprints. */
  ghost predicate SameFingerprints(c: Container, sorted: seq<Revision>) {
    exists existing :: Lists(existing, c.revisions) && SortedByNumber(existing)
      && Fingerprints(existing) == Fingerprints(sorted)
  }

  /** ... or do not. */
  ghost predicate OtherFingerprints(c: Container, sorted: seq<Revision>) {
    exists existing :: Lists(existing, c.revisions) && SortedByNumber(existing)
      && Fingerprints(existing) != Fingerprints(sorted)
  }

  /** `import_container`.  `base` is the first unused id. */
  method Import(store: Store, doc: Document, asId: Option<string>, base: Id, failAt: Option<nat>)
    returns (store': Store, reply: ImportReply, ghost sorted: seq<Revision>, ghost f: map<Id, Id>)
    requires forall k | k in store :: Keyed(store[k])
    ensures !reply.Imported? ==> store' == store
    ensures SortedByNumber(sorted) && multiset(sorted) == multiset(doc.revisions)
    ensures reply.Imported? ==>
      reply == Imported(|doc.revisions|) && ImportedAs(store, doc, asId, base, store', sorted, f)
    ensures reply.Imported? ==> Importable(doc, asId, sorted)
    ensures Importable(doc, asId, sorted) && StoreKey(doc, asId) !in store && failAt.None? ==> reply.Imported?
    ensures !RevisionsOk(doc) || !EnvironmentsOk(doc) ==> reply == DocumentRejected
    ensures reply == AlreadyPresent ==>
      asId.None? && StoreKey(doc, asId) in store && SameFingerprints(store[StoreKey(doc, asId)], sorted)
    ensures RevisionsOk(doc) && EnvironmentsOk(doc) && StoreKey(doc, asId) in store ==>
      || reply == AlreadyPresent
      || (reply == KeyTaken && (asId.Some? || OtherFingerprints(store[StoreKey(doc, asId)], sorted)))
  {
    hide Fold, RevisionsOk, EnvironmentsOk, StoreKey, ImportedAs, SameFingerprints, OtherFingerprints, ParentsPrecede,
         Keyed;
    var rs, ok;
    ok, rs := ParseRevisions(doc);
    sorted, f, store' := rs, map[], store;
    if !ok { return store, DocumentRejected, rs, map[]; }
    ok := ParseEnvironments(doc);
    if !ok { return store, DocumentRejected, rs, map[]; }
    var key := StoreKey(doc, asId);
    if key in store {
      if asId.Some? { return store, KeyTaken, rs, map[]; }
      reply := CompareFingerprints(store[key], rs);
      return;
    }
    store', reply, f := ImportNew(store, key, doc, rs, asId, base, failAt);
  }

  method CompareFingerprints(c: Container, sorted: seq<Revision>) returns (reply: ImportReply)
    requires Keyed(c)
    ensures reply == AlreadyPresent || reply == KeyTaken
    ensures reply == AlreadyPresent ==> SameFingerprints(c, sorted)
    ensures reply == KeyTaken ==> OtherFingerprints(c, sorted)
  {
    hide Lists, Fingerprints;
    var existing := ListRevisions(c);
    reply := if Fingerprints(existing) == Fingerprints(sorted) then AlreadyPresent else KeyTaken;
  }

  /** The import of a parsed document under an id that is free. */
  method ImportNew(store: Store, key: string, doc: Document, rs: seq<Revision>, asId: Option<string>, base: Id,
                   failAt: Option<nat>)
    returns (store': Store, reply: ImportReply, ghost f: map<Id, Id>)
    requires key == StoreKey(doc, asId) && key !in store && RevisionsOk(doc) && EnvironmentsOk(doc)
    requires multiset(rs) == multiset(doc.revisions)
    ensures !reply.Imported? ==> store' == store && reply in {DocumentRejected, WriteFailed}
    ensures reply.Imported? ==> reply == Imported(|doc.revisions|) && ImportedAs(store, doc, asId, base, store', rs, f)
    ensures reply.Imported? ==> Importable(doc, asId, rs)
    ensures Importable(doc, asId, rs) && failAt.None? ==> reply.Imported?
  {
    hide Fold, RevisionsOk, Verified, FreshMap, CopiedRevision, CopiedEnvironment, ParentsPrecede, RevisionMap,
         EnvironmentMap;
    SortedKeepsOk(doc, rs);
    assert |rs| == |multiset(rs)| == |multiset(doc.revisions)| == |doc.revisions|;
    f := map[];
    var ok;
    if asId.None? {
      store', ok := WriteContainer(store, key, doc.containerId, rs, doc.environments, failAt);
    } else {
      var copies, g;
      copies, g, ok := RemapRevisions(rs, asId.value, base);
      if !ok { return store, DocumentRejected, f; }
      f := g;
      FreshKeys(rs, g, base);
      var environments := RemapEnvironments(doc.environments, asId.value, g, base + |rs|);
      CopiesAreFresh(rs, copies, asId.value, g, base);
      store', ok := WriteContainer(store, key, asId.value, copies, environments, failAt);
      assert CopiedLists(doc, asId.value, base, rs, f, copies, environments);
    }
    reply := if ok then Imported(|rs|) else WriteFailed;
  }

  /** What a successful import stored: the document itself, or its copy under new ids. */
  ghost predicate ImportedAs(store: Store, doc: Document, asId: Option<string>, base: Id, store': Store,
                             sorted: seq<Revision>, f: map<Id, Id>) {
    StoreKey(doc, asId) !in store &&
    if asId.None? then
      store' == store[StoreKey(doc, asId) := Container(doc.containerId, RevisionMap(sorted),
                                                       EnvironmentMap(doc.environments), map[])]
    else exists copies, environments ::
      CopiedLists(doc, asId.value, base, sorted, f, copies, environments)
      && store' == store[StoreKey(doc, asId) := Container(asId.value, RevisionMap(copies), EnvironmentMap(environments),
                                                          map[])]
  }

  ghost predicate CopiedLists(doc: Document, id: string, base: Id, sorted: seq<Revision>, f: map<Id, Id>,
                              copies: seq<Revision>, environments: seq<Environment>) {
    && FreshMap(sorted, f, base)
    && |copies| == |sorted| && (forall i | 0 <= i < |sorted| :: CopiedRevision(sorted[i], copies[i], id, f))
    && |environments| == |doc.environments| && AllIn(environments, id)
    && forall i | 0 <= i < |environments| ::
         CopiedEnvironment(doc.environments[i], environments[i], base + |sorted| + i, f)
  }

  /** Sorting a parsed document keeps its versions, and keeps them distinct. */
  lemma SortedKeepsOk(doc: Document, sorted: seq<Revision>)
    requires RevisionsOk(doc) && multiset(sorted) == multiset(doc.revisions)
    ensures Storable(sorted, doc.containerId) && Versions(sorted) == Versions(doc.revisions)
  {
    SameMembers(sorted, doc.revisions);
    SameMembers(doc.revisions, sorted);
    forall i | 0 <= i < |sorted|
      ensures Verified(sorted[i]) && sorted[i].containerId == doc.containerId
    {
      var j :| 0 <= j < |doc.revisions| && doc.revisions[j] == sorted[i];
    }
    DistinctByCount(sorted, doc.revisions);
  }

  lemma SameMembers(a: seq<Revision>, b: seq<Revision>)
    requires multiset(a) == multiset(b)
    ensures forall i | 0 <= i < |a| :: a[i] in b
    ensures Versions(a) <= Versions(b)
  {
    forall i | 0 <= i < |a|
      ensures a[i] in b
    {
      assert a[i] in multiset(a);
    }
  }

  lemma {:induction false} VersionsNotMore(rs: seq<Revision>)
    ensures |Versions(rs)| <= |rs|
  {
    if rs != [] {
      var front, last := rs[..|rs| - 1], rs[|rs| - 1];
      assert rs == front + [last];
      VersionsNotMore(front);
      assert Versions(rs) == Versions(front) + {last.version};
    }
  }

  lemma {:induction false} DistinctCount(rs: seq<Revision>)
    requires forall i, j | 0 <= i < j < |rs| :: rs[i].version != rs[j].version
    ensures |Versions(rs)| == |rs|
  {
    if rs != [] {
      var front, last := rs[..|rs| - 1], rs[|rs| - 1];
      assert rs == front + [last];
      DistinctCount(front);
      assert Versions(rs) == Versions(front) + {last.version};
      assert last.version !in Versions(front);
    }
  }

  lemma RepeatedVersionCountsOnce(rs: seq<Revision>, i: nat, j: nat)
    requires i < j < |rs| && rs[i].version == rs[j].version
    ensures |Versions(rs)| < |rs|
  {
    var shorter := rs[..j] + rs[j + 1..];
    VersionsNotMore(shorter);
    forall v | v in Versions(rs)
      ensures v in Versions(shorter)
    {
      var k :| 0 <= k < |rs| && rs[k].version == v;
      if k < j { assert shorter[k] == rs[k]; }
      else if k == j { assert shorter[i] == rs[i]; }
      else { assert shorter[k - 1] == rs[k]; }
    }
    assert Versions(shorter) == Versions(rs) + (Versions(shorter) - Versions(rs));
  }

  /** As many versions as entries means that no version repeats. */
  lemma FullCountIsDistinct(rs: seq<Revision>)
    requires |Versions(rs)| == |rs|
    ensures forall i, j | 0 <= i < j < |rs| :: rs[i].version != rs[j].version
  {
    forall i, j | 0 <= i < j < |rs|
      ensures rs[i].version != rs[j].version
    {
      if rs[i].version == rs[j].version { RepeatedVersionCountsOnce(rs, i, j); }
    }
  }

  lemma DistinctByCount(sorted: seq<Revision>, rs: seq<Revision>)
    requires multiset(sorted) == multiset(rs)
    requires forall i, j | 0 <= i < j < |rs| :: rs[i].version != rs[j].version
    ensures forall i, j | 0 <= i < j < |sorted| :: sorted[i].version != sorted[j].version
  {
    SameMembers(sorted, rs);
    SameMembers(rs, sorted);
    assert |sorted| == |multiset(sorted)| == |multiset(rs)| == |rs|;
    DistinctCount(rs);
    assert Versions(sorted) == Versions(rs);
    FullCountIsDistinct(sorted);
  }

  lemma CopiesAreFresh(rs: seq<Revision>, copies: seq<Revision>, id: string, f: map<Id, Id>, base: Id)
    requires FreshMap(rs, f, base) && |copies| == |rs| && forall i | 0 <= i < |rs| ::
      CopiedRevision(rs[i], copies[i], id, f)
    ensures Storable(copies, id) && forall i | 0 <= i < |copies| :: copies[i].version == base + i
  {
    forall i | 0 <= i < |copies|
      ensures Verified(copies[i]) && copies[i].containerId == id && copies[i].version == base + i
    {
      assert CopiedRevision(rs[i], copies[i], id, f);
    }
  }
}
