/** What an import under a new id stores, and when that is healthy. */
module CopiedImport {
  import opened Wrappers
  import opened Config
  import opened ControlPlane
  import opened ControlPlaneInvariant
  import opened Transfer
  import opened Clone
  import opened CloneProperties
  import opened PlainImport

  /** The copy of an accepted document is well formed. */
  lemma CopiedDocument(doc: Document, id: string, base: Id, sorted: seq<Revision>, f: map<Id, Id>,
                       copies: seq<Revision>, environments: seq<Environment>)
    requires Accepted(doc, sorted) && CopiedLists(doc, id, base, sorted, f, copies, environments)
    ensures var c' := Container(id, RevisionMap(copies), EnvironmentMap(environments), map[]);
      WellFormed(c') && RevisionsCopied(StoredAs(doc, sorted).revisions, c'.revisions, id, f)
  {
    hide Accepted, FreshMap, CopiedRevision, CopiedEnvironment, RevisionMap, EnvironmentMap, RevisionsCopied,
         RevisionsKept, EnvironmentsKept, AllIn;
    var c, c' := StoredAs(doc, sorted), Container(id, RevisionMap(copies), EnvironmentMap(environments), map[]);
    AcceptedSorted(doc, sorted);
    StoredRevisionsKept(doc, sorted);
    CopiedRevisionsAre(c, sorted, copies, id, f, base);
    CopyKeepsRevisions(c, c', id, f);
    CopiedDocumentEnvironments(doc, id, base + |sorted|, sorted, f, c', environments);
  }

  lemma CopiedDocumentEnvironments(doc: Document, id: string, base: Id, sorted: seq<Revision>, f: map<Id, Id>,
                                   c': Container, environments: seq<Environment>)
    requires Accepted(doc, sorted) && c'.containerId == id && c'.environments == EnvironmentMap(environments)
    requires RevisionsCopied(StoredAs(doc, sorted).revisions, c'.revisions, id, f)
    requires |environments| == |doc.environments| && AllIn(environments, id)
    requires forall i | 0 <= i < |environments| :: CopiedEnvironment(doc.environments[i], environments[i], base + i, f)
    ensures EnvironmentsKept(c')
    ensures forall i | 0 <= i < |environments| ::
      environments[i].id in c'.environments && c'.environments[environments[i].id] == environments[i]
  {
    hide Accepted, RevisionMap, EnvironmentMap, RevisionsCopied, CopiedEnvironment, Fold, EnvironmentKept;
    CopiedIds(doc.environments, environments, f, base);
    forall i | 0 <= i < |environments|
      ensures environments[i].id in c'.environments && c'.environments[environments[i].id] == environments[i]
    {
      EnvironmentMapAt(environments, i);
    }
    EnvironmentKeys(environments);
    forall k | k in c'.environments
      ensures EnvironmentKept(c', c'.environments[k], k)
    {
      var i := EnvironmentIndex(environments, k);
      CopiedDocumentEnvironment(doc, id, sorted, f, c', i, environments[i], k);
    }
    forall j, k | j in c'.environments && k in c'.environments
      && Fold(c'.environments[j].name) == Fold(c'.environments[k].name)
      ensures j == k
    {
      var a := EnvironmentIndex(environments, j);
      var b := EnvironmentIndex(environments, k);
      CopiedName(doc.environments[a], environments[a], base + a, f);
      CopiedName(doc.environments[b], environments[b], base + b, f);
      AcceptedEnvironment(doc, sorted, b);
    }
  }

  lemma AcceptedEnvironment(doc: Document, sorted: seq<Revision>, i: nat)
    requires Accepted(doc, sorted) && i < |doc.environments|
    ensures var e := doc.environments[i];
      Known(StoredAs(doc, sorted), e.current) && Known(StoredAs(doc, sorted), e.previous)
    ensures forall j | 0 <= j < |doc.environments|
      && Fold(doc.environments[j].name) == Fold(doc.environments[i].name) ::
      j == i
  {
    hide Fold, RevisionMap, Versions, EnvironmentsOk, RevisionsOk, SortedByNumber, RevisionsKept;
    StoredRevisionsKept(doc, sorted);
    EnvironmentMember(doc, i);
  }

  lemma CopiedDocumentEnvironment(doc: Document, id: string, sorted: seq<Revision>, f: map<Id, Id>,
                                  c': Container, i: nat, copy: Environment, k: Id)
    requires Accepted(doc, sorted) && i < |doc.environments| && CopiedEnvironment(doc.environments[i], copy, k, f)
    requires RevisionsCopied(StoredAs(doc, sorted).revisions, c'.revisions, id, f) && copy.containerId == c'.containerId
    ensures EnvironmentKept(c', copy, k)
  {
    hide *;
    AcceptedEnvironmentKept(doc, sorted, i);
    CopyKeepsEnvironment(StoredAs(doc, sorted), c', id, f, doc.environments[i], copy, doc.environments[i].id, k);
  }

  lemma AcceptedEnvironmentKept(doc: Document, sorted: seq<Revision>, i: nat)
    requires Accepted(doc, sorted) && i < |doc.environments|
    ensures EnvironmentKept(StoredAs(doc, sorted), doc.environments[i], doc.environments[i].id)
  {
    AcceptedEnvironment(doc, sorted, i);
    EnvironmentMember(doc, i);
    hide RevisionMap, EnvironmentMap, Known, PointerKnown;
  }

  /** The container that copies of an accepted document's revisions and environments make. */
  function CopyOf(id: string, copies: seq<Revision>, environments: seq<Environment>): Container {
    Container(id, RevisionMap(copies), EnvironmentMap(environments), map[])
  }

  lemma CopiesListed(sorted: seq<Revision>, copies: seq<Revision>, id: string, f: map<Id, Id>, base: Id)
    requires SortedByNumber(sorted) && FreshMap(sorted, f, base) && |copies| == |sorted|
    requires forall i | 0 <= i < |sorted| :: CopiedRevision(sorted[i], copies[i], id, f)
    ensures Lists(copies, RevisionMap(copies)) && SortedByNumber(copies)
    ensures forall i | 0 <= i < |copies| :: copies[i].version == base + i
  {
    hide Lists, FreshMap, RevisionMap, Verified;
    CopiesAreFresh(sorted, copies, id, f, base);
    DistinctLists(copies);
  }

  lemma CopiedParent(r: Revision, copy: Revision, id: string, f: map<Id, Id>, before: Option<Id>)
    requires CopiedRevision(r, copy, id, f) && Injective(f) && (before.Some? ==> before.value in f)
    requires copy.parent == if before.Some? then Some(f[before.value]) else None
    ensures r.parent == before && r.number == copy.number
  {
  }

  /** If the copies are a chain, so were the originals. */
  lemma CopiedChainWasChain(sorted: seq<Revision>, c': Container, copies: seq<Revision>, f: map<Id, Id>, base: Id)
    requires SortedByNumber(sorted) && FreshMap(sorted, f, base) && |copies| == |sorted|
    requires forall i | 0 <= i < |sorted| :: CopiedRevision(sorted[i], copies[i], c'.containerId, f)
    requires c'.revisions == RevisionMap(copies) && Linear(c')
    ensures IsChainDocument(sorted)
  {
    hide Lists, FreshMap, RevisionMap, Verified, CopiedRevision, SortedByNumber, IsChain, Injective;
    CopiesListed(sorted, copies, c'.containerId, f, base);
    FreshMapInjective(sorted, f, base);
    var order :| IsChain(c', order);
    ListedIsChain(c', copies, order);
    forall i | 0 <= i < |sorted|
      ensures sorted[i].number == i + 1 && sorted[i].parent == VersionBefore(sorted, i)
    {
      ListedAt(c', copies, order, i);
      if i > 0 { FreshMapAt(sorted, f, base, i - 1); }
      CopiedParent(sorted[i], copies[i], c'.containerId, f, VersionBefore(sorted, i));
    }
  }

  /** A copied pointer names a revision that validates exactly when the original does. */
  lemma CopiedPointerIff(rules: Rules, c: Container, c': Container, id: string, f: map<Id, Id>, pointer: Option<Id>)
    requires RevisionsCopied(c.revisions, c'.revisions, id, f) && (pointer.Some? ==> pointer.value in f)
    ensures PointsToSound(rules, c, pointer) <==> PointsToSound(rules, c', MapParent(pointer, f))
  {
    hide Sound, RevisionsCopied;
    if pointer.Some? {
      RevisionsCopiedCount(c.revisions, c'.revisions, id, f);
      RevisionsCopiedAt(c.revisions, c'.revisions, id, f, pointer.value);
    }
  }

  lemma CopiedPointersIff(rules: Rules, c: Container, c': Container, id: string, f: map<Id, Id>, e: Environment,
                          copy: Environment, k: Id)
    requires RevisionsCopied(c.revisions, c'.revisions, id, f) && CopiedEnvironment(e, copy, k, f)
    ensures PointersOk(rules, c, e) <==> PointersOk(rules, c', copy)
  {
    hide PointsToSound, RevisionsCopied;
    CopiedPointerIff(rules, c, c', id, f, e.current);
    CopiedPointerIff(rules, c, c', id, f, e.previous);
    if e.current.Some? && e.previous.Some? && e.current != e.previous {
      RevisionsCopiedCount(c.revisions, c'.revisions, id, f);
      RevisionsCopiedApart(c.revisions, c'.revisions, id, f, e.current.value, e.previous.value);
    }
  }

  lemma CopyLinearIff(doc: Document, id: string, base: Id, sorted: seq<Revision>, f: map<Id, Id>,
                      copies: seq<Revision>, environments: seq<Environment>)
    requires Accepted(doc, sorted) && CopiedLists(doc, id, base, sorted, f, copies, environments)
    ensures Linear(CopyOf(id, copies, environments)) <==> IsChainDocument(sorted)
  {
    hide RevisionsOk, EnvironmentsOk, FreshMap, CopiedRevision, CopiedEnvironment, RevisionMap, EnvironmentMap,
         WellFormed, RevisionsCopied, IsChainDocument, AllIn, IsChain, SortedByNumber;
    var c, c' := StoredAs(doc, sorted), CopyOf(id, copies, environments);
    CopiedDocument(doc, id, base, sorted, f, copies, environments);
    if Linear(c') { CopiedChainWasChain(sorted, c', copies, f, base); }
    if IsChainDocument(sorted) {
      LinearIff(doc, sorted);
      var order :| IsChain(c, order);
      CopiedChain(c, c', id, f, order);
    }
  }

  lemma CopyPointersIff(rules: Rules, doc: Document, id: string, base: Id, sorted: seq<Revision>, f: map<Id, Id>,
                        copies: seq<Revision>, environments: seq<Environment>)
    requires Accepted(doc, sorted) && CopiedLists(doc, id, base, sorted, f, copies, environments)
    ensures AllPointersOk(rules, CopyOf(id, copies, environments)) <==>
      forall i | 0 <= i < |doc.environments| :: DocumentPointers(rules, doc, doc.environments[i])
  {
    hide Accepted, FreshMap, CopiedRevision, CopiedEnvironment, RevisionMap, EnvironmentMap, WellFormed,
         RevisionsCopied, AllIn, PointersOk, DocumentPointers;
    var c, c' := StoredAs(doc, sorted), CopyOf(id, copies, environments);
    CopiedDocument(doc, id, base, sorted, f, copies, environments);
    CopiedIds(doc.environments, environments, f, base + |sorted|);
    EnvironmentKeys(environments);
    forall i | 0 <= i < |environments|
      ensures environments[i].id in c'.environments && c'.environments[environments[i].id] == environments[i]
      ensures PointersOk(rules, c', environments[i]) <==> DocumentPointers(rules, doc, doc.environments[i])
    {
      EnvironmentMapAt(environments, i);
      DocumentPointersStored(rules, doc, sorted, i);
      CopiedPointersIff(rules, c, c', id, f, doc.environments[i], environments[i], base + |sorted| + i);
    }
    if !AllPointersOk(rules, c') {
      var k :| k in c'.environments && !PointersOk(rules, c', c'.environments[k]);
      var i := EnvironmentIndex(environments, k);
    }
  }

  lemma DocumentPointersStored(rules: Rules, doc: Document, sorted: seq<Revision>, i: nat)
    requires Accepted(doc, sorted) && i < |doc.environments|
    ensures PointersOk(rules, StoredAs(doc, sorted), doc.environments[i]) <==>
      DocumentPointers(rules, doc, doc.environments[i])
  {
    PointerIff(rules, doc, sorted, doc.environments[i].current);
    PointerIff(rules, doc, sorted, doc.environments[i].previous);
    hide Accepted, StoredAs, PointsToSound, DocumentPointer;
  }

  /** Which accepted documents give a healthy container under a new id: those whose revisions
      form a chain numbered from one, and all of whose environments have pointers to revisions
      that validate, for under its new id every environment stays. */
  lemma CopyHealthyIff(rules: Rules, doc: Document, id: string, base: Id, sorted: seq<Revision>, f: map<Id, Id>,
                       copies: seq<Revision>, environments: seq<Environment>)
    requires Accepted(doc, sorted) && CopiedLists(doc, id, base, sorted, f, copies, environments)
    ensures Healthy(rules, CopyOf(id, copies, environments)) <==>
      && IsChainDocument(sorted)
      && forall i | 0 <= i < |doc.environments| :: DocumentPointers(rules, doc, doc.environments[i])
  {
    CopyLinearIff(doc, id, base, sorted, f, copies, environments);
    CopyPointersIff(rules, doc, id, base, sorted, f, copies, environments);
    hide Accepted, CopiedLists, CopyOf, Linear, AllPointersOk, IsChainDocument, DocumentPointers;
  }

  /** The sorted list of a parsed document's revisions is unique. */
  lemma SortedIsUnique(doc: Document, sorted: seq<Revision>, other: seq<Revision>)
    requires Accepted(doc, sorted) && SortedByNumber(other) && multiset(other) == multiset(doc.revisions)
    ensures other == sorted
  {
    hide RevisionsOk, EnvironmentsOk, SortedByNumber, RevisionMap, RevisionsKept, Storable;
    AcceptedSorted(doc, sorted);
    StoredRevisionsKept(doc, sorted);
    PermutationLists(sorted, other, RevisionMap(sorted));
    ListingIsUnique(StoredAs(doc, sorted), other, sorted);
  }

  /** The environment is still there once the document is imported: under a new id all of them
      are, and in a plain import the last one with each id. */
  predicate Remains(doc: Document, asId: Option<string>, i: nat)
    requires i < |doc.environments|
  {
    asId.Some? || LastWithId(doc.environments, i)
  }

  /** The revisions of the document are a chain numbered from one, and the pointers of the
      environments that remain name revisions that validate. */
  ghost predicate GoodDocument(rules: Rules, doc: Document, asId: Option<string>) {
    && (forall sorted | SortedByNumber(sorted) && multiset(sorted) == multiset(doc.revisions) ::
           IsChainDocument(sorted))
    && forall i | 0 <= i < |doc.environments| && Remains(doc, asId, i) ::
         DocumentPointers(rules, doc, doc.environments[i])
  }

  lemma GoodIff(rules: Rules, doc: Document, asId: Option<string>, sorted: seq<Revision>)
    requires Accepted(doc, sorted)
    ensures GoodDocument(rules, doc, asId) <==>
      && IsChainDocument(sorted)
      && forall i | 0 <= i < |doc.environments| && Remains(doc, asId, i) ::
           DocumentPointers(rules, doc, doc.environments[i])
  {
    forall other | SortedByNumber(other) && multiset(other) == multiset(doc.revisions)
      ensures other == sorted
    {
      SortedIsUnique(doc, sorted, other);
    }
    hide RevisionsOk, EnvironmentsOk, SortedByNumber, IsChainDocument, DocumentPointers, Remains;
  }
}
