/** What a plain import stores, and when that is healthy. */
module PlainImport {
  import opened Wrappers
  import opened Config
  import opened ControlPlane
  import opened ControlPlaneInvariant
  import opened Transfer
  import opened Clone
  import opened CloneProperties

  /** The container an accepted document is stored as. */
  function StoredAs(doc: Document, sorted: seq<Revision>): Container {
    Container(doc.containerId, RevisionMap(sorted), EnvironmentMap(doc.environments), map[])
  }

  ghost predicate Accepted(doc: Document, sorted: seq<Revision>) {
    RevisionsOk(doc) && EnvironmentsOk(doc) && SortedByNumber(sorted) && multiset(sorted) == multiset(doc.revisions)
  }

  lemma DistinctLists(rs: seq<Revision>)
    requires forall i, j | 0 <= i < j < |rs| :: rs[i].version != rs[j].version
    ensures Lists(rs, RevisionMap(rs))
  {
    forall i | 0 <= i < |rs|
      ensures rs[i].version in RevisionMap(rs) && RevisionMap(rs)[rs[i].version] == rs[i]
    {
      RevisionMapAt(rs, i);
    }
    KeysAreVersions(rs);
    DistinctCount(rs);
    assert |RevisionMap(rs)| == |RevisionMap(rs).Keys|;
    hide RevisionMap;
    forall v | v in RevisionMap(rs)
      ensures HasVersion(rs, v)
    {
      assert v in Versions(rs);
    }
  }

  /** What the parser has checked, seen on the sorted list. */
  lemma AcceptedSorted(doc: Document, sorted: seq<Revision>)
    requires Accepted(doc, sorted)
    ensures Storable(sorted, doc.containerId) && Versions(sorted) == Versions(doc.revisions)
    ensures Lists(sorted, RevisionMap(sorted))
    ensures forall i | 0 <= i < |sorted| :: sorted[i] in doc.revisions
  {
    hide RevisionsOk, EnvironmentsOk, SortedByNumber;
    SortedKeepsOk(doc, sorted);
    SameMembers(sorted, doc.revisions);
    DistinctLists(sorted);
  }

  lemma MemberOk(doc: Document, r: Revision)
    requires RevisionsOk(doc) && r in doc.revisions
    ensures Verified(r) && r.number >= 1 && r.containerId == doc.containerId
    ensures r.parent.Some? ==> r.parent.value in Versions(doc.revisions)
    ensures forall q | q in doc.revisions && q.number == r.number :: q == r
  {
    hide Verified, Versions;
  }

  lemma StoredRevision(doc: Document, sorted: seq<Revision>, v: Id)
    requires Accepted(doc, sorted) && v in RevisionMap(sorted)
    ensures RevisionMap(sorted)[v] in doc.revisions && RevisionMap(sorted)[v].version == v
  {
    hide Accepted, RevisionMap;
    AcceptedSorted(doc, sorted);
    var i := ListedIndex(sorted, RevisionMap(sorted), v);
  }

  lemma StoredRevisionsKept(doc: Document, sorted: seq<Revision>)
    requires Accepted(doc, sorted)
    ensures RevisionsKept(StoredAs(doc, sorted)) && RevisionMap(sorted).Keys == Versions(doc.revisions)
  {
    hide RevisionsOk, EnvironmentsOk, SortedByNumber, RevisionMap, Verified, Versions;
    AcceptedSorted(doc, sorted);
    KeysAreVersions(sorted);
    var c := StoredAs(doc, sorted);
    forall v | v in c.revisions
      ensures RevisionKept(c, c.revisions[v], v)
    {
      StoredRevision(doc, sorted, v);
      MemberOk(doc, c.revisions[v]);
    }
    forall u, v | u in c.revisions && v in c.revisions && c.revisions[u].number == c.revisions[v].number
      ensures u == v
    {
      StoredRevision(doc, sorted, u);
      StoredRevision(doc, sorted, v);
      MemberOk(doc, c.revisions[v]);
    }
  }

  /** The last environment of the document with its id: the one that stays. */
  predicate LastWithId(es: seq<Environment>, i: nat)
    requires i < |es|
  {
    forall j | i < j < |es| :: es[j].id != es[i].id
  }

  lemma {:induction false} StoredEnvironment(es: seq<Environment>, k: Id) returns (i: nat)
    requires k in EnvironmentMap(es)
    ensures i < |es| && es[i].id == k && LastWithId(es, i) && EnvironmentMap(es)[k] == es[i]
  {
    var front, last := es[..|es| - 1], es[|es| - 1];
    if k == last.id {
      i := |es| - 1;
    } else {
      i := StoredEnvironment(front, k);
      assert es[i] == front[i];
      assert forall j | i < j < |front| :: es[j] == front[j];
    }
  }

  lemma {:induction false} LastIsStored(es: seq<Environment>, i: nat)
    requires i < |es| && LastWithId(es, i)
    ensures es[i].id in EnvironmentMap(es) && EnvironmentMap(es)[es[i].id] == es[i]
  {
    if i < |es| - 1 {
      var front := es[..|es| - 1];
      assert front[i] == es[i] && forall j | i < j < |front| :: front[j] == es[j];
      LastIsStored(front, i);
    }
  }

  lemma EnvironmentMember(doc: Document, i: nat)
    requires EnvironmentsOk(doc) && i < |doc.environments|
    ensures var e := doc.environments[i];
      && e.containerId == doc.containerId
      && PointerKnown(e.current, Versions(doc.revisions)) && PointerKnown(e.previous, Versions(doc.revisions))
    ensures forall j | 0 <= j < |doc.environments|
      && Fold(doc.environments[j].name) == Fold(doc.environments[i].name) ::
      j == i
  {
    hide Versions, Fold;
  }

  lemma StoredEnvironmentsKept(doc: Document, sorted: seq<Revision>)
    requires Accepted(doc, sorted)
    ensures EnvironmentsKept(StoredAs(doc, sorted))
  {
    StoredRevisionsKept(doc, sorted);
    hide RevisionsOk, EnvironmentsOk, SortedByNumber, RevisionMap, EnvironmentMap, Versions, Fold, LastWithId,
         RevisionsKept;
    var c := StoredAs(doc, sorted);
    forall k | k in c.environments
      ensures EnvironmentKept(c, c.environments[k], k)
    {
      var i := StoredEnvironment(doc.environments, k);
      EnvironmentMember(doc, i);
    }
    forall j, k | j in c.environments && k in c.environments
      && Fold(c.environments[j].name) == Fold(c.environments[k].name)
      ensures j == k
    {
      var a := StoredEnvironment(doc.environments, j);
      var b := StoredEnvironment(doc.environments, k);
      EnvironmentMember(doc, b);
    }
  }

  /** Whatever the parser accepts is stored as a well-formed container. */
  lemma StoredIsWellFormed(doc: Document, sorted: seq<Revision>)
    requires Accepted(doc, sorted)
    ensures WellFormed(StoredAs(doc, sorted))
  {
    hide Accepted, StoredAs;
    StoredRevisionsKept(doc, sorted);
    StoredEnvironmentsKept(doc, sorted);
  }

  /** The revisions are numbered 1..n in order, each naming the one before it as parent. */
  predicate IsChainDocument(sorted: seq<Revision>) {
    forall i | 0 <= i < |sorted| :: sorted[i].number == i + 1 && sorted[i].parent == VersionBefore(sorted, i)
  }

  function VersionBefore(sorted: seq<Revision>, i: nat): Option<Id>
    requires i <= |sorted|
  {
    if i == 0 then None else Some(sorted[i - 1].version)
  }

  lemma LinearIff(doc: Document, sorted: seq<Revision>)
    requires Accepted(doc, sorted)
    ensures Linear(StoredAs(doc, sorted)) <==> IsChainDocument(sorted)
  {
    AcceptedSorted(doc, sorted);
    var c := StoredAs(doc, sorted);
    hide RevisionsOk, EnvironmentsOk, RevisionMap, EnvironmentMap, Verified;
    if Linear(c) {
      var order :| IsChain(c, order);
      forall i | 0 <= i < |sorted|
        ensures sorted[i].number == i + 1 && sorted[i].parent == VersionBefore(sorted, i)
      {
        ListedAt(c, sorted, order, i);
        if i > 0 {
          ListedIsChain(c, sorted, order);
        }
      }
    }
    if IsChainDocument(sorted) { ChainDocumentIsLinear(c, sorted); }
  }

  function VersionsInOrder(sorted: seq<Revision>): (order: seq<Id>)
    ensures |order| == |sorted| && forall i | 0 <= i < |sorted| :: order[i] == sorted[i].version
  {
    seq(|sorted|, i requires 0 <= i < |sorted| => sorted[i].version)
  }

  lemma DocumentLink(c: Container, sorted: seq<Revision>, i: nat)
    requires IsChainDocument(sorted) && Lists(sorted, c.revisions) && Storable(sorted, c.containerId) && i < |sorted|
    ensures LinkAt(c, VersionsInOrder(sorted), i)
  {
    hide Verified, HasVersion, VersionsInOrder;
    assert sorted[i].number == i + 1 && sorted[i].parent == VersionBefore(sorted, i);
  }

  lemma ChainDocumentIsLinear(c: Container, sorted: seq<Revision>)
    requires IsChainDocument(sorted) && Lists(sorted, c.revisions) && Storable(sorted, c.containerId)
    ensures Linear(c)
  {
    hide Verified, LinkAt, VersionsInOrder, IsChainDocument, Storable;
    var order := VersionsInOrder(sorted);
    forall i | 0 <= i < |order|
      ensures LinkAt(c, order, i)
    {
      DocumentLink(c, sorted, i);
    }
    forall v | v in c.revisions
      ensures v in order
    {
      assert HasVersion(sorted, v);
      var i :| 0 <= i < |sorted| && sorted[i].version == v;
      assert order[i] == v;
    }
    assert IsChain(c, order);
  }

  /** The pointer, if set, names a revision of the document that validates. */
  ghost predicate DocumentPointer(rules: Rules, doc: Document, pointer: Option<Id>) {
    pointer.Some? ==> exists r | r in doc.revisions :: r.version == pointer.value && Sound(rules, r.payload)
  }

  /** Both pointers do, and a previous revision differs from a current one. */
  ghost predicate DocumentPointers(rules: Rules, doc: Document, e: Environment) {
    && DocumentPointer(rules, doc, e.current) && DocumentPointer(rules, doc, e.previous)
    && (e.previous.Some? ==> e.current.Some? && e.current != e.previous)
  }

  lemma PointerIff(rules: Rules, doc: Document, sorted: seq<Revision>, pointer: Option<Id>)
    requires Accepted(doc, sorted)
    ensures PointsToSound(rules, StoredAs(doc, sorted), pointer) <==> DocumentPointer(rules, doc, pointer)
  {
    hide Sound, RevisionsOk, EnvironmentsOk, SortedByNumber, EnvironmentMap, RevisionMap;
    if pointer.Some? {
      AcceptedSorted(doc, sorted);
      SameMembers(doc.revisions, sorted);
      var m := RevisionMap(sorted);
      if pointer.value in m {
        StoredRevision(doc, sorted, pointer.value);
      }
      if r :| r in doc.revisions && r.version == pointer.value && Sound(rules, r.payload) {
        var j :| 0 <= j < |doc.revisions| && doc.revisions[j] == r;
        assert doc.revisions[j] in sorted;
        var i :| 0 <= i < |sorted| && sorted[i] == r;
        assert sorted[i].version in m && m[sorted[i].version] == sorted[i];
      }
    }
  }

  /** Which accepted documents give a healthy container: those whose revisions form a chain
      numbered from one, and of whose environments the last one with each id has pointers to
      revisions that validate.  The parser asks for less: gaps in the numbers, parents with
      larger numbers and revisions that are their own parents all pass. */
  lemma HealthyIff(rules: Rules, doc: Document, sorted: seq<Revision>)
    requires Accepted(doc, sorted)
    ensures Healthy(rules, StoredAs(doc, sorted)) <==>
      && IsChainDocument(sorted)
      && forall i | 0 <= i < |doc.environments| && LastWithId(doc.environments, i) ::
           DocumentPointers(rules, doc, doc.environments[i])
  {
    LinearIff(doc, sorted);
    var c, es := StoredAs(doc, sorted), doc.environments;
    forall e
      ensures PointersOk(rules, c, e) <==> DocumentPointers(rules, doc, e)
    {
      PointerIff(rules, doc, sorted, e.current);
      PointerIff(rules, doc, sorted, e.previous);
    }
    hide Accepted, Linear, IsChainDocument, PointersOk, DocumentPointers, RevisionMap, EnvironmentMap, LastWithId;
    if AllPointersOk(rules, c) {
      forall i | 0 <= i < |es| && LastWithId(es, i)
        ensures DocumentPointers(rules, doc, es[i])
      {
        LastIsStored(es, i);
      }
    } else {
      var k :| k in c.environments && !PointersOk(rules, c, c.environments[k]);
      var i := StoredEnvironment(es, k);
    }
  }

  /** Documents that parse and whose containers are not one chain: a gap before the first
      number, and a revision that is its own parent. */
  lemma AcceptedButNotLinear(id: string, v: Id, payload: Payload)
    ensures var gap := NewRevision(v, id, 2, None, payload, "draft", "");
      Accepted(Document(id, [gap], []), [gap]) && !Linear(StoredAs(Document(id, [gap], []), [gap]))
    ensures var own := NewRevision(v, id, 1, Some(v), payload, "draft", "");
      Accepted(Document(id, [own], []), [own]) && !Linear(StoredAs(Document(id, [own], []), [own]))
  {
    var gap, own :=
      NewRevision(v, id, 2, None, payload, "draft", ""), NewRevision(v, id, 1, Some(v), payload, "draft", "");
    OneRevision(id, gap);
    OneRevision(id, own);
    LinearIff(Document(id, [gap], []), [gap]);
    LinearIff(Document(id, [own], []), [own]);
    hide Accepted, Linear, StoredAs;
    if IsChainDocument([gap]) { ChainStarts([gap]); }
    if IsChainDocument([own]) { ChainStarts([own]); }
  }

  lemma ChainStarts(sorted: seq<Revision>)
    requires IsChainDocument(sorted) && sorted != []
    ensures sorted[0].number == 1 && sorted[0].parent == None
  {
    assert VersionBefore(sorted, 0) == None;
  }

  lemma OneRevision(id: string, r: Revision)
    requires Verified(r) && r.number >= 1 && r.containerId == id && (r.parent.Some? ==> r.parent.value == r.version)
    ensures Accepted(Document(id, [r], []), [r])
  {
    assert [r][0].version in Versions([r]);
  }
}
