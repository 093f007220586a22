/** What export, import and clone preserve: exports parse, copies are isomorphic to their
    originals, well formed and healthy if those are, and a round trip through a document gives
    the same revisions and environments. */
module CloneProperties {
  import opened Wrappers
  import opened Config
  import opened ControlPlane
  import opened Transfer
  import opened Clone
  import opened ControlPlaneInvariant

  lemma {:induction false} StrictNumbersFromOne(rs: seq<Revision>, n: nat, i: nat)
    requires |rs| == n && i < n
    requires forall j | 0 <= j < n :: 1 <= rs[j].number <= n
    requires forall j, k | 0 <= j < k < n :: rs[j].number < rs[k].number
    ensures rs[i].number == i + 1
  {
    AtLeastIndex(rs, i);
    AtMostIndex(rs, n, i);
  }

  lemma {:induction false} AtLeastIndex(rs: seq<Revision>, i: nat)
    requires i < |rs| && rs[0].number >= 1 && forall j, k | 0 <= j < k < |rs| :: rs[j].number < rs[k].number
    ensures rs[i].number >= i + 1
  {
    if i > 0 { AtLeastIndex(rs, i - 1); }
  }

  lemma {:induction false} AtMostIndex(rs: seq<Revision>, n: nat, i: nat)
    requires |rs| == n && i < n && rs[n - 1].number <= n && forall j, k | 0 <= j < k < n :: rs[j].number < rs[k].number
    ensures rs[i].number <= i + 1
    decreases n - i
  {
    if i < n - 1 { AtMostIndex(rs, n, i + 1); }
  }

  lemma ListedAreDistinct(rs: seq<Revision>, m: map<Id, Revision>)
    requires Lists(rs, m)
    ensures Versions(rs) == m.Keys
    ensures forall i, j | 0 <= i < j < |rs| :: rs[i].version != rs[j].version
  {
    forall v | v in m
      ensures v in Versions(rs)
    {
      assert HasVersion(rs, v);
    }
    assert Versions(rs) == m.Keys;
    FullCountIsDistinct(rs);
  }

  /** Listing a linear chain by number gives the chain itself. */
  lemma ListedIsChain(c: Container, rs: seq<Revision>, order: seq<Id>)
    requires IsChain(c, order) && Lists(rs, c.revisions) && SortedByNumber(rs)
    ensures |rs| == |order| && forall i | 0 <= i < |rs| :: rs[i].version == order[i]
  {
    ListedAreDistinct(rs, c.revisions);
    LinearIsDistinct(c);
    forall j | 0 <= j < |rs|
      ensures 1 <= rs[j].number <= |rs|
    {
      var k :| 0 <= k < |order| && order[k] == rs[j].version;
      assert LinkAt(c, order, k);
    }
    forall j, k | 0 <= j < k < |rs|
      ensures rs[j].number < rs[k].number
    {
      assert rs[j].number != rs[k].number;
    }
    forall i | 0 <= i < |rs|
      ensures rs[i].version == order[i]
    {
      StrictNumbersFromOne(rs, |rs|, i);
      assert LinkAt(c, order, i);
    }
  }

  lemma ListedAt(c: Container, rs: seq<Revision>, order: seq<Id>, i: nat)
    requires IsChain(c, order) && Lists(rs, c.revisions) && SortedByNumber(rs) && i < |rs|
    ensures i < |order| && order[i] in c.revisions && rs[i] == c.revisions[order[i]]
    ensures ChainLink(c, rs[i], order[i], i + 1, ParentAt(order, i))
  {
    ListedIsChain(c, rs, order);
    assert LinkAt(c, order, i);
  }

  /** Numbers strictly increase along a listing. */
  lemma ListedNumbers(c: Container, rs: seq<Revision>)
    requires RevisionsKept(c) && Lists(rs, c.revisions) && SortedByNumber(rs)
    ensures forall i, j | 0 <= i < j < |rs| :: rs[i].number < rs[j].number
  {
    ListedAreDistinct(rs, c.revisions);
    hide RevisionKept;
    forall i, j | 0 <= i < j < |rs|
      ensures rs[i].number < rs[j].number
    {
      assert rs[i].number != rs[j].number;
    }
  }

  lemma {:induction false} ListingsAgree(c: Container, a: seq<Revision>, b: seq<Revision>, i: nat)
    requires RevisionsKept(c) && Lists(a, c.revisions) && SortedByNumber(a) && Lists(b, c.revisions)
    requires SortedByNumber(b)
    requires i <= |a| == |b|
    ensures a[..i] == b[..i]
  {
    hide RevisionsKept, SortedByNumber, Lists;
    if i > 0 {
      ListingsAgree(c, a, b, i - 1);
      NextAgrees(c, a, b, i - 1);
      assert a[..i] == a[..i - 1] + [a[i - 1]] && b[..i] == b[..i - 1] + [b[i - 1]];
    }
  }

  lemma NextAgrees(c: Container, a: seq<Revision>, b: seq<Revision>, i: nat)
    requires RevisionsKept(c) && Lists(a, c.revisions) && SortedByNumber(a) && Lists(b, c.revisions)
    requires SortedByNumber(b)
    requires i < |a| == |b| && a[..i] == b[..i]
    ensures a[i] == b[i]
  {
    hide RevisionsKept, SortedByNumber, Lists;
    ListedNumbers(c, a);
    ListedNumbers(c, b);
    NotLater(c, a, b, i);
    NotLater(c, b, a, i);
    SameNumberSame(c, a, b, i);
  }

  lemma SameNumberSame(c: Container, a: seq<Revision>, b: seq<Revision>, i: nat)
    requires RevisionsKept(c) && Lists(a, c.revisions) && Lists(b, c.revisions) && i < |a| && i < |b|
    requires a[i].number == b[i].number
    ensures a[i] == b[i]
  {
    hide RevisionKept, HasVersion;
  }

  lemma NotLater(c: Container, a: seq<Revision>, b: seq<Revision>, i: nat)
    requires Lists(a, c.revisions) && Lists(b, c.revisions) && i < |a| && a[..i] == b[..i]
    requires forall j, k | 0 <= j < k < |a| :: a[j].number < a[k].number
    requires forall j, k | 0 <= j < k < |b| :: b[j].number < b[k].number
    ensures b[i].number <= a[i].number
  {
    forall k | 0 <= k < i
      ensures a[k] == b[k]
    {
      assert a[..i][k] == b[..i][k];
    }
    assert a[i].version in c.revisions && c.revisions[a[i].version] == a[i];
    var j := ListedIndex(b, c.revisions, a[i].version);
    hide Lists;
    assert b[j] == a[i];
  }

  /** A well-formed container has only one listing. */
  lemma ListingIsUnique(c: Container, a: seq<Revision>, b: seq<Revision>)
    requires RevisionsKept(c) && Lists(a, c.revisions) && SortedByNumber(a) && Lists(b, c.revisions)
    requires SortedByNumber(b)
    ensures a == b
  {
    if a != [] {
      ListingsAgree(c, a, b, |a|);
      assert a[..|a|] == a && b[..|a|] == b;
    }
  }

  /** Every parent has a smaller number than its child. */
  predicate ParentsOlder(c: Container) {
    forall v | v in c.revisions && c.revisions[v].parent.Some? ::
      c.revisions[v].parent.value in c.revisions
        && c.revisions[c.revisions[v].parent.value].number < c.revisions[v].number
  }

  lemma LinearParentsOlder(c: Container)
    requires Linear(c)
    ensures ParentsOlder(c)
  {
    var order :| IsChain(c, order);
    forall v | v in c.revisions && c.revisions[v].parent.Some?
      ensures c.revisions[v].parent.value in c.revisions
      ensures c.revisions[c.revisions[v].parent.value].number < c.revisions[v].number
    {
      var i :| 0 <= i < |order| && order[i] == v;
      assert LinkAt(c, order, i);
      if i > 0 { assert LinkAt(c, order, i - 1); }
    }
  }

  lemma PrecedesIfOlder(c: Container, rs: seq<Revision>, i: nat)
    requires RevisionsKept(c) && Lists(rs, c.revisions) && SortedByNumber(rs) && i < |rs| && rs[i].parent.Some?
    ensures var parent := rs[i].parent.value;
      rs[i].parent.value in Versions(rs[..i]) <==> parent in c.revisions && c.revisions[parent].number < rs[i].number
  {
    ListedNumbers(c, rs);
    hide RevisionKept, RevisionsKept, SortedByNumber;
    var parent := rs[i].parent.value;
    if parent in Versions(rs[..i]) {
      var j :| 0 <= j < |rs[..i]| && rs[..i][j].version == parent;
      assert rs[j].number < rs[i].number;
    }
    if parent in c.revisions && c.revisions[parent].number < rs[i].number {
      assert HasVersion(rs, parent);
      var j :| 0 <= j < |rs| && rs[j].version == parent;
      assert rs[..i][j] == rs[j];
    }
  }

  /** In a listing parents precede children exactly when they are older. */
  lemma ParentsPrecedeIff(c: Container, rs: seq<Revision>)
    requires RevisionsKept(c) && Lists(rs, c.revisions) && SortedByNumber(rs)
    ensures ParentsPrecede(rs) <==> ParentsOlder(c)
  {
    forall i | 0 <= i < |rs| && rs[i].parent.Some?
      ensures var parent := rs[i].parent.value;
        rs[i].parent.value in Versions(rs[..i]) <==> parent in c.revisions && c.revisions[parent].number < rs[i].number
    {
      PrecedesIfOlder(c, rs, i);
    }
    hide RevisionsKept, SortedByNumber, Versions;
    forall v | v in c.revisions
      ensures exists i :: 0 <= i < |rs| && rs[i] == c.revisions[v]
    {
      var i := ListedIndex(rs, c.revisions, v);
    }
    hide HasVersion;
  }

  lemma ListParses(c: Container, rs: seq<Revision>)
    requires RevisionsKept(c) && Lists(rs, c.revisions) && SortedByNumber(rs)
    ensures RevisionsOk(Document(c.containerId, rs, []))
  {
    ListedAreDistinct(rs, c.revisions);
    ListedNumbers(c, rs);
    hide Verified;
    assert forall i | 0 <= i < |rs| :: RevisionKept(c, rs[i], rs[i].version);
  }

  function EnvironmentIds(es: seq<Environment>): set<Id> {
    set i | 0 <= i < |es| :: es[i].id
  }

  lemma {:induction false} EnvironmentIdsNotMore(es: seq<Environment>)
    ensures |EnvironmentIds(es)| <= |es|
  {
    if es != [] {
      var front, last := es[..|es| - 1], es[|es| - 1];
      assert es == front + [last];
      EnvironmentIdsNotMore(front);
      assert EnvironmentIds(es) == EnvironmentIds(front) + {last.id};
    }
  }

  lemma RepeatedEnvironmentCountsOnce(es: seq<Environment>, i: nat, j: nat)
    requires i < j < |es| && es[i].id == es[j].id
    ensures |EnvironmentIds(es)| < |es|
  {
    var shorter := es[..j] + es[j + 1..];
    EnvironmentIdsNotMore(shorter);
    forall v | v in EnvironmentIds(es)
      ensures v in EnvironmentIds(shorter)
    {
      var k :| 0 <= k < |es| && es[k].id == v;
      if k < j { assert shorter[k] == es[k]; }
      else if k == j { assert shorter[i] == es[i]; }
      else { assert shorter[k - 1] == es[k]; }
    }
    assert EnvironmentIds(shorter) == EnvironmentIds(es) + (EnvironmentIds(shorter) - EnvironmentIds(es));
  }

  lemma ListedEnvironmentsDistinct(es: seq<Environment>, m: map<Id, Environment>)
    requires ListsEnvironments(es, m)
    ensures EnvironmentIds(es) == m.Keys
    ensures forall i, j | 0 <= i < j < |es| :: es[i].id != es[j].id
  {
    forall k | k in m
      ensures k in EnvironmentIds(es)
    {
      assert HasEnvironment(es, k);
    }
    assert EnvironmentIds(es) == m.Keys;
    forall i, j | 0 <= i < j < |es|
      ensures es[i].id != es[j].id
    {
      if es[i].id == es[j].id { RepeatedEnvironmentCountsOnce(es, i, j); }
    }
  }

  lemma SameRevisionsOk(doc: Document)
    requires RevisionsOk(Document(doc.containerId, doc.revisions, []))
    ensures RevisionsOk(doc)
  {
    hide Verified, Versions;
  }

  lemma ListedEnvironmentsParse(c: Container, doc: Document)
    requires EnvironmentsKept(c) && ListsEnvironments(doc.environments, c.environments)
    requires doc.containerId == c.containerId && Versions(doc.revisions) == c.revisions.Keys
    ensures EnvironmentsOk(doc)
  {
    ListedEnvironmentsDistinct(doc.environments, c.environments);
    hide Fold, Versions;
    assert forall i | 0 <= i < |doc.environments| :: EnvironmentKept(c, doc.environments[i], doc.environments[i].id);
  }

  /** The export of a well-formed container parses, however it lists the contents, and its
      parents precede their children exactly when they are older. */
  lemma ExportParses(c: Container, doc: Document)
    requires WellFormed(c) && IsExport(c, doc)
    ensures RevisionsOk(doc) && EnvironmentsOk(doc)
    ensures ParentsPrecede(doc.revisions) <==> ParentsOlder(c)
  {
    hide RevisionsKept, EnvironmentsKept, Lists, SortedByNumber, ListsEnvironments, RevisionsOk, EnvironmentsOk,
         ParentsPrecede, ParentsOlder, Versions;
    ListParses(c, doc.revisions);
    SameRevisionsOk(doc);
    ListedAreDistinct(doc.revisions, c.revisions);
    ListedEnvironmentsParse(c, doc);
    ParentsPrecedeIff(c, doc.revisions);
  }

  lemma {:induction false} RevisionMapAt(rs: seq<Revision>, i: nat)
    requires i < |rs| && forall j, k | 0 <= j < k < |rs| :: rs[j].version != rs[k].version
    ensures rs[i].version in RevisionMap(rs) && RevisionMap(rs)[rs[i].version] == rs[i]
  {
    if i < |rs| - 1 {
      assert rs[..|rs| - 1][i] == rs[i];
      RevisionMapAt(rs[..|rs| - 1], i);
    }
  }

  lemma {:induction false} EnvironmentMapAt(es: seq<Environment>, i: nat)
    requires i < |es| && forall j, k | 0 <= j < k < |es| :: es[j].id != es[k].id
    ensures es[i].id in EnvironmentMap(es) && EnvironmentMap(es)[es[i].id] == es[i]
  {
    if i < |es| - 1 {
      assert es[..|es| - 1][i] == es[i];
      EnvironmentMapAt(es[..|es| - 1], i);
    }
  }

  lemma ListedMapIsOriginal(rs: seq<Revision>, m: map<Id, Revision>)
    requires Lists(rs, m)
    ensures RevisionMap(rs) == m
  {
    ListedAreDistinct(rs, m);
    forall v | v in m
      ensures RevisionMap(rs)[v] == m[v]
    {
      assert HasVersion(rs, v);
      var i :| 0 <= i < |rs| && rs[i].version == v;
      RevisionMapAt(rs, i);
    }
  }

  lemma ListedEnvironmentMapIsOriginal(es: seq<Environment>, m: map<Id, Environment>)
    requires ListsEnvironments(es, m)
    ensures EnvironmentMap(es) == m
  {
    ListedEnvironmentsDistinct(es, m);
    forall k | k in m
      ensures EnvironmentMap(es)[k] == m[k]
    {
      assert HasEnvironment(es, k);
      var i :| 0 <= i < |es| && es[i].id == k;
      EnvironmentMapAt(es, i);
    }
  }

  predicate Injective(f: map<Id, Id>) {
    forall u, v | u in f && v in f && f[u] == f[v] :: u == v
  }

  /** `c'` is `c` under new ids: revisions along `f`, parents and pointers included, and
      environments along some other renaming; numbers, payloads, notes, names and protection
      are kept, the log is not. */
  ghost predicate IsCopy(c: Container, c': Container, id: string, f: map<Id, Id>) {
    && c'.containerId == id && c'.audit == map[] && RevisionsCopied(c.revisions, c'.revisions, id, f)
    && (exists g :: CopiedAlong(c, c', f, g)) && forall k | k in c'.environments :: c'.environments[k].containerId == id
  }

  ghost predicate RevisionsCopied(rs: map<Id, Revision>, rs': map<Id, Revision>, id: string, f: map<Id, Id>) {
    && Injective(f) && f.Keys == rs.Keys && rs'.Keys == f.Values
    && forall v | v in rs :: f[v] in rs' && CopiedRevision(rs[v], rs'[f[v]], id, f)
  }

  lemma RevisionsCopiedAt(rs: map<Id, Revision>, rs': map<Id, Revision>, id: string, f: map<Id, Id>, v: Id)
    requires RevisionsCopied(rs, rs', id, f) && v in rs
    ensures v in f && f[v] in rs' && CopiedRevision(rs[v], rs'[f[v]], id, f)
  {
    hide CopiedRevision, Injective;
  }

  lemma RevisionsCopiedFrom(rs: map<Id, Revision>, rs': map<Id, Revision>, id: string, f: map<Id, Id>, k: Id)
    returns (v: Id)
    requires RevisionsCopied(rs, rs', id, f) && k in rs'
    ensures v in rs && v in f && f[v] == k
  {
    hide CopiedRevision, Injective;
    v :| v in f && f[v] == k;
  }

  lemma RevisionsCopiedApart(rs: map<Id, Revision>, rs': map<Id, Revision>, id: string, f: map<Id, Id>, u: Id, v: Id)
    requires RevisionsCopied(rs, rs', id, f) && u in rs && v in rs && u != v
    ensures u in f && v in f && f[u] != f[v]
  {
    hide CopiedRevision;
  }

  lemma RevisionsCopiedCount(rs: map<Id, Revision>, rs': map<Id, Revision>, id: string, f: map<Id, Id>)
    requires RevisionsCopied(rs, rs', id, f)
    ensures |rs'| == |rs| && f.Keys == rs.Keys
  {
    hide CopiedRevision, Injective;
    ValuesCount(f);
    assert |rs'| == |rs'.Keys| && |rs| == |rs.Keys|;
  }

  lemma EnvironmentCopiedAt(c: Container, c': Container, f: map<Id, Id>, g: map<Id, Id>, k: Id) returns (e: Id)
    requires CopiedAlong(c, c', f, g) && k in c'.environments
    ensures e in c.environments && e in g && g[e] == k && CopiedEnvironment(c.environments[e], c'.environments[k], k, f)
  {
    hide CopiedEnvironment, Injective;
    e :| e in g && g[e] == k;
  }

  ghost predicate CopiedAlong(c: Container, c': Container, f: map<Id, Id>, g: map<Id, Id>) {
    && Injective(g) && g.Keys == c.environments.Keys && c'.environments.Keys == g.Values
    && forall e | e in c.environments ::
         && g[e] in c'.environments
         && CopiedEnvironment(c.environments[e], c'.environments[g[e]], g[e], f)
  }

  lemma FreshMapInjective(rs: seq<Revision>, f: map<Id, Id>, base: Id)
    requires FreshMap(rs, f, base)
    ensures Injective(f)
  {
    forall u, v | u in f && v in f && f[u] == f[v]
      ensures u == v
    {
      var i :| 0 <= i < |rs| && rs[i].version == u;
      var j :| 0 <= j < |rs| && rs[j].version == v;
    }
  }

  lemma CopiedRevisionsAre(c: Container, sorted: seq<Revision>, copies: seq<Revision>, id: string, f: map<Id, Id>,
                           base: Id)
    requires Lists(sorted, c.revisions) && FreshMap(sorted, f, base) && |copies| == |sorted|
    requires forall i | 0 <= i < |sorted| :: CopiedRevision(sorted[i], copies[i], id, f)
    ensures RevisionsCopied(c.revisions, RevisionMap(copies), id, f)
  {
    hide *;
    ListedAreDistinct(sorted, c.revisions);
    FreshKeys(sorted, f, base);
    FreshMapInjective(sorted, f, base);
    CopiesAreFresh(sorted, copies, id, f, base);
    CopiedKeys(sorted, copies, f, base);
    forall v | v in c.revisions
      ensures f[v] in RevisionMap(copies) && CopiedRevision(c.revisions[v], RevisionMap(copies)[f[v]], id, f)
    {
      var i := ListedIndex(sorted, c.revisions, v);
      DistinctCopies(copies, base);
      RevisionMapAt(copies, i);
      FreshMapAt(sorted, f, base, i);
    }
    AreCopied(c.revisions, RevisionMap(copies), id, f);
  }

  lemma DistinctCopies(copies: seq<Revision>, base: Id)
    requires forall i | 0 <= i < |copies| :: copies[i].version == base + i
    ensures forall j, k | 0 <= j < k < |copies| :: copies[j].version != copies[k].version
  {
  }

  lemma AreCopied(rs: map<Id, Revision>, rs': map<Id, Revision>, id: string, f: map<Id, Id>)
    requires Injective(f) && f.Keys == rs.Keys && rs'.Keys == f.Values
    requires forall v | v in rs :: f[v] in rs' && CopiedRevision(rs[v], rs'[f[v]], id, f)
    ensures RevisionsCopied(rs, rs', id, f)
  {
  }

  lemma ListedIndex(rs: seq<Revision>, m: map<Id, Revision>, v: Id) returns (i: nat)
    requires Lists(rs, m) && v in m
    ensures i < |rs| && rs[i] == m[v] && rs[i].version == v
  {
    assert HasVersion(rs, v);
    i :| 0 <= i < |rs| && rs[i].version == v;
  }

  lemma FreshMapAt(rs: seq<Revision>, f: map<Id, Id>, base: Id, i: nat)
    requires FreshMap(rs, f, base) && i < |rs|
    ensures rs[i].version in f && f[rs[i].version] == base + i
  {
  }

  lemma CopiedKeys(sorted: seq<Revision>, copies: seq<Revision>, f: map<Id, Id>, base: Id)
    requires FreshMap(sorted, f, base) && |copies| == |sorted| && forall i | 0 <= i < |copies| ::
      copies[i].version == base + i
    ensures RevisionMap(copies).Keys == f.Values
  {
    hide RevisionMap, FreshMap;
    forall k
      ensures k in Versions(copies) <==> k in f.Values
    {
      if k in Versions(copies) {
        var i :| 0 <= i < |copies| && copies[i].version == k;
        FreshMapAt(sorted, f, base, i);
        assert f[sorted[i].version] == k;
      }
      if k in f.Values {
        var v :| v in f && f[v] == k;
        var i := FreshIndex(sorted, f, base, v);
        assert copies[i].version == k;
      }
    }
    KeysAreVersions(copies);
  }

  lemma FreshIndex(rs: seq<Revision>, f: map<Id, Id>, base: Id, v: Id) returns (i: nat)
    requires FreshMap(rs, f, base) && v in f
    ensures i < |rs| && f[v] == base + i
  {
    i :| 0 <= i < |rs| && rs[i].version == v;
  }

  lemma KeysAreVersions(rs: seq<Revision>)
    ensures RevisionMap(rs).Keys == Versions(rs)
  {
  }

  /** The copies of the environments are a renaming of the originals. */
  lemma CopiedEnvironmentsAre(c: Container, c': Container, es: seq<Environment>, copies: seq<Environment>, f: map<Id,
                              Id>, base: Id)
    returns (g: map<Id, Id>)
    requires ListsEnvironments(es, c.environments) && |copies| == |es| && c'.environments == EnvironmentMap(copies)
    requires forall i | 0 <= i < |es| :: CopiedEnvironment(es[i], copies[i], base + i, f)
    ensures CopiedAlong(c, c', f, g)
  {
    hide *;
    g := map k | k in c.environments :: base + IndexOf(es, k);
    forall e | e in c.environments
      ensures g[e] in c'.environments && CopiedEnvironment(c.environments[e], c'.environments[g[e]], g[e], f)
    {
      EnvironmentIsCopied(c.environments, es, copies, f, base, e);
    }
    EnvironmentKeys(copies);
    CopiedIds(es, copies, f, base);
    forall k | k in c'.environments
      ensures k in g.Values
    {
      var i := EnvironmentIndex(copies, k);
      IndexListed(es, c.environments, i);
      assert g[es[i].id] == k;
    }
    forall u, v | u in g && v in g && g[u] == g[v]
      ensures u == v
    {
      IndexOfListed(es, c.environments, u);
      IndexOfListed(es, c.environments, v);
    }
    AreCopiedEnvironments(c, c', f, g);
  }

  lemma AreCopiedEnvironments(c: Container, c': Container, f: map<Id, Id>, g: map<Id, Id>)
    requires forall u, v | u in g && v in g && g[u] == g[v] :: u == v
    requires g.Keys == c.environments.Keys && forall k | k in c'.environments :: k in g.Values
    requires forall e | e in c.environments ::
      g[e] in c'.environments && CopiedEnvironment(c.environments[e], c'.environments[g[e]], g[e], f)
    ensures CopiedAlong(c, c', f, g)
  {
    hide CopiedEnvironment;
    assert c'.environments.Keys == g.Values;
  }

  lemma EnvironmentIndex(es: seq<Environment>, k: Id) returns (i: nat)
    requires k in EnvironmentIds(es)
    ensures i < |es| && es[i].id == k
  {
    i :| 0 <= i < |es| && es[i].id == k;
  }

  lemma CopiedIds(es: seq<Environment>, copies: seq<Environment>, f: map<Id, Id>, base: Id)
    requires |copies| == |es| && forall i | 0 <= i < |es| :: CopiedEnvironment(es[i], copies[i], base + i, f)
    ensures forall i | 0 <= i < |copies| :: copies[i].id == base + i
  {
    hide CopiedEnvironment;
    forall i | 0 <= i < |copies|
      ensures copies[i].id == base + i
    {
      CopiedId(es[i], copies[i], base + i, f);
    }
  }

  lemma EnvironmentIsCopied(m: map<Id, Environment>, es: seq<Environment>, copies: seq<Environment>, f: map<Id, Id>,
                            base: Id, e: Id)
    requires ListsEnvironments(es, m) && |copies| == |es| && e in m
    requires forall i | 0 <= i < |es| :: CopiedEnvironment(es[i], copies[i], base + i, f)
    ensures base + IndexOf(es, e) in EnvironmentMap(copies)
    ensures CopiedEnvironment(m[e], EnvironmentMap(copies)[base + IndexOf(es, e)], base + IndexOf(es, e), f)
  {
    hide CopiedEnvironment, ListsEnvironments, EnvironmentMap, IndexOf;
    IndexOfListed(es, m, e);
    CopiedIds(es, copies, f, base);
    EnvironmentMapAt(copies, IndexOf(es, e));
  }

  lemma CopiedId(e: Environment, e': Environment, id: Id, f: map<Id, Id>)
    requires CopiedEnvironment(e, e', id, f)
    ensures e'.id == id
  {
  }

  lemma IndexOfListed(es: seq<Environment>, m: map<Id, Environment>, e: Id)
    requires ListsEnvironments(es, m) && e in m
    ensures IndexOf(es, e) < |es| && es[IndexOf(es, e)].id == e && es[IndexOf(es, e)] == m[e]
  {
    assert HasEnvironment(es, e);
  }

  lemma IndexListed(es: seq<Environment>, m: map<Id, Environment>, i: nat)
    requires ListsEnvironments(es, m) && i < |es|
    ensures es[i].id in m && IndexOf(es, es[i].id) == i
  {
    ListedEnvironmentsDistinct(es, m);
    assert HasEnvironment(es, es[i].id);
    var j := IndexOf(es, es[i].id);
    assert es[j].id == es[i].id;
  }

  lemma EnvironmentKeys(es: seq<Environment>)
    ensures EnvironmentMap(es).Keys == EnvironmentIds(es)
  {
  }

  ghost function IndexOf(es: seq<Environment>, k: Id): (i: nat)
    ensures HasEnvironment(es, k) ==> i < |es| && es[i].id == k
  {
    if HasEnvironment(es, k) then
      var i: nat :| i < |es| && es[i].id == k;
      i
    else 0
  }

  lemma {:induction false} EnvironmentMapFrom(es: seq<Environment>)
    ensures forall k | k in EnvironmentMap(es) :: exists i | 0 <= i < |es| :: EnvironmentMap(es)[k] == es[i]
  {
    if es != [] {
      var front, last := es[..|es| - 1], es[|es| - 1];
      EnvironmentMapFrom(front);
      forall k | k in EnvironmentMap(es)
        ensures exists i | 0 <= i < |es| :: EnvironmentMap(es)[k] == es[i]
      {
        if k != last.id {
          var i :| 0 <= i < |front| && EnvironmentMap(front)[k] == front[i];
          assert es[i] == front[i];
        } else {
          assert es[|es| - 1] == last;
        }
      }
    }
  }

  /** A stored copy of an exported container is isomorphic to it. */
  lemma ImportedCopyIsCopy(store: Store, c: Container, doc: Document, id: string, base: Id, store': Store,
                           sorted: seq<Revision>, f: map<Id, Id>)
    requires IsExport(c, doc) && SortedByNumber(sorted) && multiset(sorted) == multiset(doc.revisions)
    requires ImportedAs(store, doc, Some(id), base, store', sorted, f)
    ensures IsCopy(c, store'[Fold(id)], id, f)
  {
    hide Fold, CopiedLists, SortedByNumber, Lists, ListsEnvironments;
    var copies, environments :|
      CopiedLists(doc, id, base, sorted, f, copies, environments)
      && store' == store[Fold(id) := Container(id, RevisionMap(copies), EnvironmentMap(environments), map[])];
    PermutationLists(doc.revisions, sorted, c.revisions);
    hide IsCopy, RevisionMap, EnvironmentMap;
    CopiedListsAreCopy(c, doc, id, base, sorted, f, copies, environments);
  }

  lemma CopiedListsAreCopy(c: Container, doc: Document, id: string, base: Id, sorted: seq<Revision>, f: map<Id, Id>,
                           copies: seq<Revision>, environments: seq<Environment>)
    requires Lists(sorted, c.revisions) && ListsEnvironments(doc.environments, c.environments)
    requires CopiedLists(doc, id, base, sorted, f, copies, environments)
    ensures IsCopy(c, Container(id, RevisionMap(copies), EnvironmentMap(environments), map[]), id, f)
  {
    hide FreshMap, CopiedRevision, CopiedEnvironment, Lists, ListsEnvironments, CopiedAlong, RevisionMap,
         EnvironmentMap, RevisionsCopied;
    EnvironmentMapFrom(environments);
    CopiedRevisionsAre(c, sorted, copies, id, f, base);
    var c' := Container(id, RevisionMap(copies), EnvironmentMap(environments), map[]);
    var g := CopiedEnvironmentsAre(c, c', doc.environments, environments, f, base + |sorted|);
  }

  /** A copy of a healthy container is healthy. */
  lemma CopyIsHealthy(rules: Rules, c: Container, c': Container, id: string, f: map<Id, Id>)
    requires IsCopy(c, c', id, f) && Healthy(rules, c)
    ensures Healthy(rules, c')
  {
    hide IsCopy, Linear, AllPointersOk;
    CopyIsLinear(c, c', id, f);
    CopyKeepsPointers(rules, c, c', id, f);
  }

  /** A copy of a well-formed container is well formed. */
  lemma CopyIsWellFormed(c: Container, c': Container, id: string, f: map<Id, Id>)
    requires IsCopy(c, c', id, f) && WellFormed(c)
    ensures WellFormed(c')
  {
    hide RevisionsKept, EnvironmentsKept, RevisionsCopied, CopiedAlong;
    CopyKeepsRevisions(c, c', id, f);
    var g :| CopiedAlong(c, c', f, g);
    CopyKeepsEnvironments(c, c', id, f, g);
  }

  lemma CopyKeepsRevisions(c: Container, c': Container, id: string, f: map<Id, Id>)
    requires RevisionsCopied(c.revisions, c'.revisions, id, f) && c'.containerId == id && RevisionsKept(c)
    ensures RevisionsKept(c')
  {
    hide RevisionsCopied;
    forall k | k in c'.revisions
      ensures RevisionKept(c', c'.revisions[k], k)
    {
      var v := RevisionsCopiedFrom(c.revisions, c'.revisions, id, f, k);
      CopyKeepsRevision(c, c', id, f, v);
    }
    forall j, k | j in c'.revisions && k in c'.revisions && c'.revisions[j].number == c'.revisions[k].number
      ensures j == k
    {
      var u := RevisionsCopiedFrom(c.revisions, c'.revisions, id, f, j);
      var v := RevisionsCopiedFrom(c.revisions, c'.revisions, id, f, k);
      CopyKeepsRevision(c, c', id, f, u);
      CopyKeepsRevision(c, c', id, f, v);
    }
  }

  lemma CopyKeepsRevision(c: Container, c': Container, id: string, f: map<Id, Id>, v: Id)
    requires RevisionsCopied(c.revisions, c'.revisions, id, f) && c'.containerId == id && v in c.revisions
    requires RevisionKept(c, c.revisions[v], v)
    ensures v in f && f[v] in c'.revisions && RevisionKept(c', c'.revisions[f[v]], f[v])
    ensures c'.revisions[f[v]].number == c.revisions[v].number
  {
    hide *;
    RevisionsCopiedAt(c.revisions, c'.revisions, id, f, v);
    var r := c.revisions[v];
    ParentKept(c, r, v);
    if r.parent.Some? { RevisionsCopiedAt(c.revisions, c'.revisions, id, f, r.parent.value); }
    CopyIsKept(c, c', r, c'.revisions[f[v]], id, f, v);
  }

  lemma ParentKept(c: Container, r: Revision, v: Id)
    requires RevisionKept(c, r, v)
    ensures r.parent.Some? ==> r.parent.value in c.revisions
  {
    hide Verified;
  }

  lemma CopyIsKept(c: Container, c': Container, r: Revision, copy: Revision, id: string, f: map<Id, Id>, v: Id)
    requires RevisionKept(c, r, v) && CopiedRevision(r, copy, id, f) && c'.containerId == id
    requires r.parent.Some? ==> r.parent.value in f && f[r.parent.value] in c'.revisions
    ensures v in f && RevisionKept(c', copy, f[v]) && copy.number == r.number
  {
  }

  lemma CopyKeepsEnvironments(c: Container, c': Container, id: string, f: map<Id, Id>, g: map<Id, Id>)
    requires RevisionsCopied(c.revisions, c'.revisions, id, f) && CopiedAlong(c, c', f, g) && EnvironmentsKept(c)
    requires c'.containerId == id && forall k | k in c'.environments :: c'.environments[k].containerId == id
    ensures EnvironmentsKept(c')
  {
    hide Fold, CopiedEnvironment, RevisionsCopied, CopiedAlong, EnvironmentKept;
    forall k | k in c'.environments
      ensures EnvironmentKept(c', c'.environments[k], k)
    {
      var e := EnvironmentCopiedAt(c, c', f, g, k);
      CopyKeepsEnvironment(c, c', id, f, c.environments[e], c'.environments[k], e, k);
    }
    forall j, k | j in c'.environments && k in c'.environments
      && Fold(c'.environments[j].name) == Fold(c'.environments[k].name)
      ensures j == k
    {
      var d := EnvironmentCopiedAt(c, c', f, g, j);
      var e := EnvironmentCopiedAt(c, c', f, g, k);
      CopiedName(c.environments[d], c'.environments[j], j, f);
      CopiedName(c.environments[e], c'.environments[k], k, f);
    }
  }

  lemma CopyKeepsEnvironment(c: Container, c': Container, id: string, f: map<Id, Id>, e: Environment, copy: Environment,
                             k: Id, k': Id)
    requires RevisionsCopied(c.revisions, c'.revisions, id, f) && EnvironmentKept(c, e, k)
    requires CopiedEnvironment(e, copy, k', f)
    requires copy.containerId == c'.containerId
    ensures EnvironmentKept(c', copy, k')
  {
    hide RevisionsCopied;
    if e.current.Some? { MappedKnown(c, c', id, f, e.current.value); }
    if e.previous.Some? { MappedKnown(c, c', id, f, e.previous.value); }
  }

  lemma MappedKnown(c: Container, c': Container, id: string, f: map<Id, Id>, v: Id)
    requires RevisionsCopied(c.revisions, c'.revisions, id, f) && v in c.revisions
    ensures v in f && f[v] in c'.revisions
  {
    hide *;
    RevisionsCopiedAt(c.revisions, c'.revisions, id, f, v);
  }

  function MapOrder(order: seq<Id>, f: map<Id, Id>): (order': seq<Id>)
    requires forall i | 0 <= i < |order| :: order[i] in f
    ensures |order'| == |order| && forall i | 0 <= i < |order| :: order'[i] == f[order[i]]
  {
    seq(|order|, i requires 0 <= i < |order| => f[order[i]])
  }

  ghost predicate Mapped(order: seq<Id>, order': seq<Id>, f: map<Id, Id>) {
    |order'| == |order| && forall i | 0 <= i < |order| :: order[i] in f && order'[i] == f[order[i]]
  }

  lemma CopyIsLinear(c: Container, c': Container, id: string, f: map<Id, Id>)
    requires IsCopy(c, c', id, f) && Linear(c)
    ensures Linear(c')
  {
    hide IsChain, RevisionsCopied, CopiedAlong;
    var order :| IsChain(c, order);
    CopiedChain(c, c', id, f, order);
  }

  lemma MappedOrder(c: Container, c': Container, id: string, f: map<Id, Id>, order: seq<Id>) returns (order': seq<Id>)
    requires RevisionsCopied(c.revisions, c'.revisions, id, f) && IsChain(c, order)
    ensures Mapped(order, order', f)
  {
    hide *;
    forall i | 0 <= i < |order|
      ensures order[i] in f
    {
      ChainKeyAt(c, order, i);
      RevisionsCopiedAt(c.revisions, c'.revisions, id, f, order[i]);
    }
    order' := MapOrder(order, f);
    OrderIsMapped(order, order', f);
  }

  lemma OrderIsMapped(order: seq<Id>, order': seq<Id>, f: map<Id, Id>)
    requires |order'| == |order| && forall i | 0 <= i < |order| :: order[i] in f && order'[i] == f[order[i]]
    ensures Mapped(order, order', f)
  {
  }

  lemma MappedAt(order: seq<Id>, order': seq<Id>, f: map<Id, Id>, i: nat)
    requires Mapped(order, order', f) && i < |order|
    ensures i < |order'| && order[i] in f && order'[i] == f[order[i]]
  {
  }

  lemma MappedLength(order: seq<Id>, order': seq<Id>, f: map<Id, Id>)
    requires Mapped(order, order', f)
    ensures |order'| == |order|
  {
  }

  lemma CopiedChain(c: Container, c': Container, id: string, f: map<Id, Id>, order: seq<Id>)
    requires RevisionsCopied(c.revisions, c'.revisions, id, f) && c'.containerId == id && IsChain(c, order)
    ensures Linear(c')
  {
    hide *;
    RevisionsCopiedCount(c.revisions, c'.revisions, id, f);
    var order' := MappedOrder(c, c', id, f, order);
    MappedLength(order, order', f);
    forall i | 0 <= i < |order'|
      ensures LinkAt(c', order', i)
    {
      CopiedLinkAt(c, c', id, f, order, order', i);
    }
    forall v | v in c'.revisions
      ensures v in order'
    {
      CopiedVersionListed(c, c', id, f, order, order', v);
    }
    ChainFrom(c, c', order, order');
  }

  lemma CopiedLinkAt(c: Container, c': Container, id: string, f: map<Id, Id>, order: seq<Id>, order': seq<Id>, i: nat)
    requires RevisionsCopied(c.revisions, c'.revisions, id, f) && c'.containerId == id && IsChain(c, order)
    requires i < |order| && Mapped(order, order', f)
    ensures LinkAt(c', order', i)
  {
    hide *;
    ChainLinkAt(c, order, i);
    ChainKeyAt(c, order, i);
    RevisionsCopiedAt(c.revisions, c'.revisions, id, f, order[i]);
    CopiedLink(c, c', id, f, order, order', i);
  }

  lemma CopiedVersionListed(c: Container, c': Container, id: string, f: map<Id, Id>, order: seq<Id>, order': seq<Id>,
                            v: Id)
    requires RevisionsCopied(c.revisions, c'.revisions, id, f) && IsChain(c, order) && v in c'.revisions
    requires Mapped(order, order', f)
    ensures v in order'
  {
    hide *;
    var u := RevisionsCopiedFrom(c.revisions, c'.revisions, id, f, v);
    var i := ChainIndex(c, order, u);
    MappedAt(order, order', f, i);
  }

  lemma ChainLinkAt(c: Container, order: seq<Id>, i: nat)
    requires IsChain(c, order) && i < |order|
    ensures LinkAt(c, order, i)
  {
  }

  lemma ChainIndex(c: Container, order: seq<Id>, v: Id) returns (i: nat)
    requires IsChain(c, order) && v in c.revisions
    ensures i < |order| && order[i] == v
  {
    i :| 0 <= i < |order| && order[i] == v;
  }

  lemma ChainFrom(c: Container, c': Container, order: seq<Id>, order': seq<Id>)
    requires IsChain(c, order) && |order'| == |order| && |c'.revisions| == |c.revisions|
    requires forall i | 0 <= i < |order'| :: LinkAt(c', order', i)
    requires forall v | v in c'.revisions :: v in order'
    ensures Linear(c')
  {
    assert IsChain(c', order');
  }

  lemma ChainKeys(c: Container, order: seq<Id>)
    requires IsChain(c, order)
    ensures forall i | 0 <= i < |order| :: order[i] in c.revisions
  {
    forall i | 0 <= i < |order|
      ensures order[i] in c.revisions
    {
      assert LinkAt(c, order, i);
    }
  }

  lemma ChainKeyAt(c: Container, order: seq<Id>, i: nat)
    requires IsChain(c, order) && i < |order|
    ensures order[i] in c.revisions
  {
    ChainKeys(c, order);
  }

  lemma CopiedLink(c: Container, c': Container, id: string, f: map<Id, Id>, order: seq<Id>, order': seq<Id>, i: nat)
    requires i < |order| && Mapped(order, order', f) && LinkAt(c, order, i) && c'.containerId == id
    requires order[i] in f && f[order[i]] in c'.revisions && order[i] in c.revisions
    requires CopiedRevision(c.revisions[order[i]], c'.revisions[f[order[i]]], id, f)
    ensures LinkAt(c', order', i)
  {
    assert order'[i] == f[order[i]];
    if i > 0 { MappedAt(order, order', f, i - 1); }
  }

  /** An injective map has as many values as keys. */
  lemma {:induction false} ValuesCount(f: map<Id, Id>)
    requires Injective(f)
    ensures |f.Values| == |f.Keys|
    decreases |f|
  {
    if f != map[] {
      var k :| k in f;
      var rest := f - {k};
      assert rest.Keys == f.Keys - {k};
      ValuesCount(rest);
      forall v
        ensures v in f.Values <==> v in rest.Values || v == f[k]
      {
        if v in f.Values {
          var u :| u in f && f[u] == v;
          if u != k { assert rest[u] == v; }
        }
      }
      assert f.Values == rest.Values + {f[k]};
      assert f[k] !in rest.Values;
    } else {
      assert f.Values == {};
    }
  }

  lemma CopyKeepsPointers(rules: Rules, c: Container, c': Container, id: string, f: map<Id, Id>)
    requires IsCopy(c, c', id, f) && AllPointersOk(rules, c)
    ensures AllPointersOk(rules, c')
  {
    hide CopiedEnvironment, PointersOk, RevisionsCopied, CopiedAlong;
    var g :| CopiedAlong(c, c', f, g);
    forall k | k in c'.environments
      ensures PointersOk(rules, c', c'.environments[k])
    {
      var e := EnvironmentCopiedAt(c, c', f, g, k);
      CopiedPointersOk(rules, c, c', id, f, c.environments[e], c'.environments[k], k);
    }
  }

  lemma CopiedName(e: Environment, e': Environment, id: Id, f: map<Id, Id>)
    requires CopiedEnvironment(e, e', id, f)
    ensures e'.name == e.name
  {
  }

  lemma CopiedPointerOk(rules: Rules, c: Container, c': Container, id: string, f: map<Id, Id>, pointer: Option<Id>)
    requires RevisionsCopied(c.revisions, c'.revisions, id, f) && PointsToSound(rules, c, pointer)
    ensures pointer.Some? ==> pointer.value in f && PointsToSound(rules, c', Some(f[pointer.value]))
  {
    hide Sound, RevisionsCopied;
    if pointer.Some? { RevisionsCopiedAt(c.revisions, c'.revisions, id, f, pointer.value); }
  }

  lemma CopiedPointersOk(rules: Rules, c: Container, c': Container, id: string, f: map<Id, Id>, e: Environment,
                         copy: Environment, k: Id)
    requires RevisionsCopied(c.revisions, c'.revisions, id, f) && PointersOk(rules, c, e)
    requires CopiedEnvironment(e, copy, k, f)
    ensures PointersOk(rules, c', copy)
  {
    hide RevisionsCopied, Sound;
    CopiedPointerOk(rules, c, c', id, f, e.current);
    CopiedPointerOk(rules, c, c', id, f, e.previous);
    if e.previous.Some? { RevisionsCopiedApart(c.revisions, c'.revisions, id, f, e.current.value, e.previous.value); }
  }

  /** The copy takes its ids from `base` on. */
  lemma CopyIdsBelow(store: Store, doc: Document, id: string, base: Id, store': Store, sorted: seq<Revision>, f: map<Id,
                     Id>)
    requires ImportedAs(store, doc, Some(id), base, store', sorted, f)
    ensures IdsBelow(store'[Fold(id)], base + |sorted| + |doc.environments|)
  {
    hide Fold, FreshMap, CopiedRevision, CopiedEnvironment, RevisionMap, EnvironmentMap;
    var copies, environments :|
      CopiedLists(doc, id, base, sorted, f, copies, environments)
      && store' == store[Fold(id) := Container(id, RevisionMap(copies), EnvironmentMap(environments), map[])];
    CopiesAreFresh(sorted, copies, id, f, base);
    CopiedIds(doc.environments, environments, f, base + |sorted|);
    KeysAreVersions(copies);
    EnvironmentKeys(environments);
  }

  /** `clone_container`: for a free id, and absent a failing write, it succeeds exactly when
      every parent in the source is older than its child, and stores an isomorphic copy; any
      other outcome changes nothing. */
  method CloneContainer(store: Store, source: string, newId: string, base: Id, failAt: Option<nat>)
    returns (store': Store, reply: ImportReply, ghost f: map<Id, Id>)
    requires source in store && forall k | k in store :: WellFormed(store[k])
    ensures !reply.Imported? ==> store' == store
    ensures Fold(newId) in store ==> reply == KeyTaken
    ensures Fold(newId) !in store && failAt.None? ==> (reply.Imported? <==> ParentsOlder(store[source]))
    ensures reply.Imported? ==>
      Fold(newId) !in store && Fold(newId) in store' && store' == store[Fold(newId) := store'[Fold(newId)]]
    ensures reply.Imported? ==>
      ParentsOlder(store[source]) && IsCopy(store[source], store'[Fold(newId)], newId, f)
    ensures reply.Imported? ==>
      reply.count == |store[source].revisions|
      && IdsBelow(store'[Fold(newId)], base + |store[source].revisions| + |store[source].environments|)
  {
    hide *;
    AllKeyed(store);
    SourceIsKeyed(store, source);
    var doc := Export(store[source]);
    ExportParses(store[source], doc);
    ExportCounts(store[source], doc);
    ghost var sorted;
    store', reply, sorted, f := Import(store, doc, Some(newId), base, failAt);
    SortedExport(store[source], doc, sorted);
    CopyKey(doc, newId);
    ReadyToCopy(doc, newId, sorted);
    if reply.Imported? {
      ImportedCopyIsCopy(store, store[source], doc, newId, base, store', sorted, f);
      ImportedIsStored(store, doc, newId, base, store', sorted, f);
      CopyIdsBelow(store, doc, newId, base, store', sorted, f);
    }
  }

  lemma AllKeyed(store: Store)
    requires forall k | k in store :: WellFormed(store[k])
    ensures forall k | k in store :: Keyed(store[k])
  {
    hide Fold, Verified;
    forall k | k in store
      ensures Keyed(store[k])
    {
      WellFormedIsKeyed(store[k]);
    }
  }

  lemma WellFormedIsKeyed(c: Container)
    requires WellFormed(c)
    ensures Keyed(c)
  {
    hide Verified, DistinctNumbers, DistinctNames;
    assert forall v | v in c.revisions :: RevisionKept(c, c.revisions[v], v);
    assert forall k | k in c.environments :: EnvironmentKept(c, c.environments[k], k);
  }

  lemma SourceIsKeyed(store: Store, source: string)
    requires source in store && forall k | k in store :: Keyed(store[k])
    ensures Keyed(store[source])
  {
  }

  lemma ExportCounts(c: Container, doc: Document)
    requires IsExport(c, doc)
    ensures |doc.revisions| == |c.revisions| && |doc.environments| == |c.environments|
  {
  }

  lemma CopyKey(doc: Document, newId: string)
    ensures StoreKey(doc, Some(newId)) == Fold(newId)
  {
  }

  lemma ReadyToCopy(doc: Document, newId: string, sorted: seq<Revision>)
    requires RevisionsOk(doc) && EnvironmentsOk(doc)
    ensures ParentsPrecede(sorted) <==> Importable(doc, Some(newId), sorted)
  {
  }

  lemma ImportedIsStored(store: Store, doc: Document, id: string, base: Id, store': Store, sorted: seq<Revision>,
                         f: map<Id, Id>)
    requires ImportedAs(store, doc, Some(id), base, store', sorted, f)
    ensures Fold(id) !in store && Fold(id) in store' && store' == store[Fold(id) := store'[Fold(id)]]
  {
    hide Fold, CopiedLists;
  }

  lemma SortedExport(c: Container, doc: Document, sorted: seq<Revision>)
    requires WellFormed(c) && IsExport(c, doc) && SortedByNumber(sorted) && multiset(sorted) == multiset(doc.revisions)
    ensures sorted == doc.revisions
  {
    hide EnvironmentsKept, RevisionsKept;
    PermutationLists(doc.revisions, sorted, c.revisions);
    ListingIsUnique(c, sorted, doc.revisions);
  }

  /** Export, plain import into another store, export again: the same revisions; importing a
      second time finds them present and changes nothing. */
  method ReimportExport(store: Store, source: string, other: Store, base: Id)
    returns (doc: Document, again: Document, other': Store, first: ImportReply, second: ImportReply)
    requires source in store && WellFormed(store[source])
    requires forall k | k in other :: WellFormed(other[k])
    requires Fold(store[source].containerId) !in other
    ensures first.Imported? && second == AlreadyPresent
    ensures again.revisions == doc.revisions
    ensures Fold(store[source].containerId) in other'
    ensures var c := other'[Fold(store[source].containerId)];
      c.revisions == store[source].revisions && c.environments == store[source].environments
    ensures forall k | k in other :: k in other' && other'[k] == other[k]
  {
    hide Fold, RevisionKept, EnvironmentsKept, RevisionsKept, ParentsPrecede, RevisionsOk, EnvironmentsOk, Lists,
         SortedByNumber, Fingerprints, Keyed;
    AllKeyed(other);
    var c := store[source];
    WellFormedIsKeyed(c);
    doc := Export(c);
    ExportParses(c, doc);
    ghost var sorted, f;
    other', first, sorted, f := Import(other, doc, None, base, None);
    SortedExport(c, doc, sorted);
    var key := StoreKey(doc, None);
    ListedMapIsOriginal(sorted, c.revisions);
    ListedEnvironmentMapIsOriginal(doc.environments, c.environments);
    var stored := other'[key];
    SameContents(c, stored);
    again := Export(stored);
    ListingIsUnique(stored, again.revisions, doc.revisions);
    ghost var sorted2, f2;
    var after;
    after, second, sorted2, f2 := Import(other', doc, None, base, None);
    SortedExport(c, doc, sorted2);
    OnlyOneFingerprint(stored, sorted2);
  }

  lemma SameContents(c: Container, c2: Container)
    requires WellFormed(c) && c2.revisions == c.revisions && c2.environments == c.environments
    requires c2.containerId == c.containerId
    ensures RevisionsKept(c2) && Keyed(c2)
  {
    hide Verified, Fold;
    WellFormedIsKeyed(c);
    assert forall v | v in c2.revisions :: RevisionKept(c, c2.revisions[v], v);
  }

  lemma OnlyOneFingerprint(c: Container, sorted: seq<Revision>)
    requires RevisionsKept(c) && Lists(sorted, c.revisions) && SortedByNumber(sorted)
    ensures !OtherFingerprints(c, sorted)
  {
    forall existing | Lists(existing, c.revisions) && SortedByNumber(existing)
      ensures existing == sorted
    {
      ListingIsUnique(c, existing, sorted);
    }
  }
}
