/** Export, import and clone of a container. */
module Transfer {
  import opened Wrappers
  import opened Config
  import opened ControlPlane

  /** An export document; the audit log is not part of it. */
  datatype Document = Document(containerId: string, revisions: seq<Revision>, environments: seq<Environment>)

  predicate SortedByNumber(rs: seq<Revision>) {
    forall i, j | 0 <= i < j < |rs| :: rs[i].number <= rs[j].number
  }

  /** `rs` lists the values of `m`, each stored under its own version, once each. */
  ghost predicate Lists(rs: seq<Revision>, m: map<Id, Revision>) {
    && |rs| == |m|
    && (forall i | 0 <= i < |rs| :: rs[i].version in m && m[rs[i].version] == rs[i])
    && (forall v | v in m :: HasVersion(rs, v))
  }

  predicate HasVersion(rs: seq<Revision>, v: Id) {
    exists i | 0 <= i < |rs| :: rs[i].version == v
  }

  predicate HasEnvironment(es: seq<Environment>, k: Id) {
    exists i | 0 <= i < |es| :: es[i].id == k
  }

  lemma HasVersionGrows(rs: seq<Revision>, r: Revision)
    ensures HasVersion(rs + [r], r.version)
    ensures forall v | HasVersion(rs, v) :: HasVersion(rs + [r], v)
  {
    assert (rs + [r])[|rs|] == r;
    forall v | HasVersion(rs, v)
      ensures HasVersion(rs + [r], v)
    {
      var i :| 0 <= i < |rs| && rs[i].version == v;
      assert (rs + [r])[i] == rs[i];
    }
  }

  lemma HasEnvironmentGrows(es: seq<Environment>, e: Environment)
    ensures HasEnvironment(es + [e], e.id)
    ensures forall k | HasEnvironment(es, k) :: HasEnvironment(es + [e], k)
  {
    assert (es + [e])[|es|] == e;
    forall k | HasEnvironment(es, k)
      ensures HasEnvironment(es + [e], k)
    {
      var i :| 0 <= i < |es| && es[i].id == k;
      assert (es + [e])[i] == es[i];
    }
  }

  ghost predicate ListsEnvironments(es: seq<Environment>, m: map<Id, Environment>) {
    && |es| == |m|
    && (forall i | 0 <= i < |es| :: es[i].id in m && m[es[i].id] == es[i])
    && (forall k | k in m :: HasEnvironment(es, k))
  }

  /** Every value is stored under its own id. */
  predicate Keyed(c: Container) {
    && (forall v | v in c.revisions :: c.revisions[v].version == v)
    && (forall e | e in c.environments :: c.environments[e].id == e)
  }

  /** Insertion into a list sorted by number, after equal numbers. */
  function Insert(rs: seq<Revision>, r: Revision): seq<Revision> {
    if rs == [] || rs[|rs| - 1].number <= r.number then rs + [r]
    else Insert(rs[..|rs| - 1], r) + [rs[|rs| - 1]]
  }

  lemma {:induction false} InsertKeepsAll(rs: seq<Revision>, r: Revision)
    ensures multiset(Insert(rs, r)) == multiset(rs) + multiset{r}
  {
    if rs != [] && rs[|rs| - 1].number > r.number {
      var front, last := rs[..|rs| - 1], rs[|rs| - 1];
      InsertKeepsAll(front, r);
      assert rs == front + [last];
    }
  }

  lemma {:induction false} InsertSorts(rs: seq<Revision>, r: Revision)
    requires SortedByNumber(rs)
    ensures SortedByNumber(Insert(rs, r))
  {
    if rs != [] && rs[|rs| - 1].number > r.number {
      var front, last := rs[..|rs| - 1], rs[|rs| - 1];
      InsertSorts(front, r);
      var inserted := Insert(front, r);
      forall i | 0 <= i < |inserted|
        ensures inserted[i].number <= last.number
      {
        InsertedIsOneOf(front, r, i);
      }
    }
  }

  lemma InsertedIsOneOf(rs: seq<Revision>, r: Revision, i: nat)
    requires i < |Insert(rs, r)|
    ensures Insert(rs, r)[i] == r || exists j | 0 <= j < |rs| :: rs[j] == Insert(rs, r)[i]
  {
    InsertKeepsAll(rs, r);
    assert Insert(rs, r)[i] in multiset(Insert(rs, r));
    assert Insert(rs, r)[i] in multiset(rs) + multiset{r};
    if Insert(rs, r)[i] != r { assert Insert(rs, r)[i] in rs; }
  }

  /** The list sorted by number. */
  method SortByNumber(rs: seq<Revision>) returns (sorted: seq<Revision>)
    ensures SortedByNumber(sorted) && multiset(sorted) == multiset(rs)
  {
    sorted := [];
    for i := 0 to |rs|
      invariant SortedByNumber(sorted) && multiset(sorted) == multiset(rs[..i])
    {
      InsertSorts(sorted, rs[i]);
      InsertKeepsAll(sorted, rs[i]);
      assert rs[..i + 1] == rs[..i] + [rs[i]];
      sorted := Insert(sorted, rs[i]);
    }
    assert rs[..|rs|] == rs;
  }

  lemma PermutationLists(rs: seq<Revision>, sorted: seq<Revision>, m: map<Id, Revision>)
    requires Lists(rs, m) && multiset(sorted) == multiset(rs)
    ensures Lists(sorted, m)
  {
    assert |sorted| == |multiset(sorted)| == |multiset(rs)| == |rs|;
    forall i | 0 <= i < |sorted|
      ensures sorted[i].version in m && m[sorted[i].version] == sorted[i]
    {
      assert sorted[i] in multiset(sorted);
      assert sorted[i] in rs;
    }
    forall v | v in m
      ensures HasVersion(sorted, v)
    {
      var j :| 0 <= j < |rs| && rs[j].version == v;
      assert rs[j] in multiset(rs);
      assert rs[j] in sorted;
      var i :| 0 <= i < |sorted| && sorted[i] == rs[j];
    }
  }

  method ListRevisions(c: Container) returns (rs: seq<Revision>)
    requires Keyed(c)
    ensures Lists(rs, c.revisions) && SortedByNumber(rs)
  {
    var listed: seq<Revision> := [];
    var rest := c.revisions.Keys;
    while rest != {}
      invariant rest <= c.revisions.Keys && |listed| + |rest| == |c.revisions|
      invariant forall i | 0 <= i < |listed| ::
        listed[i].version in c.revisions && c.revisions[listed[i].version] == listed[i]
      invariant forall v | v in c.revisions.Keys - rest :: HasVersion(listed, v)
      decreases rest
    {
      hide HasVersion;
      var v :| v in rest;
      HasVersionGrows(listed, c.revisions[v]);
      listed := listed + [c.revisions[v]];
      rest := rest - {v};
    }
    rs := SortByNumber(listed);
    PermutationLists(listed, rs, c.revisions);
  }

  method ListEnvironments(c: Container) returns (es: seq<Environment>)
    requires Keyed(c)
    ensures ListsEnvironments(es, c.environments)
  {
    es := [];
    var rest := c.environments.Keys;
    while rest != {}
      invariant rest <= c.environments.Keys && |es| + |rest| == |c.environments|
      invariant forall i | 0 <= i < |es| :: es[i].id in c.environments && c.environments[es[i].id] == es[i]
      invariant forall k | k in c.environments.Keys - rest :: HasEnvironment(es, k)
      decreases rest
    {
      hide HasEnvironment;
      var k :| k in rest;
      HasEnvironmentGrows(es, c.environments[k]);
      es := es + [c.environments[k]];
      rest := rest - {k};
    }
  }

  ghost predicate IsExport(c: Container, doc: Document) {
    doc.containerId == c.containerId && Lists(doc.revisions, c.revisions) && SortedByNumber(doc.revisions)
    && ListsEnvironments(doc.environments, c.environments)
  }

  /** `export_container`. */
  method Export(c: Container) returns (doc: Document)
    requires Keyed(c)
    ensures IsExport(c, doc)
  {
    var rs := ListRevisions(c);
    var es := ListEnvironments(c);
    doc := Document(c.containerId, rs, es);
  }

  function Versions(rs: seq<Revision>): set<Id> {
    set i | 0 <= i < |rs| :: rs[i].version
  }

  /** What `_parse_export_revisions` accepts. */
  predicate RevisionsOk(doc: Document) {
    var rs := doc.revisions;
    && (forall i | 0 <= i < |rs| :: Verified(rs[i]) && rs[i].number >= 1 && rs[i].containerId == doc.containerId)
    && (forall i, j | 0 <= i < j < |rs| :: rs[i].version != rs[j].version && rs[i].number != rs[j].number)
    && (forall i | 0 <= i < |rs| && rs[i].parent.Some? :: rs[i].parent.value in Versions(rs))
  }

  predicate PointerKnown(pointer: Option<Id>, versions: set<Id>) {
    pointer.Some? ==> pointer.value in versions
  }

  /** What `_parse_export_environments` accepts. */
  predicate EnvironmentsOk(doc: Document) {
    var es := doc.environments;
    && (forall i | 0 <= i < |es| :: es[i].containerId == doc.containerId)
    && (forall i, j | 0 <= i < j < |es| :: Fold(es[i].name) != Fold(es[j].name))
    && (forall i | 0 <= i < |es| ::
          && PointerKnown(es[i].current, Versions(doc.revisions))
          && PointerKnown(es[i].previous, Versions(doc.revisions)))
  }

  method ParseRevisions(doc: Document) returns (ok: bool, sorted: seq<Revision>)
    ensures ok == RevisionsOk(doc)
    ensures SortedByNumber(sorted) && multiset(sorted) == multiset(doc.revisions)
  {
    var rs := doc.revisions;
    sorted := SortByNumber(rs);
    var versions: set<Id> := {};
    var numbers: set<nat> := {};
    for i := 0 to |rs|
      invariant versions == (set j | 0 <= j < i :: rs[j].version)
      invariant numbers == (set j | 0 <= j < i :: rs[j].number)
      invariant forall j | 0 <= j < i :: Verified(rs[j]) && rs[j].number >= 1 && rs[j].containerId == doc.containerId
      invariant forall j, k | 0 <= j < k < i :: rs[j].version != rs[k].version && rs[j].number != rs[k].number
    {
      if !Verified(rs[i]) || rs[i].number < 1 || rs[i].containerId != doc.containerId || rs[i].version in versions
         || rs[i].number in numbers {
        return false, sorted;
      }
      versions, numbers := versions + {rs[i].version}, numbers + {rs[i].number};
    }
    for i := 0 to |rs|
      invariant forall j | 0 <= j < i && rs[j].parent.Some? :: rs[j].parent.value in versions
    {
      if rs[i].parent.Some? && rs[i].parent.value !in versions { return false, sorted; }
    }
    ok := true;
  }

  method ParseEnvironments(doc: Document) returns (ok: bool)
    ensures ok == EnvironmentsOk(doc)
  {
    hide Fold;
    var es, versions := doc.environments, Versions(doc.revisions);
    var names: set<string> := {};
    for i := 0 to |es|
      invariant names == (set j | 0 <= j < i :: Fold(es[j].name))
      invariant forall j | 0 <= j < i :: es[j].containerId == doc.containerId
      invariant forall j, k | 0 <= j < k < i :: Fold(es[j].name) != Fold(es[k].name)
      invariant forall j | 0 <= j < i :: PointerKnown(es[j].current, versions) && PointerKnown(es[j].previous, versions)
    {
      if es[i].containerId != doc.containerId || Fold(es[i].name) in names || !PointerKnown(es[i].current, versions)
         || !PointerKnown(es[i].previous, versions) {
        return false;
      }
      names := names + {Fold(es[i].name)};
    }
    ok := true;
  }

  function MapParent(parent: Option<Id>, f: map<Id, Id>): Option<Id>
    requires parent.Some? ==> parent.value in f
  {
    if parent.Some? then Some(f[parent.value]) else None
  }

  /** `r'` is the copy of `r` in the container `id`: same number, payload and notes, and the
      copy's parent is the parent's copy. */
  ghost predicate CopiedRevision(r: Revision, r': Revision, id: string, f: map<Id, Id>) {
    && r.version in f && (r.parent.Some? ==> r.parent.value in f)
    && r' == NewRevision(f[r.version], id, r.number, MapParent(r.parent, f), r.payload, "draft", r.notes)
  }

  /** `f` sends the i-th version to the i-th fresh id. */
  predicate FreshMap(rs: seq<Revision>, f: map<Id, Id>, base: Id) {
    && f.Keys == Versions(rs)
    && forall i | 0 <= i < |rs| :: f[rs[i].version] == base + i
  }

  /** A parent precedes its child in the list. */
  predicate ParentsPrecede(rs: seq<Revision>) {
    forall i | 0 <= i < |rs| && rs[i].parent.Some? :: rs[i].parent.value in Versions(rs[..i])
  }

  /** `_remap_revisions`: fails when a parent does not precede its child. */
  method RemapRevisions(rs: seq<Revision>, id: string, base: Id)
    returns (copies: seq<Revision>, f: map<Id, Id>, ok: bool)
    requires forall i, j | 0 <= i < j < |rs| :: rs[i].version != rs[j].version
    ensures ok == ParentsPrecede(rs)
    ensures ok ==>
      FreshMap(rs, f, base) && |copies| == |rs| && forall i | 0 <= i < |rs| :: CopiedRevision(rs[i], copies[i], id, f)
  {
    hide FreshMap, Versions;
    copies, f, ok := [], map[], true;
    EmptyFreshMap(base);
    assert rs[..0] == [];
    for i := 0 to |rs|
      invariant FreshMap(rs[..i], f, base) && |copies| == i
      invariant forall j | 0 <= j < i :: CopiedRevision(rs[j], copies[j], id, f)
      invariant forall j | 0 <= j < i && rs[j].parent.Some? :: rs[j].parent.value in Versions(rs[..j])
    {
      var r := rs[i];
      var parent := None;
      FreshKeys(rs[..i], f, base);
      if r.parent.Some? {
        if r.parent.value !in f { return copies, f, false; }
        parent := Some(f[r.parent.value]);
      }
      var copy := NewRevision(base + i, id, r.number, parent, r.payload, "draft", r.notes);
      VersionsStep(rs, i);
      FreshMapStep(rs, f, base, i);
      CopiesStayCopies(rs, copies, id, f, i, base + i);
      f := f[r.version := base + i];
      copies := copies + [copy];
    }
    assert rs[..|rs|] == rs;
  }

  lemma EmptyFreshMap(base: Id)
    ensures FreshMap([], map[], base)
  {
  }

  lemma FreshKeys(rs: seq<Revision>, f: map<Id, Id>, base: Id)
    requires FreshMap(rs, f, base)
    ensures f.Keys == Versions(rs)
  {
  }

  lemma CopiesStayCopies(rs: seq<Revision>, copies: seq<Revision>, id: string, f: map<Id, Id>, i: nat, newId: Id)
    requires i < |rs| && |copies| == i && rs[i].version !in f
    requires forall j | 0 <= j < i :: CopiedRevision(rs[j], copies[j], id, f)
    ensures forall j | 0 <= j < i :: CopiedRevision(rs[j], copies[j], id, f[rs[i].version := newId])
  {
    forall j | 0 <= j < i
      ensures CopiedRevision(rs[j], copies[j], id, f[rs[i].version := newId])
    {
      assert CopiedRevision(rs[j], copies[j], id, f);
    }
  }

  lemma VersionsStep(rs: seq<Revision>, i: nat)
    requires i < |rs| && forall j, k | 0 <= j < k < |rs| :: rs[j].version != rs[k].version
    ensures Versions(rs[..i + 1]) == Versions(rs[..i]) + {rs[i].version} && rs[i].version !in Versions(rs[..i])
  {
    assert rs[..i + 1] == rs[..i] + [rs[i]];
    assert forall j | 0 <= j < i :: rs[..i + 1][j] == rs[..i][j] == rs[j];
  }

  lemma FreshMapStep(rs: seq<Revision>, f: map<Id, Id>, base: Id, i: nat)
    requires i < |rs| && FreshMap(rs[..i], f, base) && forall j, k | 0 <= j < k < |rs| :: rs[j].version != rs[k].version
    ensures FreshMap(rs[..i + 1], f[rs[i].version := base + i], base)
  {
    VersionsStep(rs, i);
    var f', front := f[rs[i].version := base + i], rs[..i + 1];
    forall j | 0 <= j < |front|
      ensures f'[front[j].version] == base + j
    {
      if j < i { assert front[j] == rs[..i][j]; }
    }
  }

  /** `e'` is the copy of `e` under the id `id`, its pointers mapped. */
  ghost predicate CopiedEnvironment(e: Environment, e': Environment, id: Id, f: map<Id, Id>) {
    && (e.current.Some? ==> e.current.value in f) && (e.previous.Some? ==> e.previous.value in f)
    && e' == Environment(id, e'.containerId, e.name, e.guarded, MapParent(e.current, f), MapParent(e.previous, f))
  }

  predicate AllIn(es: seq<Environment>, containerId: string) {
    forall i | 0 <= i < |es| :: es[i].containerId == containerId
  }

  /** `_remap_environments`, into the container `id` and with new ids from `base` on. */
  method RemapEnvironments(es: seq<Environment>, id: string, f: map<Id, Id>, base: Id)
    returns (copies: seq<Environment>)
    requires forall i | 0 <= i < |es| :: PointerKnown(es[i].current, f.Keys) && PointerKnown(es[i].previous, f.Keys)
    ensures |copies| == |es| && AllIn(copies, id) && forall i | 0 <= i < |es| ::
      CopiedEnvironment(es[i], copies[i], base + i, f)
  {
    copies := [];
    for i := 0 to |es|
      invariant |copies| == i && AllIn(copies, id) && forall j | 0 <= j < i ::
        CopiedEnvironment(es[j], copies[j], base + j, f)
    {
      var e := es[i];
      copies :=
        copies + [Environment(base + i, id, e.name, e.guarded, MapParent(e.current, f), MapParent(e.previous, f))];
    }
  }

  function RevisionMap(rs: seq<Revision>): (m: map<Id, Revision>)
    ensures m.Keys == Versions(rs)
  {
    if rs == [] then map[]
    else
      assert rs == rs[..|rs| - 1] + [rs[|rs| - 1]];
      RevisionMap(rs[..|rs| - 1])[rs[|rs| - 1].version := rs[|rs| - 1]]
  }

  function EnvironmentMap(es: seq<Environment>): (m: map<Id, Environment>)
    ensures m.Keys == set i | 0 <= i < |es| :: es[i].id
  {
    if es == [] then map[]
    else
      assert es == es[..|es| - 1] + [es[|es| - 1]];
      EnvironmentMap(es[..|es| - 1])[es[|es| - 1].id := es[|es| - 1]]
  }
}
