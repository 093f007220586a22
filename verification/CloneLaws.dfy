/** What a copy keeps, and what fingerprints tell. */
module CloneLaws {
  import opened Wrappers
  import opened Config
  import opened ControlPlane
  import opened Transfer
  import opened Clone
  import opened CloneProperties

  /** A checksum covers the container, the version, its number and parent, and the payload. */
  lemma ChecksumCovers(r: Revision, s: Revision)
    requires Verified(r) && Verified(s) && r.checksum == s.checksum
    ensures r.containerId == s.containerId && r.version == s.version && r.number == s.number && r.parent == s.parent
    ensures r.payload == s.payload
  {
  }

  /** A stored container is taken for the document imported again only if it has the same
      revisions, their status and notes aside. */
  lemma SameFingerprintsSameRevisions(rs: seq<Revision>, ss: seq<Revision>)
    requires Fingerprints(rs) == Fingerprints(ss)
    requires (forall i | 0 <= i < |rs| :: Verified(rs[i])) && forall i | 0 <= i < |ss| :: Verified(ss[i])
    ensures |rs| == |ss|
    ensures forall i | 0 <= i < |rs| :: ss[i] == rs[i].(status := ss[i].status, notes := ss[i].notes)
  {
    assert |Fingerprints(rs)| == |Fingerprints(ss)|;
    forall i | 0 <= i < |rs|
      ensures ss[i] == rs[i].(status := ss[i].status, notes := ss[i].notes)
    {
      assert Fingerprints(rs)[i] == Fingerprints(ss)[i];
      ChecksumCovers(rs[i], ss[i]);
    }
  }

  /** The copy of a revision is a draft with the same number, payload and notes, after the copy
      of its parent. */
  predicate SameRevision(r: Revision, copy: Revision, id: string, f: map<Id, Id>) {
    && copy.containerId == id && copy.number == r.number && copy.payload == r.payload && copy.notes == r.notes
    && copy.status == "draft" && Verified(copy)
    && (r.parent.None? ==> copy.parent.None?)
    && (r.parent.Some? ==> r.parent.value in f && copy.parent == Some(f[r.parent.value]))
  }

  lemma CopiedRevisionIsSame(r: Revision, copy: Revision, id: string, f: map<Id, Id>)
    requires CopiedRevision(r, copy, id, f)
    ensures SameRevision(r, copy, id, f)
  {
  }

  lemma CopyParts(c: Container, c': Container, id: string, f: map<Id, Id>) returns (g: map<Id, Id>)
    requires IsCopy(c, c', id, f)
    ensures RevisionsCopied(c.revisions, c'.revisions, id, f) && CopiedAlong(c, c', f, g)
  {
    hide RevisionsCopied, CopiedAlong;
    g :| CopiedAlong(c, c', f, g);
  }

  lemma CopyKeepsRevision(c: Container, c': Container, id: string, f: map<Id, Id>, v: Id)
    requires IsCopy(c, c', id, f) && v in c.revisions
    ensures v in f && f[v] in c'.revisions && SameRevision(c.revisions[v], c'.revisions[f[v]], id, f)
  {
    hide *;
    var g := CopyParts(c, c', id, f);
    RevisionsCopiedAt(c.revisions, c'.revisions, id, f, v);
    CopiedRevisionIsSame(c.revisions[v], c'.revisions[f[v]], id, f);
  }

  /** The copy of an environment has its name and its protection, and points at the copies of
      what it points at. */
  predicate SameEnvironment(e: Environment, copy: Environment, f: map<Id, Id>) {
    && copy.name == e.name && copy.guarded == e.guarded
    && (e.current.None? ==> copy.current.None?) && (e.previous.None? ==> copy.previous.None?)
    && (e.current.Some? ==> e.current.value in f && copy.current == Some(f[e.current.value]))
    && (e.previous.Some? ==> e.previous.value in f && copy.previous == Some(f[e.previous.value]))
  }

  lemma CopiedEnvironmentIsSame(e: Environment, copy: Environment, k: Id, f: map<Id, Id>)
    requires CopiedEnvironment(e, copy, k, f)
    ensures SameEnvironment(e, copy, f)
  {
  }

  lemma AlongIs(c: Container, c': Container, f: map<Id, Id>, g: map<Id, Id>)
    requires CopiedAlong(c, c', f, g)
    ensures Injective(g) && g.Keys == c.environments.Keys && c'.environments.Keys == g.Values
    ensures forall e | e in c.environments ::
      g[e] in c'.environments && CopiedEnvironment(c.environments[e], c'.environments[g[e]], g[e], f)
  {
    hide CopiedEnvironment, Injective;
  }

  /** Every environment has a copy, there are as many, and every environment of the copy is one;
      so a clone loses no protection. */
  lemma CopyKeepsEnvironments(c: Container, c': Container, id: string, f: map<Id, Id>) returns (g: map<Id, Id>)
    requires IsCopy(c, c', id, f)
    ensures |c'.environments| == |c.environments| && g.Keys == c.environments.Keys && c'.environments.Keys == g.Values
    ensures forall e | e in c.environments ::
      g[e] in c'.environments && SameEnvironment(c.environments[e], c'.environments[g[e]], f)
  {
    hide *;
    g := CopyParts(c, c', id, f);
    AlongIs(c, c', f, g);
    ValuesCount(g);
    assert |c'.environments| == |c'.environments.Keys| && |c.environments| == |c.environments.Keys|;
    forall e | e in c.environments
      ensures g[e] in c'.environments && SameEnvironment(c.environments[e], c'.environments[g[e]], f)
    {
      CopiedEnvironmentIsSame(c.environments[e], c'.environments[g[e]], g[e], f);
    }
  }
}
