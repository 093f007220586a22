/** Runs of the whole store of containers. */
module StoreRuns {
  import opened Wrappers
  import opened Config
  import opened ControlPlane
  import opened ControlPlaneInvariant
  import opened ControlPlaneRuns
  import opened Transfer
  import opened Clone
  import opened CloneProperties
  import opened PlainImport
  import opened CopiedImport

  /** The containers by folded id, where each began, and the first unused id. */
  datatype State = State(containers: Store, starts: map<string, Start>, next: Id)

  /** `mayFail` says that a write might fail. */
  datatype StoreOp =
    | CreateContainer(id: string)
    | Call(key: string, op: Op)
    | ImportDocument(doc: Document, asId: Option<string>, mayFail: bool)
    | CloneOf(source: string, newId: string, mayFail: bool)

  ghost predicate Stays(s: State, s': State) {
    s'.containers == s.containers && s'.starts == s.starts && s.next <= s'.next
  }

  /** The container `c` is stored at `key`, and begins there. */
  ghost predicate Adds(s: State, s': State, key: string, c: Container) {
    && key !in s.containers && s'.containers == s.containers[key := c] && s'.starts == s.starts[key := PairsOf(c)]
    && IdsBelow(c, s'.next) && s.next <= s'.next
  }

  function Empty(id: string): Container { Container(id, map[], map[], map[]) }

  /** The document, once accepted, was stored at its key as `c`. */
  ghost predicate Stored(s: State, doc: Document, asId: Option<string>, s': State, sorted: seq<Revision>, f: map<Id,
                         Id>) {
    && Accepted(doc, sorted) && Importable(doc, asId, sorted)
    && ImportedAs(s.containers, doc, asId, s.next, s'.containers, sorted, f)
    && StoreKey(doc, asId) in s'.containers && Adds(s, s', StoreKey(doc, asId), s'.containers[StoreKey(doc, asId)])
  }

  /** The document is accepted, its id is free and, for a copy, parents precede children. */
  ghost predicate CanImport(s: State, doc: Document, asId: Option<string>) {
    && StoreKey(doc, asId) !in s.containers
    && forall sorted | SortedByNumber(sorted) && multiset(sorted) == multiset(doc.revisions) ::
         Importable(doc, asId, sorted)
  }

  /** There is such a source, its parents are older, and the new id is free. */
  ghost predicate CanClone(s: State, source: string, newId: string) {
    source in s.containers && Fold(newId) !in s.containers && ParentsOlder(s.containers[source])
  }

  ghost predicate Cloned(s: State, source: string, newId: string, s': State, f: map<Id, Id>) {
    && CanClone(s, source, newId) && Fold(newId) in s'.containers
    && IsCopy(s.containers[source], s'.containers[Fold(newId)], newId, f)
    && Adds(s, s', Fold(newId), s'.containers[Fold(newId)])
  }

  ghost predicate Called(rules: Rules, s: State, key: string, op: Op, s': State) {
    if key !in s.containers then Stays(s, s')
    else
      && s'.containers == s.containers[key := Effect(rules, s.containers[key], op, s.next).0]
      && s'.starts == s.starts && s.next + 2 <= s'.next
  }

  ghost predicate Step(rules: Rules, s: State, op: StoreOp, s': State) {
    match op
    case CreateContainer(id) => if Fold(id) in s.containers then Stays(s, s') else Adds(s, s', Fold(id), Empty(id))
    case Call(key, call) => Called(rules, s, key, call, s')
    case ImportDocument(doc, asId, mayFail) =>
      if Stays(s, s') then mayFail || !CanImport(s, doc, asId)
      else exists sorted, f :: Stored(s, doc, asId, s', sorted, f)
    case CloneOf(source, newId, mayFail) =>
      if Stays(s, s') then mayFail || !CanClone(s, source, newId)
      else exists f :: Cloned(s, source, newId, s', f)
  }

  /** Every container is stored under its folded id and satisfies the invariant. */
  ghost predicate AllOk(s: State) {
    s.starts.Keys == s.containers.Keys && forall k | k in s.containers :: ContainerOk(s, k)
  }

  ghost predicate ContainerOk(s: State, k: string)
    requires k in s.containers && k in s.starts
  {
    Fold(s.containers[k].containerId) == k && Inv(s.starts[k], s.containers[k], s.next)
  }

  lemma StaysOk(s: State, s': State)
    requires AllOk(s) && Stays(s, s')
    ensures AllOk(s')
  {
    hide Fold, Inv;
    forall k | k in s'.containers
      ensures ContainerOk(s', k)
    {
      assert ContainerOk(s, k);
      InvLater(s.starts[k], s.containers[k], s.next, s'.next);
    }
  }

  lemma AddsOk(s: State, s': State, key: string, c: Container)
    requires AllOk(s) && Adds(s, s', key, c) && Fold(c.containerId) == key && WellFormed(c) && c.audit == map[]
    ensures AllOk(s')
  {
    hide Fold, Inv, WellFormed, IdsBelow;
    BeginsInv(c, s'.next);
    forall k | k in s'.containers
      ensures ContainerOk(s', k)
    {
      if k != key {
        assert ContainerOk(s, k);
        InvLater(s.starts[k], s.containers[k], s.next, s'.next);
      }
    }
  }

  lemma EffectKeepsId(rules: Rules, c: Container, op: Op, n: Id)
    ensures Effect(rules, c, op, n).0.containerId == c.containerId
  {
    hide Latest, LastSequence, Sound, ResolveEnvironment, Ambiguous;
  }

  lemma CalledOk(rules: Rules, s: State, key: string, op: Op, s': State)
    requires AllOk(s) && Called(rules, s, key, op, s')
    ensures AllOk(s')
  {
    hide Fold, Inv, Effect;
    if key in s.containers {
      EffectKeepsId(rules, s.containers[key], op, s.next);
      forall k | k in s'.containers
        ensures ContainerOk(s', k)
      {
        assert ContainerOk(s, k);
        if k == key {
          EffectKeepsInv(rules, s.starts[k], s.containers[k], op, s.next);
          InvLater(s.starts[k], s'.containers[k], s.next + 2, s'.next);
        } else {
          InvLater(s.starts[k], s.containers[k], s.next, s'.next);
        }
      }
    } else {
      StaysOk(s, s');
    }
  }

  lemma StoredIsOk(s: State, doc: Document, asId: Option<string>, s': State, sorted: seq<Revision>, f: map<Id, Id>)
    requires AllOk(s) && Stored(s, doc, asId, s', sorted, f)
    ensures AllOk(s')
  {
    hide Accepted, AllOk, Fold, WellFormed, IdsBelow, StoredAs, RevisionsCopied, RevisionMap, EnvironmentMap,
         CopiedLists;
    var key := StoreKey(doc, asId);
    if asId.None? {
      StoredIsWellFormed(doc, sorted);
      assert s'.containers[key] == StoredAs(doc, sorted) by { StoredAsIs(doc, sorted); }
      AddsOk(s, s', key, s'.containers[key]);
    } else {
      var copies, environments :|
        CopiedLists(doc, asId.value, s.next, sorted, f, copies, environments)
        && s'.containers == s.containers[key := Container(asId.value, RevisionMap(copies), EnvironmentMap(environments),
                                                          map[])];
      CopiedDocument(doc, asId.value, s.next, sorted, f, copies, environments);
      AddsOk(s, s', key, s'.containers[key]);
    }
  }

  lemma StoredAsIs(doc: Document, sorted: seq<Revision>)
    ensures StoredAs(doc, sorted) ==
      Container(doc.containerId, RevisionMap(sorted), EnvironmentMap(doc.environments), map[])
  {
  }

  lemma ClonedIsOk(s: State, source: string, newId: string, s': State, f: map<Id, Id>)
    requires AllOk(s) && Cloned(s, source, newId, s', f)
    ensures AllOk(s')
  {
    hide Fold, WellFormed, IdsBelow, Audited, RevisionsCopied, CopiedAlong;
    assert ContainerOk(s, source);
    CopyIsWellFormed(s.containers[source], s'.containers[Fold(newId)], newId, f);
    hide Inv, ContainerOk;
    AddsOk(s, s', Fold(newId), s'.containers[Fold(newId)]);
  }

  /** Every operation on the store keeps every container's invariant. */
  lemma StepKeepsOk(rules: Rules, s: State, op: StoreOp, s': State)
    requires AllOk(s) && Step(rules, s, op, s')
    ensures AllOk(s')
  {
    hide AllOk, Fold, Stored, Cloned, Called;
    if Stays(s, s') {
      StaysOk(s, s');
    } else {
      hide Stays;
      match op
      case CreateContainer(id) =>
        EmptyIsOk(id);
        AddsOk(s, s', Fold(id), Empty(id));
      case Call(key, call) => CalledOk(rules, s, key, call, s');
      case ImportDocument(doc, asId, _) =>
        var sorted, f :| Stored(s, doc, asId, s', sorted, f);
        StoredIsOk(s, doc, asId, s', sorted, f);
      case CloneOf(source, newId, _) =>
        var f :| Cloned(s, source, newId, s', f);
        ClonedIsOk(s, source, newId, s', f);
    }
  }

  lemma EmptyIsOk(id: string)
    ensures WellFormed(Empty(id)) && Empty(id).audit == map[] && Empty(id).containerId == id
  {
  }

  datatype Run = Run(ops: seq<StoreOp>, states: seq<State>)

  ghost predicate IsRun(rules: Rules, r: Run) {
    && |r.states| == |r.ops| + 1 && r.states[0].containers == map[] && r.states[0].starts == map[]
    && forall i | 0 <= i < |r.ops| :: Step(rules, r.states[i], r.ops[i], r.states[i + 1])
  }

  /** In every state that creating, importing, cloning and calling can reach, every container
      is stored under its folded id, keeps its revisions and environments under their own ids
      with distinct numbers and names and known pointers, and has an audit log numbered 1..n
      that explains, from where the container began, where every environment points. */
  lemma {:induction false} StoreInvariant(rules: Rules, r: Run, i: nat)
    requires IsRun(rules, r) && i <= |r.ops|
    ensures AllOk(r.states[i])
  {
    hide Step, ContainerOk;
    if i > 0 {
      StoreInvariant(rules, r, i - 1);
      StepKeepsOk(rules, r.states[i - 1], r.ops[i - 1], r.states[i]);
    }
  }

  ghost predicate AllHealthy(rules: Rules, s: State) {
    forall k | k in s.containers :: Healthy(rules, s.containers[k])
  }

  /** An import gives a healthy container exactly when its document is good. */
  lemma ImportHealthyIff(rules: Rules, s: State, doc: Document, asId: Option<string>, s': State, sorted: seq<Revision>,
                         f: map<Id, Id>)
    requires Stored(s, doc, asId, s', sorted, f)
    ensures Healthy(rules, s'.containers[StoreKey(doc, asId)]) <==> GoodDocument(rules, doc, asId)
  {
    hide Healthy, Fold, RevisionMap, EnvironmentMap, CopiedLists, DocumentPointers, IdsBelow, RevisionsOk,
         EnvironmentsOk, GoodDocument, IsChainDocument, LastWithId, SortedByNumber;
    var key := StoreKey(doc, asId);
    GoodIff(rules, doc, asId, sorted);
    if asId.None? {
      HealthyIff(rules, doc, sorted);
    } else {
      var copies, environments :|
        CopiedLists(doc, asId.value, s.next, sorted, f, copies, environments)
        && s'.containers == s.containers[key := Container(asId.value, RevisionMap(copies), EnvironmentMap(environments),
                                                          map[])];
      CopyHealthyIff(rules, doc, asId.value, s.next, sorted, f, copies, environments);
    }
  }

  /** The operation is no import, or it stored nothing, or its document is good. */
  ghost predicate GoodStep(rules: Rules, s: State, op: StoreOp, s': State) {
    op.ImportDocument? && s'.containers != s.containers ==> GoodDocument(rules, op.doc, op.asId)
  }

  /** Every operation keeps health, except an import that stores a document that is not good. */
  lemma StepHealthIff(rules: Rules, s: State, op: StoreOp, s': State)
    requires AllOk(s) && AllHealthy(rules, s) && Step(rules, s, op, s')
    ensures AllHealthy(rules, s') <==> GoodStep(rules, s, op, s')
  {
    hide Fold, Healthy, IdsBelow, Inv, IsCopy, Accepted, ImportedAs, StoreKey, GoodDocument, Effect;
    if !Stays(s, s') {
      match op
      case CreateContainer(id) => EmptyBegins(rules, Empty(id), 0);
      case Call(key, call) =>
        assert ContainerOk(s, key);
        EffectKeepsInv(rules, s.starts[key], s.containers[key], call, s.next);
      case ImportDocument(doc, asId, _) =>
        var sorted, f :| Stored(s, doc, asId, s', sorted, f);
        ImportHealthyIff(rules, s, doc, asId, s', sorted, f);
        assert s'.containers != s.containers;
      case CloneOf(source, newId, _) =>
        var f :| Cloned(s, source, newId, s', f);
        CopyIsHealthy(rules, s.containers[source], s'.containers[Fold(newId)], newId, f);
    }
  }

  /** In every state every container is one linear chain of revisions with pointers that
      validate, exactly if every document that an import stored was good.  Containers that
      the service itself creates and clones are therefore always healthy. */
  lemma StoreHealthyIff(rules: Rules, r: Run)
    requires IsRun(rules, r)
    ensures (forall i | 0 <= i <= |r.ops| :: AllHealthy(rules, r.states[i])) <==>
      forall j | 0 <= j < |r.ops| :: GoodStep(rules, r.states[j], r.ops[j], r.states[j + 1])
  {
    hide Step, AllOk, GoodStep, AllHealthy;
    if forall j | 0 <= j < |r.ops| :: GoodStep(rules, r.states[j], r.ops[j], r.states[j + 1]) {
      forall i | 0 <= i <= |r.ops|
        ensures AllHealthy(rules, r.states[i])
      {
        GoodStoreIsHealthy(rules, r, i);
      }
    }
    if forall i | 0 <= i <= |r.ops| :: AllHealthy(rules, r.states[i]) {
      forall j | 0 <= j < |r.ops|
        ensures GoodStep(rules, r.states[j], r.ops[j], r.states[j + 1])
      {
        StoreInvariant(rules, r, j);
        StepHealthIff(rules, r.states[j], r.ops[j], r.states[j + 1]);
      }
    }
  }

  lemma NoContainers(rules: Rules, s: State)
    requires s.containers == map[]
    ensures AllHealthy(rules, s)
  {
  }

  /** As long as the documents that imports stored were good, every container is healthy. */
  lemma {:induction false} GoodStoreIsHealthy(rules: Rules, r: Run, i: nat)
    requires IsRun(rules, r) && i <= |r.ops|
    requires forall j | 0 <= j < i :: GoodStep(rules, r.states[j], r.ops[j], r.states[j + 1])
    ensures AllHealthy(rules, r.states[i])
  {
    hide Step, AllOk, GoodStep, AllHealthy;
    if i > 0 {
      GoodStoreIsHealthy(rules, r, i - 1);
      StoreInvariant(rules, r, i - 1);
      StepHealthIff(rules, r.states[i - 1], r.ops[i - 1], r.states[i]);
    } else {
      NoContainers(rules, r.states[0]);
    }
  }

  lemma HealthyParentsOlder(rules: Rules, c: Container)
    requires Healthy(rules, c)
    ensures ParentsOlder(c)
  {
    hide Linear;
    LinearParentsOlder(c);
  }

  /** ... and can be cloned: `clone_container` of any of them, under a free id and with no
      write that fails, stores a copy that is isomorphic to it and healthy too. */
  lemma GoodStoreClones(rules: Rules, r: Run, i: nat) returns (f: map<Id, Id>)
    requires IsRun(rules, r) && i < |r.ops| && r.ops[i].CloneOf? && !r.ops[i].mayFail
    requires r.ops[i].source in r.states[i].containers && Fold(r.ops[i].newId) !in r.states[i].containers
    requires forall j | 0 <= j < i :: GoodStep(rules, r.states[j], r.ops[j], r.states[j + 1])
    ensures var key := Fold(r.ops[i].newId);
      && key in r.states[i + 1].containers && Healthy(rules, r.states[i + 1].containers[key])
      && IsCopy(r.states[i].containers[r.ops[i].source], r.states[i + 1].containers[key], r.ops[i].newId, f)
  {
    GoodStoreIsHealthy(rules, r, i);
    var s, s', op := r.states[i], r.states[i + 1], r.ops[i];
    assert Step(rules, s, op, s');
    hide IsRun, GoodStep, Fold, ParentsOlder, Healthy, IsCopy;
    HealthyParentsOlder(rules, s.containers[op.source]);
    f :| Cloned(s, op.source, op.newId, s', f);
    CopyIsHealthy(rules, s.containers[op.source], s'.containers[Fold(op.newId)], op.newId, f);
  }
}
