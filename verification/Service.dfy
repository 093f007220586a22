/** The service object: one store, every call under its lock. */
module Service {
  import opened Wrappers
  import opened Config
  import opened ControlPlane
  import opened ControlPlaneInvariant
  import opened ControlPlaneRuns
  import opened Transfer
  import opened Clone
  import opened CloneProperties
  import opened PlainImport
  import opened StoreRuns
  import Validation
  import Json

  lemma OkLater(s: State, n: Id)
    requires AllOk(s) && s.next <= n
    ensures AllOk(s.(next := n))
  {
    StaysOk(s, s.(next := n));
  }

  lemma OkAt(s: State, key: string)
    requires AllOk(s) && key in s.containers
    ensures WellFormed(s.containers[key]) && DistinctNumbers(s.containers[key])
  {
    hide Fold, EnvironmentsKept, Audited, IdsBelow, DistinctNumbers, RevisionKept;
    assert ContainerOk(s, key);
  }

  /** A call on one container keeps all of them. */
  lemma CallKeepsOk(rules: Rules, s: State, key: string, op: Op)
    requires AllOk(s) && key in s.containers
    ensures AllOk(State(s.containers[key := Effect(rules, s.containers[key], op, s.next).0], s.starts, s.next + 2))
  {
    hide AllOk, Effect;
    CalledOk(rules, s, key, op,
             State(s.containers[key := Effect(rules, s.containers[key], op, s.next).0], s.starts, s.next + 2));
  }

  /** An id above `n`, above those in the document, and above as many from `n` on as it has
      revisions and environments. */
  function Above(doc: Document, n: Id): (m: Id)
    ensures n + |doc.revisions| + |doc.environments| <= m
    ensures forall i | 0 <= i < |doc.revisions| :: doc.revisions[i].version < m
    ensures forall i | 0 <= i < |doc.environments| :: doc.environments[i].id < m
  {
    AboveEnvironments(doc.environments, AboveRevisions(doc.revisions, n + |doc.revisions| + |doc.environments|))
  }

  function AboveRevisions(rs: seq<Revision>, n: Id): (m: Id)
    ensures n <= m && forall i | 0 <= i < |rs| :: rs[i].version < m
  {
    if rs == [] then n
    else
      var rest := AboveRevisions(rs[1..], n);
      assert forall i | 1 <= i < |rs| :: rs[i] == rs[1..][i - 1];
      if rs[0].version < rest then rest else rs[0].version + 1
  }

  function AboveEnvironments(es: seq<Environment>, n: Id): (m: Id)
    ensures n <= m && forall i | 0 <= i < |es| :: es[i].id < m
  {
    if es == [] then n
    else
      var rest := AboveEnvironments(es[1..], n);
      assert forall i | 1 <= i < |es| :: es[i] == es[1..][i - 1];
      if es[0].id < rest then rest else es[0].id + 1
  }

  /** New ids never coincide with those an import has brought in. */
  lemma ImportedIdsBelow(store: Store, doc: Document, asId: Option<string>, base: Id, store': Store,
                         sorted: seq<Revision>, f: map<Id, Id>)
    requires Accepted(doc, sorted) && ImportedAs(store, doc, asId, base, store', sorted, f)
    ensures StoreKey(doc, asId) in store' && IdsBelow(store'[StoreKey(doc, asId)], Above(doc, base))
  {
    hide Accepted, Fold, CopiedLists, RevisionMap, EnvironmentMap, RevisionsOk, EnvironmentsOk, SortedByNumber;
    var m := Above(doc, base);
    AcceptedSorted(doc, sorted);
    hide Above;
    if asId.None? {
      KeysAreVersions(sorted);
      EnvironmentKeys(doc.environments);
    } else {
      assert |sorted| == |doc.revisions| by { SortedLength(doc, sorted); }
      CopyIdsBelow(store, doc, asId.value, base, store', sorted, f);
      assert StoreKey(doc, asId) == Fold(asId.value);
    }
  }

  lemma SortedLength(doc: Document, sorted: seq<Revision>)
    requires Accepted(doc, sorted)
    ensures |sorted| == |doc.revisions|
  {
    assert |multiset(sorted)| == |sorted| && |multiset(doc.revisions)| == |doc.revisions|;
  }

  method LatestRevision(c: Container) returns (latest: Option<Id>)
    requires DistinctNumbers(c)
    ensures latest == Latest(c.revisions)
  {
    latest := None;
    var rest := c.revisions.Keys;
    while rest != {}
      invariant rest <= c.revisions.Keys
      invariant latest.None? <==> rest == c.revisions.Keys
      invariant latest.Some? ==> latest.value in c.revisions
      invariant latest.Some? ==>
        forall v | v in c.revisions.Keys - rest :: c.revisions[v].number <= c.revisions[latest.value].number
      decreases rest
    {
      var v :| v in rest;
      if latest.None? || c.revisions[v].number > c.revisions[latest.value].number { latest := Some(v); }
      rest := rest - {v};
    }
    assert latest.None? <==> c.revisions == map[];
  }

  method NextSequence(audit: map<Id, AuditEvent>) returns (n: nat)
    ensures n == LastSequence(audit) + 1
  {
    n := 0;
    var rest := audit.Keys;
    while rest != {}
      invariant rest <= audit.Keys
      invariant forall e | e in audit.Keys - rest :: audit[e].sequence <= n
      invariant (n == 0 && (rest == audit.Keys || exists e :: e in audit && audit[e].sequence == 0)) || exists e ::
        e in audit && audit[e].sequence == n
      decreases rest
    {
      var e :| e in rest;
      if audit[e].sequence > n { n := audit[e].sequence; }
      rest := rest - {e};
    }
    assert audit == map[] || exists e :: e in audit && audit[e].sequence == n;
    n := n + 1;
  }

  method Resolve(c: Container, ref: EnvRef) returns (found: Option<Id>, ambiguous: bool)
    ensures found == ResolveEnvironment(c, ref) && ambiguous == Ambiguous(c, ref)
  {
    hide Fold;
    if ref.id.Some? && ref.id.value in c.environments { return ref.id, false; }
    var matches := Named(c, ref.name);
    if |matches| == 1 {
      var e :| e in matches;
      SingletonMember(matches, e);
      return Some(e), false;
    }
    return None, |matches| > 1;
  }

  lemma SingletonMember(s: set<Id>, e: Id)
    requires |s| == 1 && e in s
    ensures s == {e}
  {
    assert s == {e} + (s - {e});
  }

  class ControlPlaneService {
    const rules: Rules
    var containers: map<string, Container>
    var nextId: Id
    ghost var starts: map<string, Start>

    ghost function Now(): State
      reads this
    {
      State(containers, starts, nextId)
    }

    ghost predicate Valid()
      reads this
    {
      AllOk(Now())
    }

    constructor (rules: Rules)
      ensures Valid() && containers == map[] && starts == map[] && this.rules == rules
    {
      this.rules := rules;
      containers, nextId, starts := map[], 0, map[];
    }

    /** The method was this operation on the store. */
    twostate predicate Did(op: StoreOp)
      reads this
    {
      Step(rules, old(Now()), op, Now())
    }

    /** It was this call on the container at `key`, with its reply. */
    twostate predicate Answered(key: string, op: Op, reply: Reply)
      reads this
    {
      && Did(Call(key, op))
      && reply == if key in old(containers) then Effect(rules, old(containers)[key], op, old(nextId)).1 else NotFound
    }

    /** `create_container`: refused when an id that differs at most in case is taken. */
    method CreateContainer(containerId: string) returns (created: bool)
      requires Valid()
      modifies this
      ensures Valid() && Did(StoreOp.CreateContainer(containerId))
      ensures created <==> forall k | k in old(containers) :: Fold(old(containers)[k].containerId) != Fold(containerId)
      ensures containers ==
        if created then old(containers)[Fold(containerId) := Empty(containerId)] else old(containers)
    {
      hide Fold, Inv, WellFormed;
      ghost var before := Now();
      assert forall k | k in containers :: ContainerOk(before, k);
      created := Fold(containerId) !in containers;
      if created {
        containers := containers[Fold(containerId) := Empty(containerId)];
        starts := starts[Fold(containerId) := PairsOf(Empty(containerId))];
        EmptyIsOk(containerId);
        EmptyBegins(rules, Empty(containerId), nextId);
        AddsOk(before, Now(), Fold(containerId), Empty(containerId));
      }
    }

    /** `import_container`. */
    method ImportContainer(doc: Document, asId: Option<string>, failAt: Option<nat>) returns (reply: ImportReply)
      requires Valid()
      modifies this
      ensures Valid() && Did(ImportDocument(doc, asId, failAt.Some?))
      ensures !reply.Imported? ==> containers == old(containers)
      ensures reply.Imported? ==> StoreKey(doc, asId) !in old(containers) && StoreKey(doc, asId) in containers
      ensures !RevisionsOk(doc) || !EnvironmentsOk(doc) ==> reply == DocumentRejected
    {
      hide Fold, RevisionsOk, EnvironmentsOk, SortedByNumber, ImportedAs, Inv, ContainerOk, StoreKey, IdsBelow, AllOk,
           WellFormed;
      ghost var before := Now();
      AllWellFormed(before);
      AllKeyed(containers);
      ghost var sorted, f;
      var store;
      store, reply, sorted, f := Import(containers, doc, asId, nextId, failAt);
      if reply.Imported? {
        ImportedIdsBelow(containers, doc, asId, nextId, store, sorted, f);
        ImportedChanges(containers, doc, asId, nextId, store, sorted, f);
        var key := StoreKey(doc, asId);
        starts := starts[key := PairsOf(store[key])];
        nextId := Above(doc, nextId);
        containers := store;
        assert Stored(before, doc, asId, Now(), sorted, f);
        StoredIsOk(before, doc, asId, Now(), sorted, f);
      }
    }

    /** `clone_container`; nothing comes back when there is no such source. */
    method CloneContainer(source: string, newId: string, failAt: Option<nat>) returns (reply: Option<ImportReply>)
      requires Valid()
      modifies this
      ensures Valid() && Did(CloneOf(source, newId, failAt.Some?))
      ensures reply.Some? <==> source in old(containers)
      ensures reply.None? || !reply.value.Imported? ==> containers == old(containers)
      ensures reply.Some? && Fold(newId) !in old(containers) && failAt.None? ==>
        (reply.value.Imported? <==> ParentsOlder(old(containers)[source]))
    {
      hide Fold, Inv, ContainerOk, IdsBelow, AllOk, WellFormed, IsCopy, ParentsOlder;
      if source !in containers { return None; }
      ghost var before := Now();
      AllWellFormed(before);
      ghost var f;
      var store, answer;
      var count := |containers[source].revisions| + |containers[source].environments|;
      store, answer, f := CloneProperties.CloneContainer(containers, source, newId, nextId, failAt);
      reply := Some(answer);
      if answer.Imported? {
        starts := starts[Fold(newId) := PairsOf(store[Fold(newId)])];
        nextId := nextId + count;
        containers := store;
        assert Cloned(before, source, newId, Now(), f);
        ClonedIsOk(before, source, newId, Now(), f);
      }
    }

    method CreateRevision(key: string, payload: Payload, expectedParent: Option<Id>, status: string, notes: string)
      returns (reply: Reply)
      requires Valid()
      modifies this
      ensures Valid()
      ensures Answered(key, Op.CreateRevision(payload, expectedParent, status, notes), reply)
    {
      hide Latest, LastSequence, DistinctNumbers, AllOk, Inv, Fold;
      OkLater(Now(), nextId + 2);
      nextId := nextId + 2;
      if key !in containers { return NotFound; }
      var c := containers[key];
      assert containers == containers[key := c];
      CallKeepsOk(rules, Now().(next := nextId - 2), key, Op.CreateRevision(payload, expectedParent, status, notes));
      OkAt(Now(), key);
      var latest := LatestRevision(c);
      if expectedParent.Some? && expectedParent != latest { return Conflict; }
      var number := if latest.Some? then c.revisions[latest.value].number + 1 else 1;
      var version := nextId - 2;
      var r := NewRevision(version, c.containerId, number, latest, payload, status, notes);
      var sequence := NextSequence(c.audit);
      var event := AuditEvent(RevisionCreated, None, None, Some(version), latest, Some(r.checksum), sequence);
      containers :=
        containers[key := c.(revisions := c.revisions[version := r], audit := c.audit[version + 1 := event])];
      return Created(version);
    }

    method CreateEnvironment(key: string, name: string, guarded: bool) returns (reply: Reply)
      requires Valid()
      modifies this
      ensures Valid()
      ensures Answered(key, Op.CreateEnvironment(name, guarded), reply)
    {
      hide AllOk, Inv, Fold, LastSequence, Named;
      OkLater(Now(), nextId + 2);
      nextId := nextId + 2;
      if key !in containers { return NotFound; }
      var c := containers[key];
      assert containers == containers[key := c];
      CallKeepsOk(rules, Now().(next := nextId - 2), key, Op.CreateEnvironment(name, guarded));
      if Named(c, name) != {} { return Conflict; }
      var id := nextId - 2;
      var sequence := NextSequence(c.audit);
      var event := AuditEvent(EnvironmentCreated, None, Some(id), None, None, None, sequence);
      var e := Environment(id, c.containerId, name, guarded, None, None);
      containers := containers[key := c.(environments := c.environments[id := e],
                                         audit := c.audit[id + 1 := event])];
      return Created(id);
    }

    /** Records a refused change. */
    method RecordFailure(key: string, e: Environment, action: Action, target: Option<Id>, reason: Reason, id: Id)
      returns (reply: Reply)
      requires key in containers
      modifies this`containers
      ensures containers == old(containers)[key := RefusedEffect(old(containers)[key], e, action, target, reason, id).0]
      ensures reply == Refused(reason)
    {
      var c := containers[key];
      var sequence := NextSequence(c.audit);
      hide LastSequence;
      var event := AuditEvent(action, Some(reason), Some(e.id), target, e.current, None, sequence);
      containers := containers[key := c.(audit := c.audit[id := event])];
      return Refused(reason);
    }

    /** Points the environment at `target` and records it. */
    method Point(key: string, e: Environment, action: Action, target: Id, id: Id) returns (reply: Reply)
      requires key in containers && target in containers[key].revisions
      modifies this`containers
      ensures containers == old(containers)[key := PointEffect(old(containers)[key], e, action, target, id).0]
      ensures reply == Changed(Some(target), e.current)
    {
      var c := containers[key];
      var updated := e.(previous := e.current, current := Some(target));
      var sequence := NextSequence(c.audit);
      hide LastSequence;
      var event := AuditEvent(action, None, Some(e.id), Some(target), e.current, Some(c.revisions[target].checksum),
                              sequence);
      containers :=
        containers[key := c.(environments := c.environments[e.id := updated], audit := c.audit[id := event])];
      return Changed(Some(target), e.current);
    }

    method IsSound(p: Payload) returns (ok: bool)
      ensures ok == Sound(rules, p)
    {
      hide Validation.ValidPayload, Validation.Due;
      var errors := Validation.Validate(p, Validation.PayloadWorld(p, Json.Null, rules.lib), rules.registry);
      ok := errors == [];
    }

    method ActivateEnvironment(key: string, ref: EnvRef, version: Option<Id>, expectedCurrent: Option<Id>, allow: bool)
      returns (reply: Reply)
      requires Valid()
      modifies this
      ensures Valid()
      ensures Answered(key, Op.Activate(ref, version, expectedCurrent, allow), reply)
    {
      hide Latest, LastSequence, Sound, Logged, AllOk, Inv;
      OkLater(Now(), nextId + 2);
      nextId := nextId + 2;
      if key !in containers { return NotFound; }
      var c, id := containers[key], nextId - 2;
      assert containers == containers[key := c];
      CallKeepsOk(rules, Now().(next := nextId - 2), key, Op.Activate(ref, version, expectedCurrent, allow));
      OkAt(Now(), key);
      hide DistinctNumbers, ActivateAt, ResolveEnvironment, Ambiguous;
      var found, ambiguous := Resolve(c, ref);
      if found.None? { return if ambiguous then Conflict else NotFound; }
      reply := ActivateFound(key, c.environments[found.value], version, expectedCurrent, allow, id);
    }

    method ActivateFound(key: string, e: Environment, version: Option<Id>, expectedCurrent: Option<Id>, allow: bool,
                         id: Id)
      returns (reply: Reply)
      requires key in containers && DistinctNumbers(containers[key])
      modifies this`containers
      ensures containers ==
        old(containers)[key := ActivateAt(rules, old(containers)[key], e, version, expectedCurrent, allow, id).0]
      ensures reply == ActivateAt(rules, old(containers)[key], e, version, expectedCurrent, allow, id).1
    {
      var c := containers[key];
      assert containers == containers[key := c];
      hide DistinctNumbers;
      var latest := LatestRevision(c);
      hide Latest, LastSequence, Sound, Logged, RefusedEffect, PointEffect;
      var target := if version.Some? then version else latest;
      RefusedReply(c, e, EnvironmentActivated, target, id);
      if target.None? { return NotFound; }
      if e.guarded && !allow {
        reply := RecordFailure(key, e, EnvironmentActivated, target, ProtectedEnvironment, id);
        return;
      }
      if expectedCurrent.Some? && expectedCurrent != e.current {
        reply := RecordFailure(key, e, EnvironmentActivated, target, StaleEnvironment, id);
        return;
      }
      if target.value !in c.revisions { return NotFound; }
      var ok := IsSound(c.revisions[target.value].payload);
      if !ok {
        reply := RecordFailure(key, e, EnvironmentActivated, target, InvalidRevision, id);
        return;
      }
      if e.current == target { return Unchanged; }
      if e.current.Some? && e.current.value !in c.revisions { return NotFound; }
      PointReply(c, e, EnvironmentActivated, target.value, id);
      reply := Point(key, e, EnvironmentActivated, target.value, id);
    }

    method RollbackEnvironment(key: string, ref: EnvRef, expectedCurrent: Option<Id>, allow: bool)
      returns (reply: Reply)
      requires Valid()
      modifies this
      ensures Valid()
      ensures Answered(key, Op.Rollback(ref, expectedCurrent, allow), reply)
    {
      hide Latest, LastSequence, Sound, Logged, AllOk, Inv;
      OkLater(Now(), nextId + 2);
      nextId := nextId + 2;
      if key !in containers { return NotFound; }
      var c, id := containers[key], nextId - 2;
      assert containers == containers[key := c];
      CallKeepsOk(rules, Now().(next := nextId - 2), key, Op.Rollback(ref, expectedCurrent, allow));
      OkAt(Now(), key);
      hide DistinctNumbers;
      var found, ambiguous := Resolve(c, ref);
      if found.None? { return if ambiguous then Conflict else NotFound; }
      var e := c.environments[found.value];
      hide Latest, LastSequence, Sound, Logged, ResolveEnvironment, Ambiguous, RefusedEffect, PointEffect;
      var target := e.previous;
      RefusedReply(c, e, EnvironmentRolledBack, target, id);
      if target.None? {
        reply := RecordFailure(key, e, EnvironmentRolledBack, None, NoPreviousRevision, id);
        return;
      }
      if e.guarded && !allow {
        reply := RecordFailure(key, e, EnvironmentRolledBack, target, ProtectedEnvironment, id);
        return;
      }
      if expectedCurrent.Some? && expectedCurrent != e.current {
        reply := RecordFailure(key, e, EnvironmentRolledBack, target, StaleEnvironment, id);
        return;
      }
      if target.value !in c.revisions { return NotFound; }
      var ok := IsSound(c.revisions[target.value].payload);
      if !ok {
        reply := RecordFailure(key, e, EnvironmentRolledBack, target, InvalidRevision, id);
        return;
      }
      if e.current.Some? && e.current.value !in c.revisions { return NotFound; }
      PointReply(c, e, EnvironmentRolledBack, target.value, id);
      reply := Point(key, e, EnvironmentRolledBack, target.value, id);
    }
  }

  lemma RefusedReply(c: Container, e: Environment, action: Action, target: Option<Id>, id: Id)
    ensures forall reason :: RefusedEffect(c, e, action, target, reason, id).1 == Refused(reason)
  {
  }

  lemma PointReply(c: Container, e: Environment, action: Action, target: Id, id: Id)
    requires target in c.revisions
    ensures PointEffect(c, e, action, target, id).1 == Changed(Some(target), e.current)
  {
  }

  lemma AllWellFormed(s: State)
    requires AllOk(s)
    ensures forall k | k in s.containers :: WellFormed(s.containers[k])
  {
    hide WellFormed, Fold, Audited, IdsBelow;
    assert forall k | k in s.containers :: ContainerOk(s, k);
  }

  lemma ImportedChanges(store: Store, doc: Document, asId: Option<string>, base: Id, store': Store,
                        sorted: seq<Revision>, f: map<Id, Id>)
    requires ImportedAs(store, doc, asId, base, store', sorted, f)
    ensures var key := StoreKey(doc, asId); key !in store && key in store' && store' == store[key := store'[key]]
  {
    hide Fold, CopiedLists;
  }
}
