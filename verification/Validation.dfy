/** Whole-payload validation: unique ids, references and cycles of computed variables. */
module Validation {
  import opened Wrappers
  import opened Json
  import opened Expressions
  import opened Variables
  import opened Conditions
  import opened Config

  predicate IsComputed(w: World, id: string) {
    id in w.vars && w.vars[id].source.Computed?
  }

  /** A cycle of computed variables is `id`'s own or can be reached from it. */
  ghost predicate CycleBelow(w: World, id: string) {
    Reaches(w, id, id) || exists c :: Reaches(w, id, c) && Reaches(w, c, c)
  }

  lemma CycleBelowReference(w: World, id: string, r: string)
    requires Edge(w, id, r) && CycleBelow(w, r)
    ensures CycleBelow(w, id)
  {
    EdgeReaches(w, id, r);
    if !Reaches(w, r, r) {
      var c :| Reaches(w, r, c) && Reaches(w, c, c);
      ReachesTransitive(w, id, r, c);
    }
  }

  /** Finished variables: computed, closed under computed references, on no cycle. */
  ghost predicate Settled(w: World, done: set<string>) {
    forall x | x in done ::
      && IsComputed(w, x) && !Reaches(w, x, x)
      && forall y | y in References(w.vars[x]) :: IsComputed(w, y) ==> y in done
  }

  lemma {:induction false} SettledPathStaysInside(w: World, done: set<string>, path: seq<string>)
    requires Settled(w, done) && IsPath(w, path) && path[0] in done
    requires IsComputed(w, path[|path| - 1])
    ensures path[|path| - 1] in done
  {
    if |path| > 1 {
      assert Edge(w, path[0], path[1]);
      assert IsComputed(w, path[1]) by {
        if |path| > 2 { assert Edge(w, path[1], path[2]); }
      }
      forall i | 0 <= i < |path[1..]| - 1
        ensures Edge(w, path[1..][i], path[1..][i + 1])
      {
        assert Edge(w, path[i + 1], path[i + 2]);
      }
      SettledPathStaysInside(w, done, path[1..]);
    }
  }

  lemma ReachingIsComputed(w: World, a: string, b: string)
    requires Reaches(w, a, b)
    ensures IsComputed(w, a)
  {
    var path :| |path| > 1 && PathFromTo(w, path, a, b);
    assert Edge(w, path[0], path[1]);
  }

  lemma SettledReachStaysInside(w: World, done: set<string>, a: string, b: string)
    requires Settled(w, done) && a in done && Reaches(w, a, b) && IsComputed(w, b)
    ensures b in done
  {
    var path :| |path| > 1 && PathFromTo(w, path, a, b);
    SettledPathStaysInside(w, done, path);
  }

  /** A finished variable has no cycle below it. */
  lemma SettledHasNoCycle(w: World, done: set<string>, id: string)
    requires Settled(w, done) && (IsComputed(w, id) ==> id in done)
    ensures !CycleBelow(w, id)
  {
    if CycleBelow(w, id) {
      if Reaches(w, id, id) {
        ReachingIsComputed(w, id, id);
      } else {
        var c :| Reaches(w, id, c) && Reaches(w, c, c);
        ReachingIsComputed(w, id, c);
        ReachingIsComputed(w, c, c);
        SettledReachStaysInside(w, done, id, c);
      }
    }
  }

  /** A variable whose computed references are all finished, and which is itself not yet
      finished, lies on no cycle. */
  lemma FinishingIsSafe(w: World, done: set<string>, id: string)
    requires Settled(w, done) && id !in done && IsComputed(w, id)
    requires forall y | y in References(w.vars[id]) :: IsComputed(w, y) ==> y in done
    ensures Settled(w, done + {id})
  {
    if Reaches(w, id, id) {
      var path :| |path| > 1 && PathFromTo(w, path, id, id);
      assert Edge(w, path[0], path[1]);
      if |path| == 2 {
        assert false;
      } else {
        assert Edge(w, path[1], path[2]);
        var tail := path[1..];
        forall i | 0 <= i < |tail| - 1
          ensures Edge(w, tail[i], tail[i + 1])
        {
          assert Edge(w, path[i + 1], path[i + 2]);
        }
        assert PathFromTo(w, tail, path[1], id);
        SettledReachStaysInside(w, done, path[1], id);
      }
    }
  }

  lemma OwnCycle(w: World, id: string)
    requires Reaches(w, id, id)
    ensures CycleBelow(w, id)
  {
  }

  /** `_computed_cycle`; the two sets it shares between calls are threaded through. */
  method ComputedCycle(w: World, id: string, visiting: set<string>, done: set<string>)
    returns (cyclic: bool, visiting': set<string>, done': set<string>)
    requires Known(w) && visiting !! done && Settled(w, done)
    requires forall a | a in visiting :: Reaches(w, a, id)
    ensures cyclic ==> CycleBelow(w, id)
    ensures !cyclic ==> visiting' == visiting && done <= done' && visiting !! done' && Settled(w, done')
    ensures !cyclic && IsComputed(w, id) ==> id in done'
    decreases |w.vars.Keys - visiting|
  {
    hide Reaches, CycleBelow, Settled;
    visiting', done' := visiting, done;
    if id in visiting { OwnCycle(w, id); }
    if id in visiting { return true, visiting', done'; }
    if id in done { return false, visiting', done'; }
    if id !in w.vars || !w.vars[id].source.Computed? { return false, visiting', done'; }
    var ids := VariableIds(w.vars[id].source.expr);
    visiting' := visiting + {id};
    assert id in w.vars.Keys - visiting;
    SubsetSmaller(w.vars.Keys - visiting', w.vars.Keys - visiting);
    for i := 0 to |ids|
      invariant visiting' == visiting + {id}
      invariant done <= done' && visiting' !! done' && Settled(w, done')
      invariant forall j | 0 <= j < i :: IsComputed(w, ids[j]) ==> ids[j] in done'
    {
      assert Edge(w, id, ids[i]);
      EdgeReaches(w, id, ids[i]);
      forall a | a in visiting'
        ensures Reaches(w, a, ids[i])
      {
        if a != id { ReachesTransitive(w, a, id, ids[i]); }
      }
      var found, v, d := ComputedCycle(w, ids[i], visiting', done');
      if found {
        CycleBelowReference(w, id, ids[i]);
        return true, v, d;
      }
      visiting', done' := v, d;
    }
    FinishingIsSafe(w, done', id);
    visiting', done' := visiting' - {id}, done' + {id};
    return false, visiting', done';
  }

  /** Started with empty sets, the search decides whether a cycle of computed variables
      can be reached. */
  method HasComputedCycle(w: World, id: string) returns (cyclic: bool)
    requires Known(w)
    ensures cyclic == CycleBelow(w, id)
  {
    var visiting, done;
    cyclic, visiting, done := ComputedCycle(w, id, {}, {});
    if !cyclic { SettledHasNoCycle(w, done, id); }
  }

  datatype Issue =
    | DuplicateObjectId(id: string)
    | VariableReferenceMissing(owner: string, id: string)
    | VariableCycleFound(owner: string)
    | TriggerReferenceMissing(owner: string, id: string)
    | DestinationReferenceMissing(owner: string, id: string)
    | UnknownAdapter(owner: string)
    | TagFault(owner: string, code: string)
    | DestinationFault(owner: string, code: string)

  /** The adapters: the tag types they cover, and the errors they find in a tag, given the
      payload's destinations, and in a destination. */
  datatype Registry = Registry(
    types: set<string>, tagFaults: (Tag, seq<Destination>) -> seq<string>,
    destinationFaults: Destination -> seq<string>)

  function ConditionVariableIds(c: Condition): (ids: seq<string>)
    decreases c, 0
  {
    match c
    case All(cs) => ConditionsVariableIds(cs)
    case Any(cs) => ConditionsVariableIds(cs)
    case Not(child) => ConditionVariableIds(child)
    case Exists(path) => PathVariableIds(path)
    case Compare(_, path, _) => PathVariableIds(path)
  }

  function ConditionsVariableIds(cs: seq<Condition>): seq<string>
    decreases cs, 1
  {
    if cs == [] then [] else ConditionVariableIds(cs[0]) + ConditionsVariableIds(cs[1..])
  }

  function PathVariableIds(path: string): seq<string> {
    var parts := Split(path);
    if |parts| > 1 && parts[0] == "variables" then [parts[1]] else []
  }

  function TriggerIds(p: Payload): set<string> { set t | t in p.triggers :: t.id }

  function VariableIdSet(p: Payload): set<string> { set v | v in p.variables :: v.id }

  function DestinationIds(p: Payload): set<string> { set d | d in p.destinations :: d.id }

  /** The ids of all objects, in the order in which validation meets them. */
  function ObjectIds(p: Payload): seq<string> {
    TagIds(p.tags) + TriggerIdSeq(p.triggers) + VariableIdSeq(p.variables) + DestinationIdSeq(p.destinations)
  }

  function TagIds(ts: seq<Tag>): seq<string> { seq(|ts|, i requires 0 <= i < |ts| => ts[i].id) }
  function TriggerIdSeq(ts: seq<Trigger>): seq<string> { seq(|ts|, i requires 0 <= i < |ts| => ts[i].id) }
  function VariableIdSeq(vs: seq<VariableDef>): seq<string> { seq(|vs|, i requires 0 <= i < |vs| => vs[i].id) }
  function DestinationIdSeq(ds: seq<Destination>): seq<string> { seq(|ds|, i requires 0 <= i < |ds| => ds[i].id) }

  predicate Distinct(ids: seq<string>) {
    forall i, j | 0 <= i < j < |ids| :: ids[i] != ids[j]
  }

  predicate AllIn(ids: seq<string>, known: set<string>) {
    forall i | 0 <= i < |ids| :: ids[i] in known
  }

  function PayloadWorld(p: Payload, context: Json, lib: Library): World {
    World(ById(p.variables), context, lib)
  }

  predicate TriggerRefsKnown(p: Payload, t: Trigger) {
    AllIn(ConditionVariableIds(t.conditions), VariableIdSet(p))
  }

  ghost predicate VariableSound(p: Payload, v: VariableDef, w: World) {
    v.source.Computed? ==> AllIn(VariableIds(v.source.expr), VariableIdSet(p)) && !CycleBelow(w, v.id)
  }

  predicate TagSound(p: Payload, t: Tag, registry: Registry) {
    && AllIn(t.triggerIds, TriggerIds(p)) && AllIn(t.variableIds, VariableIdSet(p))
    && AllIn(t.destinationIds, DestinationIds(p)) && t.ttype in registry.types
    && registry.tagFaults(t, p.destinations) == []
  }

  /** What it means for a payload to be valid. */
  ghost predicate ValidPayload(p: Payload, w: World, registry: Registry) {
    && Distinct(ObjectIds(p))
    && (forall i | 0 <= i < |p.triggers| :: TriggerRefsKnown(p, p.triggers[i]))
    && (forall i | 0 <= i < |p.variables| :: VariableSound(p, p.variables[i], w))
    && (forall i | 0 <= i < |p.tags| :: TagSound(p, p.tags[i], registry))
    && (forall i | 0 <= i < |p.destinations| :: registry.destinationFaults(p.destinations[i]) == [])
  }

  predicate Repeated(ids: seq<string>, id: string) {
    exists i, j | 0 <= i < j < |ids| :: ids[i] == id && ids[j] == id
  }

  predicate TriggerIssue(p: Payload, t: Trigger, x: Issue) {
    x.VariableReferenceMissing? && x.owner == t.id && x.id in ConditionVariableIds(t.conditions)
      && x.id !in VariableIdSet(p)
  }

  ghost predicate VariableIssue(p: Payload, w: World, v: VariableDef, x: Issue) {
    v.source.Computed? &&
    match x
    case VariableReferenceMissing(owner, id) => owner == v.id && id in VariableIds(v.source.expr)
      && id !in VariableIdSet(p)
    case VariableCycleFound(owner) => owner == v.id && CycleBelow(w, v.id)
    case _ => false
  }

  predicate TagIssue(p: Payload, t: Tag, registry: Registry, x: Issue) {
    match x
    case TriggerReferenceMissing(owner, id) => owner == t.id && id in t.triggerIds && id !in TriggerIds(p)
    case VariableReferenceMissing(owner, id) => owner == t.id && id in t.variableIds && id !in VariableIdSet(p)
    case DestinationReferenceMissing(owner, id) => owner == t.id && id in t.destinationIds && id !in DestinationIds(p)
    case UnknownAdapter(owner) => owner == t.id && t.ttype !in registry.types
    case TagFault(owner, code) => owner == t.id && t.ttype in registry.types
      && code in registry.tagFaults(t, p.destinations)
    case _ => false
  }

  predicate DestinationIssue(d: Destination, registry: Registry, x: Issue) {
    x.DestinationFault? && x.owner == d.id && x.code in registry.destinationFaults(d)
  }

  /** The error `x` is due. */
  ghost predicate Due(p: Payload, w: World, registry: Registry, x: Issue) {
    || (x.DuplicateObjectId? && Repeated(ObjectIds(p), x.id))
    || (exists i | 0 <= i < |p.triggers| :: TriggerIssue(p, p.triggers[i], x))
    || (exists i | 0 <= i < |p.variables| :: VariableIssue(p, w, p.variables[i], x))
    || (exists i | 0 <= i < |p.tags| :: TagIssue(p, p.tags[i], registry, x))
    || (exists i | 0 <= i < |p.destinations| :: DestinationIssue(p.destinations[i], registry, x))
  }

  /** A payload is valid exactly when no error is due. */
  lemma ValidIffNothingDue(p: Payload, w: World, registry: Registry)
    ensures ValidPayload(p, w, registry) <==> forall x :: !Due(p, w, registry, x)
  {
    if ValidPayload(p, w, registry) {
      forall x
        ensures !Due(p, w, registry, x)
      {
        ValidHasNothingDue(p, w, registry, x);
      }
    } else {
      var x := InvalidHasSomethingDue(p, w, registry);
    }
  }

  lemma ValidHasNothingDue(p: Payload, w: World, registry: Registry, x: Issue)
    requires ValidPayload(p, w, registry)
    ensures !Due(p, w, registry, x)
  {
    hide CycleBelow, ObjectIds, ConditionVariableIds, VariableIds;
    forall i | 0 <= i < |p.triggers|
      ensures !TriggerIssue(p, p.triggers[i], x)
    {
      assert TriggerRefsKnown(p, p.triggers[i]);
    }
    forall i | 0 <= i < |p.variables|
      ensures !VariableIssue(p, w, p.variables[i], x)
    {
      assert VariableSound(p, p.variables[i], w);
    }
    forall i | 0 <= i < |p.tags|
      ensures !TagIssue(p, p.tags[i], registry, x)
    {
      assert TagSound(p, p.tags[i], registry);
    }
  }

  lemma InvalidHasSomethingDue(p: Payload, w: World, registry: Registry) returns (x: Issue)
    requires !ValidPayload(p, w, registry)
    ensures Due(p, w, registry, x)
  {
    hide CycleBelow, ObjectIds, ConditionVariableIds, VariableIds;
    if !Distinct(ObjectIds(p)) {
      var i, j :| 0 <= i < j < |ObjectIds(p)| && ObjectIds(p)[i] == ObjectIds(p)[j];
      return DuplicateObjectId(ObjectIds(p)[i]);
    } else if i :| 0 <= i < |p.triggers| && !TriggerRefsKnown(p, p.triggers[i]) {
      var ids := ConditionVariableIds(p.triggers[i].conditions);
      var k :| 0 <= k < |ids| && ids[k] !in VariableIdSet(p);
      x := VariableReferenceMissing(p.triggers[i].id, ids[k]);
      assert TriggerIssue(p, p.triggers[i], x);
    } else if i :| 0 <= i < |p.variables| && !VariableSound(p, p.variables[i], w) {
      var v := p.variables[i];
      if AllIn(VariableIds(v.source.expr), VariableIdSet(p)) {
        x := VariableCycleFound(v.id);
      } else {
        var ids := VariableIds(v.source.expr);
        var k :| 0 <= k < |ids| && ids[k] !in VariableIdSet(p);
        x := VariableReferenceMissing(v.id, ids[k]);
      }
      assert VariableIssue(p, w, v, x);
    } else if i :| 0 <= i < |p.tags| && !TagSound(p, p.tags[i], registry) {
      x := InvalidTagIssue(p, p.tags[i], registry);
    } else {
      var i :| 0 <= i < |p.destinations| && registry.destinationFaults(p.destinations[i]) != [];
      x := DestinationFault(p.destinations[i].id, registry.destinationFaults(p.destinations[i])[0]);
      assert DestinationIssue(p.destinations[i], registry, x);
    }
  }

  lemma InvalidTagIssue(p: Payload, t: Tag, registry: Registry) returns (x: Issue)
    requires !TagSound(p, t, registry)
    ensures TagIssue(p, t, registry, x)
  {
    if k :| 0 <= k < |t.triggerIds| && t.triggerIds[k] !in TriggerIds(p) {
      x := TriggerReferenceMissing(t.id, t.triggerIds[k]);
    } else if k :| 0 <= k < |t.variableIds| && t.variableIds[k] !in VariableIdSet(p) {
      x := VariableReferenceMissing(t.id, t.variableIds[k]);
    } else if k :| 0 <= k < |t.destinationIds| && t.destinationIds[k] !in DestinationIds(p) {
      x := DestinationReferenceMissing(t.id, t.destinationIds[k]);
    } else if t.ttype !in registry.types {
      x := UnknownAdapter(t.id);
    } else {
      x := TagFault(t.id, registry.tagFaults(t, p.destinations)[0]);
    }
  }

  method MissingReferences(ids: seq<string>, known: set<string>, issue: string -> Issue) returns (missing: seq<Issue>)
    ensures forall x :: x in missing <==> exists k | 0 <= k < |ids| :: ids[k] !in known && x == issue(ids[k])
  {
    missing := [];
    for i := 0 to |ids|
      invariant forall x :: x in missing <==> exists k | 0 <= k < i :: ids[k] !in known && x == issue(ids[k])
    {
      if ids[i] !in known { missing := missing + [issue(ids[i])]; }
    }
  }

  method DuplicateIssues(ids: seq<string>) returns (errors: seq<Issue>)
    ensures forall x :: x in errors <==> x.DuplicateObjectId? && Repeated(ids, x.id)
  {
    errors := [];
    var seen: set<string> := {};
    for i := 0 to |ids|
      invariant seen == set j | 0 <= j < i :: ids[j]
      invariant forall x ::
        x in errors <==> x.DuplicateObjectId? && exists k, j | 0 <= k < j < i :: ids[k] == x.id && ids[j] == x.id
    {
      if ids[i] in seen { errors := errors + [DuplicateObjectId(ids[i])]; }
      seen := seen + {ids[i]};
    }
  }

  method TriggerIssues(p: Payload) returns (errors: seq<Issue>)
    ensures forall x :: x in errors <==> exists i | 0 <= i < |p.triggers| :: TriggerIssue(p, p.triggers[i], x)
  {
    errors := [];
    var known := VariableIdSet(p);
    for i := 0 to |p.triggers|
      invariant forall x :: x in errors <==> exists j | 0 <= j < i :: TriggerIssue(p, p.triggers[j], x)
    {
      var t := p.triggers[i];
      var missing := MissingReferences(ConditionVariableIds(t.conditions), known,
                                       id => VariableReferenceMissing(t.id, id));
      assert forall x :: x in missing <==> TriggerIssue(p, t, x);
      errors := errors + missing;
    }
  }

  method VariableIssues(p: Payload, w: World) returns (errors: seq<Issue>)
    requires Known(w)
    ensures forall x :: x in errors <==> exists i | 0 <= i < |p.variables| :: VariableIssue(p, w, p.variables[i], x)
  {
    errors := [];
    for i := 0 to |p.variables|
      invariant forall x :: x in errors <==> exists j | 0 <= j < i :: VariableIssue(p, w, p.variables[j], x)
    {
      var own := IssuesOfVariable(p, w, p.variables[i]);
      errors := errors + own;
    }
  }

  method IssuesOfVariable(p: Payload, w: World, v: VariableDef) returns (errors: seq<Issue>)
    requires Known(w)
    ensures forall x :: x in errors <==> VariableIssue(p, w, v, x)
  {
    hide CycleBelow;
    errors := [];
    if v.source.Computed? {
      errors := MissingReferences(VariableIds(v.source.expr), VariableIdSet(p),
                                  id => VariableReferenceMissing(v.id, id));
      var cyclic := HasComputedCycle(w, v.id);
      if cyclic { errors := errors + [VariableCycleFound(v.id)]; }
    }
  }

  method TagIssues(p: Payload, registry: Registry) returns (errors: seq<Issue>)
    ensures forall x :: x in errors <==> exists i | 0 <= i < |p.tags| :: TagIssue(p, p.tags[i], registry, x)
  {
    errors := [];
    for i := 0 to |p.tags|
      invariant forall x :: x in errors <==> exists j | 0 <= j < i :: TagIssue(p, p.tags[j], registry, x)
    {
      var own := IssuesOfTag(p, p.tags[i], registry);
      errors := errors + own;
    }
  }

  method IssuesOfTag(p: Payload, tag: Tag, registry: Registry) returns (errors: seq<Issue>)
    ensures forall x :: x in errors <==> TagIssue(p, tag, registry, x)
  {
    hide TriggerIds, VariableIdSet, DestinationIds;
    var triggers := MissingReferences(tag.triggerIds, TriggerIds(p), id => TriggerReferenceMissing(tag.id, id));
    var variables := MissingReferences(tag.variableIds, VariableIdSet(p), id => VariableReferenceMissing(tag.id, id));
    var destinations := MissingReferences(tag.destinationIds, DestinationIds(p),
                                          id => DestinationReferenceMissing(tag.id, id));
    errors := triggers + variables + destinations;
    if tag.ttype !in registry.types {
      errors := errors + [UnknownAdapter(tag.id)];
    } else {
      var faults := Faults(registry.tagFaults(tag, p.destinations), code => TagFault(tag.id, code));
      errors := errors + faults;
    }
  }

  method Faults(codes: seq<string>, issue: string -> Issue) returns (errors: seq<Issue>)
    ensures forall x :: x in errors <==> exists k | 0 <= k < |codes| :: x == issue(codes[k])
  {
    errors := [];
    for i := 0 to |codes|
      invariant forall x :: x in errors <==> exists k | 0 <= k < i :: x == issue(codes[k])
    {
      errors := errors + [issue(codes[i])];
    }
  }

  method DestinationIssues(p: Payload, registry: Registry) returns (errors: seq<Issue>)
    ensures forall x ::
      x in errors <==> exists i | 0 <= i < |p.destinations| :: DestinationIssue(p.destinations[i], registry, x)
  {
    errors := [];
    for i := 0 to |p.destinations|
      invariant forall x :: x in errors <==> exists j | 0 <= j < i :: DestinationIssue(p.destinations[j], registry, x)
    {
      var d := p.destinations[i];
      var own := Faults(registry.destinationFaults(d), code => DestinationFault(d.id, code));
      assert forall x :: x in own <==> DestinationIssue(d, registry, x);
      errors := errors + own;
    }
  }

  /** `validate_config_payload`: it reports exactly the errors that are due, so none exactly
      when the payload is valid. */
  method Validate(p: Payload, w: World, registry: Registry) returns (errors: seq<Issue>)
    requires w.vars == ById(p.variables)
    ensures forall x :: x in errors <==> Due(p, w, registry, x)
    ensures errors == [] <==> ValidPayload(p, w, registry)
  {
    hide ObjectIds, TriggerIssue, VariableIssue, TagIssue, DestinationIssue, ValidPayload, Repeated;
    var duplicates := DuplicateIssues(ObjectIds(p));
    var triggers := TriggerIssues(p);
    var variables := VariableIssues(p, w);
    var tags := TagIssues(p, registry);
    var destinations := DestinationIssues(p, registry);
    errors := duplicates + destinations + triggers + variables + tags;
    ValidIffNothingDue(p, w, registry);
    if errors != [] { assert errors[0] in errors; }
  }
}
