/** Which variables a condition looks at. */
module ConditionScope {
  import opened Wrappers
  import opened Json
  import opened Conditions
  import opened Config
  import opened Preview
  import opened Validation
  import opened ConditionLaws
  import Variables

  /** The paths a condition mentions. */
  function Paths(c: Condition): set<string>
    decreases c, 0
  {
    match c
    case All(cs) => AllPaths(cs)
    case Any(cs) => AllPaths(cs)
    case Not(child) => Paths(child)
    case Exists(path) => {path}
    case Compare(_, path, _) => {path}
  }

  function AllPaths(cs: seq<Condition>): set<string>
    decreases cs, 1
  {
    if cs == [] then {} else Paths(cs[0]) + AllPaths(cs[1..])
  }

  const VARIABLES := "variables"

  /** The path names this variable, or something inside its value. */
  predicate NamesVariable(path: string, id: string) {
    '.' !in id && (path == VARIABLES + "." + id || IsPrefix(VARIABLES + "." + id + ".", path))
  }

  lemma {:induction false} SplitTwo(path: string, first: string)
    requires '.' !in first
    ensures |Split(path)| > 1 && Split(path)[0] == first <==> IsPrefix(first + ".", path)
    ensures IsPrefix(first + ".", path) ==> Split(path) == [first] + Split(path[|first| + 1..])
    ensures |Split(path)| == 1 && Split(path)[0] == first <==> path == first
  {
    if IsPrefix(first + ".", path) {
      assert path == first + "." + path[|first| + 1..];
      SplitAt(first, path[|first| + 1..]);
    } else {
      FirstPart(path);
      if path == first { SplitWhole(first); }
    }
  }

  /** A path is its first segment, or that, a dot and more. */
  lemma {:induction false} FirstPart(path: string)
    ensures '.' !in Split(path)[0]
    ensures |Split(path)| == 1 ==> path == Split(path)[0]
    ensures |Split(path)| > 1 ==> IsPrefix(Split(path)[0] + ".", path)
  {
    if path != "" {
      FirstPart(path[1..]);
      SplitHead(path);
      var rest := Split(path[1..]);
      if path[0] != '.' && |rest| > 1 {
        assert path[1..][..|rest[0] + "."|] == rest[0] + ".";
        assert path[..1 + |rest[0] + "."|] == [path[0]] + path[1..][..|rest[0] + "."|];
        assert [path[0]] + (rest[0] + ".") == ([path[0]] + rest[0]) + ".";
      }
    }
  }

  lemma ListedByPath(path: string, id: string)
    ensures id in PathVariableIds(path) <==> NamesVariable(path, id)
  {
    NoDotInVariables();
    SplitTwo(path, VARIABLES);
    if IsPrefix(VARIABLES + ".", path) {
      var rest := path[|VARIABLES| + 1..];
      assert path == VARIABLES + "." + rest && Split(path)[1] == Split(rest)[0];
      FirstPart(rest);
      if '.' !in id {
        SplitTwo(rest, id);
        PrefixOfRest(rest, id);
      }
    }
    hide Split;
  }

  lemma NoDotInVariables()
    ensures '.' !in VARIABLES
  {
    assert forall i | 0 <= i < 9 :: VARIABLES[i] != '.';
  }

  lemma PrefixOfRest(rest: string, id: string)
    ensures IsPrefix(id + ".", rest) <==> IsPrefix(VARIABLES + "." + id + ".", VARIABLES + "." + rest)
    ensures rest == id <==> VARIABLES + "." + rest == VARIABLES + "." + id
  {
    var head := VARIABLES + ".";
    var whole, p := head + rest, head + (id + ".");
    assert VARIABLES + "." + id + "." == p;
    assert whole[|head|..] == rest && p[|head|..] == id + ".";
    if |p| <= |whole| { assert whole[..|p|] == head + rest[..|id + "."|]; }
    if IsPrefix(p, whole) {
      assert rest[..|id + "."|] == whole[|head|..|p|] == p[|head|..];
    }
    assert (head + id)[|head|..] == id;
  }

  /** The listed ids are exactly those of the variables that some path of the condition names. */
  lemma {:induction false} ListedIff(c: Condition, id: string)
    ensures id in ConditionVariableIds(c) <==> exists path | path in Paths(c) :: NamesVariable(path, id)
    decreases c, 0
  {
    hide PathVariableIds, NamesVariable;
    match c
    case All(cs) => AllListedIff(cs, id);
    case Any(cs) => AllListedIff(cs, id);
    case Not(child) => ListedIff(child, id);
    case Exists(path) => ListedByPath(path, id);
    case Compare(_, path, _) => ListedByPath(path, id);
  }

  lemma {:induction false} AllListedIff(cs: seq<Condition>, id: string)
    ensures id in ConditionsVariableIds(cs) <==> exists path | path in AllPaths(cs) :: NamesVariable(path, id)
    decreases cs, 1
  {
    hide PathVariableIds, NamesVariable;
    if cs != [] {
      ListedIff(cs[0], id);
      AllListedIff(cs[1..], id);
    }
  }

  /** Two contexts that differ in variables only, and agree on these. */
  ghost predicate AgreeOn(c1: Json, c2: Json, ids: seq<string>) {
    && c1.Obj? && c2.Obj? && c1.fields.Keys == c2.fields.Keys && VARIABLES in c1.fields
    && (forall k | k in c1.fields && k != VARIABLES :: c1.fields[k] == c2.fields[k])
    && c1.fields[VARIABLES].Obj? && c2.fields[VARIABLES].Obj?
    && forall id | id in ids ::
         var m1, m2 := c1.fields[VARIABLES].fields, c2.fields[VARIABLES].fields;
         (id in m1 <==> id in m2) && (id in m1 ==> m1[id] == m2[id])
  }

  lemma PathDependsOnListed(path: string, c1: Json, c2: Json, ids: seq<string>)
    requires AgreeOn(c1, c2, ids) && path != VARIABLES && forall id | id in PathVariableIds(path) :: id in ids
    ensures ResolvePath(c1, path) == ResolvePath(c2, path)
  {
    NoDotInVariables();
    SplitTwo(path, VARIABLES);
    var parts := Split(path);
    hide Split;
    if parts[0] == VARIABLES {
      assert parts[1] in PathVariableIds(path);
      assert ResolveParts(c1.fields[VARIABLES], parts[1..]) == ResolveParts(c2.fields[VARIABLES], parts[1..]);
    }
  }

  /** A condition's answer depends on no variable but those listed for it, unless it looks at
      all variables at once. */
  lemma {:induction false} DependsOnListed(c: Condition, c1: Json, c2: Json)
    requires AgreeOn(c1, c2, ConditionVariableIds(c)) && VARIABLES !in Paths(c)
    ensures Evaluate(c, c1) == Evaluate(c, c2)
  {
    DependsOnlyOn(c, c1, c2, ConditionVariableIds(c));
  }

  lemma {:induction false} DependsOnlyOn(c: Condition, c1: Json, c2: Json, ids: seq<string>)
    requires AgreeOn(c1, c2, ids) && VARIABLES !in Paths(c) && forall id | id in ConditionVariableIds(c) :: id in ids
    ensures Evaluate(c, c1) == Evaluate(c, c2)
    decreases c, 0
  {
    hide AgreeOn, ResolvePath, Compares, PathVariableIds;
    match c
    case All(cs) => AllDependOnlyOn(cs, c1, c2, ids);
    case Any(cs) => AllDependOnlyOn(cs, c1, c2, ids);
    case Not(child) => DependsOnlyOn(child, c1, c2, ids);
    case Exists(path) => PathDependsOnListed(path, c1, c2, ids);
    case Compare(_, path, _) => PathDependsOnListed(path, c1, c2, ids);
  }

  lemma {:induction false} AllDependOnlyOn(cs: seq<Condition>, c1: Json, c2: Json, ids: seq<string>)
    requires AgreeOn(c1, c2, ids) && VARIABLES !in AllPaths(cs)
    requires forall id | id in ConditionsVariableIds(cs) :: id in ids
    ensures forall i | 0 <= i < |cs| :: Evaluate(cs[i], c1) == Evaluate(cs[i], c2)
    decreases cs, 1
  {
    hide AgreeOn, Evaluate, Paths, ConditionVariableIds;
    if cs != [] {
      DependsOnlyOn(cs[0], c1, c2, ids);
      AllDependOnlyOn(cs[1..], c1, c2, ids);
      assert forall i | 1 <= i < |cs| :: cs[i] == cs[1..][i - 1];
    }
  }

  /** The triggers of a valid payload look at declared variables only: whatever else the context
      holds under `variables` changes no trigger's outcome. */
  lemma ValidTriggersLookAtDeclared(p: Payload, w: Variables.World, registry: Registry, i: nat, event: Event,
                                    consent: map<string, bool>, m1: map<string, Json>, m2: map<string, Json>)
    requires ValidPayload(p, w, registry) && i < |p.triggers| && VARIABLES !in Paths(p.triggers[i].conditions)
    requires forall v | v in p.variables :: (v.id in m1 <==> v.id in m2) && (v.id in m1 ==> m1[v.id] == m2[v.id])
    ensures TriggerOutcome(p.triggers[i], event.etype, ConditionContext(event, consent, m1)) ==
            TriggerOutcome(p.triggers[i], event.etype, ConditionContext(event, consent, m2))
  {
    var t := p.triggers[i];
    var c1, c2 := ConditionContext(event, consent, m1), ConditionContext(event, consent, m2);
    assert TriggerRefsKnown(p, t);
    hide Evaluate, ObjectIds, VariableSound, TagSound, ConditionVariableIds, Paths;
    forall id | id in ConditionVariableIds(t.conditions)
      ensures (id in m1 <==> id in m2) && (id in m1 ==> m1[id] == m2[id])
    {
      var v :| v in p.variables && v.id == id;
    }
    assert AgreeOn(c1, c2, ConditionVariableIds(t.conditions));
    DependsOnListed(t.conditions, c1, c2);
  }
}
