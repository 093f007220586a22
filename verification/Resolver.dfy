/** The memoising variable resolver: its cache, its set of variables in progress, and the
    taint search with its shared set of variables seen. */
module Resolver {
  import opened Wrappers
  import opened Json
  import opened Expressions
  import opened Variables
  import opened Denotation
  import opened Caching

  /** `y` cannot lead to a sensitive variable except through `seen`. */
  ghost predicate Cleared(w: World, y: string, seen: set<string>) {
    y in w.vars ==> y in seen || (!DirectlySensitive(w.vars[y], w.lib) && !w.vars[y].source.Computed?)
  }

  /** The search visited `x` and found nothing at it, nor below it outside `seen`. */
  ghost predicate Searched(w: World, x: string, seen: set<string>) {
    x in w.vars && !DirectlySensitive(w.vars[x], w.lib) && forall y | y in References(w.vars[x]) :: Cleared(w, y, seen)
  }

  lemma SearchedMonotone(w: World, x: string, seen: set<string>, more: set<string>)
    requires Searched(w, x, seen) && seen <= more
    ensures Searched(w, x, more)
  {
    forall y | y in References(w.vars[x])
      ensures Cleared(w, y, more)
    {
      assert Cleared(w, y, seen);
    }
  }

  lemma {:induction false} SearchedPathIsClean(w: World, path: seq<string>, seen: set<string>)
    requires IsPath(w, path) && Cleared(w, path[0], seen)
    requires forall x | x in seen :: Searched(w, x, seen)
    ensures Cleared(w, path[|path| - 1], seen)
  {
    if |path| > 1 {
      assert Edge(w, path[0], path[1]);
      forall i | 0 <= i < |path[1..]| - 1
        ensures Edge(w, path[1..][i], path[1..][i + 1])
      {
        assert Edge(w, path[i + 1], path[i + 2]);
      }
      SearchedPathIsClean(w, path[1..], seen);
    }
  }

  /** An exhausted search proves the absence of taint. */
  lemma SearchedMeansUntainted(w: World, id: string, seen: set<string>)
    requires id in w.vars && !DirectlySensitive(w.vars[id], w.lib)
    requires Cleared(w, id, seen) && forall x | x in seen :: Searched(w, x, seen)
    ensures !Tainted(w, id)
  {
    if Tainted(w, id) {
      var b :| b in w.vars && Reaches(w, id, b) && DirectlySensitive(w.vars[b], w.lib);
      var path :| |path| > 1 && PathFromTo(w, path, id, b);
      SearchedPathIsClean(w, path, seen);
    }
  }

  lemma TaintFlowsUp(w: World, id: string, r: string)
    requires id in w.vars && r in References(w.vars[id]) && Tainted(w, r)
    ensures Tainted(w, id)
  {
    EdgeReaches(w, id, r);
    if !DirectlySensitive(w.vars[r], w.lib) {
      var b :| b in w.vars && Reaches(w, r, b) && DirectlySensitive(w.vars[b], w.lib);
      ReachesTransitive(w, id, r, b);
    }
  }

  /** `_sensitive` with its shared `seen` set, which is handed on from call to call. */
  method SearchSensitive(w: World, v: VariableDef, seen: set<string>) returns (found: bool, seen': set<string>)
    requires Known(w) && v.id in w.vars && w.vars[v.id] == v
    ensures found ==> Tainted(w, v.id)
    ensures !found ==> seen <= seen' && Cleared(w, v.id, seen') && !DirectlySensitive(v, w.lib)
    ensures !found ==> forall x | x in seen' - seen :: Searched(w, x, seen')
    decreases |w.vars.Keys - seen|
  {
    seen' := seen;
    if DirectlySensitive(v, w.lib) { return true, seen; }
    if !v.source.Computed? { return false, seen; }
    if v.id in seen { return false, seen; }
    seen' := seen + {v.id};
    assert v.id in w.vars.Keys - seen;
    var ids := VariableIds(v.source.expr);
    for i := 0 to |ids|
      invariant seen + {v.id} <= seen'
      invariant forall j | 0 <= j < i :: Cleared(w, ids[j], seen')
      invariant forall x | x in seen' - seen - {v.id} :: Searched(w, x, seen')
    {
      if ids[i] in w.vars {
        assert w.vars.Keys - seen' < w.vars.Keys - seen;
        SubsetSmaller(w.vars.Keys - seen', w.vars.Keys - seen);
        var r, after := SearchSensitive(w, w.vars[ids[i]], seen');
        if r {
          TaintFlowsUp(w, v.id, ids[i]);
          return true, after;
        }
        forall x | x in seen' && Searched(w, x, seen')
          ensures Searched(w, x, after)
        {
          SearchedMonotone(w, x, seen', after);
        }
        seen' := after;
      }
    }
    return false, seen';
  }

  /** `_sensitive(variable)`: true exactly when a directly sensitive variable is the
      variable itself or can be reached through references. */
  method Sensitive(w: World, v: VariableDef) returns (r: bool)
    requires Known(w) && v.id in w.vars && w.vars[v.id] == v
    ensures r == Tainted(w, v.id)
  {
    var seen;
    r, seen := SearchSensitive(w, v, {});
    if !r { SearchedMeansUntainted(w, v.id, seen); }
  }

  /** While `id` is resolved, every variable in progress demands it and refers to it. */
  ghost predicate InProgressAbove(w: World, visiting: set<string>, id: string) {
    DemandChain(w, visiting, id) && forall a | a in visiting :: Reaches(w, a, id)
  }

  lemma InProgressExtends(w: World, visiting: set<string>, id: string, r: string)
    requires InProgressAbove(w, visiting, id)
    requires id in w.vars && r in References(w.vars[id]) && Demands(w, id, Variable(r))
    ensures InProgressAbove(w, visiting + {id}, r)
  {
    hide Demands, References, Reaches;
    EdgeOf(w, id, r);
    forall a | a in visiting + {id}
      ensures Demands(w, a, Variable(r)) && Reaches(w, a, r)
    {
      if a != id {
        DemandsTransitive(w, a, id, r);
        ReachesTransitive(w, a, id, r);
      }
    }
  }

  lemma EdgeOf(w: World, id: string, r: string)
    requires id in w.vars && r in References(w.vars[id])
    ensures Reaches(w, id, r)
  {
    EdgeReaches(w, id, r);
  }

  /** A cached record that may be served for `k`. */
  ghost predicate Serves(w: World, k: string, r: Resolution, visiting: set<string>) {
    && Agree(Reference(r), Outcome(w, k))
    && (k !in visiting ==> SameUpToErrorText(r, Plain(w, k, {})))
    && (Acyclic(w) ==> r == Plain(w, k, {}))
  }

  /** `r` is what resolving `id` from scratch, with an empty cache, gives: up to the text of
      an error on every payload, and altogether when references are acyclic. */
  ghost predicate IsMeaning(w: World, id: string, r: Resolution) {
    SameUpToErrorText(r, Plain(w, id, {})) && (Acyclic(w) ==> r == Plain(w, id, {}))
  }

  lemma ServedIsMeaning(w: World, id: string, r: Resolution)
    requires Serves(w, id, r, {})
    ensures IsMeaning(w, id, r)
  {
  }

  lemma NothingInProgress(w: World, id: string)
    ensures InProgressAbove(w, {}, id)
  {
  }

  ghost predicate CacheServes(w: World, cache: map<string, Resolution>, visiting: set<string>) {
    forall k | k in cache :: Serves(w, k, cache[k], visiting)
  }

  lemma CachedServes(w: World, cache: map<string, Resolution>, visiting: set<string>, k: string)
    requires CacheServes(w, cache, visiting) && k in cache
    ensures Serves(w, k, cache[k], visiting)
  {
    hide Serves;
  }

  lemma CacheGrows(w: World, cache: map<string, Resolution>, visiting: set<string>, k: string, r: Resolution)
    requires CacheServes(w, cache, visiting) && Serves(w, k, r, visiting)
    ensures CacheServes(w, cache[k := r], visiting)
  {
    hide Serves;
  }

  lemma CacheServesWhile(w: World, cache: map<string, Resolution>, visiting: set<string>, id: string)
    requires CacheServes(w, cache, visiting)
    ensures CacheServes(w, cache, visiting + {id})
  {
    hide Agree, Reference, SameUpToErrorText, Outcome, Plain, Acyclic;
  }

  /** When `id` is done, its record replaces any cycle record cached for it meanwhile. */
  lemma CacheServesAfter(w: World, cache: map<string, Resolution>, visiting: set<string>, id: string, r: Resolution)
    requires CacheServes(w, cache, visiting + {id}) && Serves(w, id, r, {})
    ensures CacheServes(w, cache[id := r], visiting) && Serves(w, id, r, visiting)
  {
    hide Agree, Reference, SameUpToErrorText, Outcome, Plain, Acyclic;
  }

  lemma CycleRecordServesWhile(w: World, id: string, visiting: set<string>)
    requires id in visiting && InProgressAbove(w, visiting, id)
    requires id in w.vars && w.vars[id].enabled
    ensures Serves(w, id, CycleRecord(w.vars[id]), visiting)
  {
    hide Agree, Reference, SameUpToErrorText, Outcome, Plain, Acyclic, InProgressAbove;
    CycleRecordServes(w, id, visiting);
  }

  /** The value of an expression while its variable `top` is resolved. */
  ghost predicate EvaluatesTo(w: World, e: Expr, v: Value) {
    && Agree(v, Eval(e, OutcomeEnv(w), w.lib))
    && (Acyclic(w) ==> v == Eval(e, PlainEnv(w, {}), w.lib))
  }

  lemma ServesReference(w: World, id: string, r: Resolution)
    requires Agree(Reference(r), Outcome(w, id)) && (Acyclic(w) ==> r == Plain(w, id, {}))
    ensures EvaluatesTo(w, Variable(id), Reference(r))
  {
  }

  lemma UnaryEvaluates(w: World, op: UnaryOp, arg: Expr, inner: Value)
    requires EvaluatesTo(w, arg, inner)
    ensures EvaluatesTo(w, Unary(op, arg), ApplyUnary(op, inner, w.lib))
  {
    hide Outcome, Plain, Acyclic;
  }

  lemma ShortRecordServes(w: World, id: string, visiting: set<string>, r: Resolution)
    requires id !in w.vars || !w.vars[id].enabled
    requires r == if id !in w.vars then UnknownRecord(id) else Record(w, w.vars[id], Disabled, Null, None)
    ensures Serves(w, id, r, visiting)
  {
    hide Outcome, Demands, Tainted;
    EmptyChain(w, id);
    PlainHasOutcome(w, id, {});
  }

  /** Meeting a variable that is in progress: it cannot succeed, so the cycle error stands
      for its outcome, and there is no such meeting without a cycle. */
  lemma CycleRecordServes(w: World, id: string, visiting: set<string>)
    requires id in visiting && InProgressAbove(w, visiting, id)
    requires id in w.vars && w.vars[id].enabled
    ensures !Acyclic(w) && Agree(Reference(CycleRecord(w.vars[id])), Outcome(w, id))
  {
    hide Plain, Bounded;
    assert Reaches(w, id, id);
    assert Demands(w, id, Variable(id));
    if !Outcome(w, id).Raised? {
      var n: nat :| Succeeds(w, id, n);
      SelfDemandFails(w, id, n);
    }
  }

  /** The record built from a correctly evaluated source is the one resolved from scratch. */
  lemma FinishedRecordServes(w: World, id: string, found: Value, visiting: set<string>)
    requires id in w.vars && w.vars[id].enabled
    requires var v := w.vars[id];
      if v.source.Computed? then EvaluatesTo(w, v.source.expr, found) else found == ReadSource(v, w.context)
    ensures Serves(w, id, Finish(w, w.vars[id], found), visiting)
  {
    var v, r := w.vars[id], Finish(w, w.vars[id], found);
    assert SameUpToErrorText(r, Step(w, v, OutcomeEnv(w)));
    assert Acyclic(w) ==> r == Step(w, v, PlainEnv(w, {}));
    FinishedRecordAgrees(w, id, r);
  }

  lemma FinishedRecordAgrees(w: World, id: string, r: Resolution)
    requires id in w.vars && w.vars[id].enabled
    requires SameUpToErrorText(r, Step(w, w.vars[id], OutcomeEnv(w)))
    requires Acyclic(w) ==> r == Step(w, w.vars[id], PlainEnv(w, {}))
    ensures forall visiting :: Serves(w, id, r, visiting)
  {
    hide Plain, Step, Outcome, Demands, Acyclic;
    OutcomesSolveStep(w, id);
    EmptyChain(w, id);
    PlainHasOutcome(w, id, {});
    if Acyclic(w) { AcyclicMeaningIsRecursive(w, id); }
  }

  /** Before argument `i` of a coalesce: all earlier ones were skipped. */
  ghost predicate CoalesceAt(w: World, top: string, args: seq<Expr>, i: nat)
    requires i <= |args|
  {
    && Demands(w, top, Coalesce(args[i..]))
    && EvalCoalesce(args, OutcomeEnv(w), w.lib) == EvalCoalesce(args[i..], OutcomeEnv(w), w.lib)
    && (Acyclic(w) ==> EvalCoalesce(args, PlainEnv(w, {}), w.lib) == EvalCoalesce(args[i..], PlainEnv(w, {}), w.lib))
  }

  lemma CoalesceStarts(w: World, top: string, args: seq<Expr>)
    requires Demands(w, top, Coalesce(args))
    ensures CoalesceAt(w, top, args, 0)
  {
    assert args[0..] == args;
  }

  lemma CoalesceStep(w: World, top: string, args: seq<Expr>, i: nat, v: Value)
    requires i < |args| && CoalesceAt(w, top, args, i) && EvaluatesTo(w, args[i], v)
    ensures Skipped(v) ==> CoalesceAt(w, top, args, i + 1)
    ensures !Skipped(v) ==> EvaluatesTo(w, Coalesce(args), v)
  {
    hide Demands, Acyclic, PlainEnv, OutcomeEnv;
    assert args[i..][1..] == args[i + 1..] && args[i..][0] == args[i];
    CoalesceDemands(w, top, args[i..]);
  }

  lemma CoalesceHead(w: World, top: string, args: seq<Expr>, i: nat)
    requires i < |args| && CoalesceAt(w, top, args, i)
    ensures Demands(w, top, args[i])
  {
    hide Demands;
    CoalesceDemands(w, top, args[i..]);
  }

  lemma CoalesceEnds(w: World, top: string, args: seq<Expr>)
    requires CoalesceAt(w, top, args, |args|)
    ensures EvaluatesTo(w, Coalesce(args), Missing)
  {
  }

  /** The strings of a concat joined; the error of its first failing argument or of a
      non-string one. */
  function Join(values: seq<Value>): Value {
    if values == [] then Got(Str(""))
    else if values[0].Raised? then values[0]
    else JoinHead(values[0], Join(values[1..]))
  }

  lemma {:induction false} JoinIsJoinOnto(values: seq<Value>)
    ensures Join(values) == JoinOnto(values, Got(Str("")))
  {
    if values != [] { JoinIsJoinOnto(values[1..]); }
  }

  lemma NothingJoined(w: World, cache: Cache, visiting: set<string>)
    ensures forall rest :: JoinOnto([], rest) == rest
    ensures RunConcat(w, [], cache, visiting) == (Got(Str("")), cache)
  {
  }

  /** The first `i` arguments of a concat have been evaluated to `values`. */
  ghost predicate ConcatAt(w: World, top: string, args: seq<Expr>, i: nat, values: seq<Value>)
    requires i <= |args|
  {
    && |values| == i && Demands(w, top, Concat(args[i..]))
    && forall j | 0 <= j < i :: !values[j].Raised? && EvaluatesTo(w, args[j], values[j])
  }

  lemma ConcatHead(w: World, top: string, args: seq<Expr>, i: nat, values: seq<Value>)
    requires i < |args| && ConcatAt(w, top, args, i, values)
    ensures Demands(w, top, args[i]) && Demands(w, top, Concat(args[i + 1..]))
  {
    hide Demands;
    assert args[i..][1..] == args[i + 1..] && args[i..][0] == args[i];
    ConcatDemands(w, top, args[i..]);
  }

  /** A concat whose evaluated arguments are known, up to a failing last one. */
  lemma {:induction false} ConcatPrefix(args: seq<Expr>, env: Env, lib: Library, values: seq<Value>)
    requires |values| <= |args|
    requires forall j | 0 <= j < |values| :: values[j] == Eval(args[j], env, lib)
    requires forall j | 0 <= j < |values| - 1 :: !values[j].Raised?
    requires |values| < |args| ==> |values| > 0 && values[|values| - 1].Raised?
    ensures |values| == |args| ==> EvalConcat(args, env, lib) == Join(values)
    ensures |values| > 0 && values[|values| - 1].Raised? ==> EvalConcat(args, env, lib) == values[|values| - 1]
  {
    if |values| > 0 && !values[0].Raised? {
      ConcatPrefix(args[1..], env, lib, values[1..]);
    }
  }

  class VariableResolver {
    const variables: seq<VariableDef>
    const w: World
    var cache: map<string, Resolution>
    var visiting: set<string>

    ghost predicate Valid()
      reads this
    {
      && w.vars == ById(variables)
      && visiting <= w.vars.Keys
      && CacheServes(w, cache, visiting)
    }

    constructor (variables: seq<VariableDef>, context: Json, lib: Library)
      ensures Valid() && visiting == {} && cache == map[] && w == World(ById(variables), context, lib)
      ensures this.variables == variables
    {
      this.variables := variables;
      w := World(ById(variables), context, lib);
      cache := map[];
      visiting := {};
    }

    /** `resolve`.  Whatever earlier calls left in the cache, the record of a variable that
        is not in progress is its meaning from scratch: the same up to error text on every
        payload, and the same altogether when references are acyclic. */
    method Resolve(id: string) returns (r: Resolution)
      requires Valid() && InProgressAbove(w, visiting, id)
      modifies this
      ensures Valid() && visiting == old(visiting)
      ensures Serves(w, id, r, visiting)
      ensures (r, cache) == RunResolve(w, id, old(cache), visiting)
      decreases |w.vars.Keys - visiting|, 0
    {
      hide RunValue, Plain, Outcome, Acyclic, Demands, Reaches, Tainted, DemandChain, SameUpToErrorText, Agree,
           Reference, CacheServes, Serves;
      if id in cache {
        CachedServes(w, cache, visiting, id);
        return cache[id];
      }
      if id !in w.vars {
        r := UnknownRecord(id);
        ShortRecordServes(w, id, visiting, r);
        CacheGrows(w, cache, visiting, id, r);
        cache := cache[id := r];
        return;
      }
      var variable := w.vars[id];
      hide ById;
      if !variable.enabled {
        var sensitive := Sensitive(w, variable);
        r := Resolution(variable.id, variable.name, Disabled, Null, None, sensitive);
        ShortRecordServes(w, id, visiting, r);
        CacheGrows(w, cache, visiting, id, r);
        cache := cache[id := r];
        return;
      }
      if id in visiting {
        CycleRecordServesWhile(w, id, visiting);
        r := CycleRecord(variable);
        CacheGrows(w, cache, visiting, id, r);
        cache := cache[id := r];
        return;
      }
      assert id in w.vars.Keys - visiting;
      SubsetSmaller(w.vars.Keys - (visiting + {id}), w.vars.Keys - visiting);
      ghost var before := visiting;
      CacheServesWhile(w, cache, visiting, id);
      visiting := visiting + {id};
      assert visiting - {id} == before;
      r := ResolveValue(id);
      CacheServesAfter(w, cache, before, id, r);
      visiting := visiting - {id};
      cache := cache[id := r];
    }

    /** `_resolve_value`: read or compute the source, then apply default and type. */
    method ResolveValue(id: string) returns (r: Resolution)
      requires Valid() && id in visiting && InProgressAbove(w, visiting - {id}, id)
      requires id in w.vars && w.vars[id].enabled
      modifies this
      ensures Valid() && visiting == old(visiting)
      ensures Serves(w, id, r, {})
      ensures (r, cache) == RunValue(w, w.vars[id], old(cache), visiting)
      decreases |w.vars.Keys - visiting|, 3
    {
      hide RunEval;
      var variable := w.vars[id];
      var found: Value;
      if variable.source.Computed? {
        ComputedDemandsItsExpression(w, id);
        found := EvaluateExpression(id, variable.source.expr);
      } else {
        found := ReadSource(variable, w.context);
      }
      FinishedRecordServes(w, id, found, {});
      var sensitive := Sensitive(w, variable);
      var status, value, error := Failed, Null, None;
      match found {
        case Raised(e) => error := Some(e);
        case Missing =>
          if variable.default.Null? {
            status := Absent;
          } else if TypeMatches(variable.default, variable.vtype) {
            status, value := Default, variable.default;
          } else {
            error := Some(WrongType(TypeName(variable.vtype)));
          }
        case Got(v) =>
          if TypeMatches(v, variable.vtype) {
            status, value := Resolved, v;
          } else {
            error := Some(WrongType(TypeName(variable.vtype)));
          }
      }
      r := Resolution(variable.id, variable.name, status, value, error, sensitive);
    }

    /** `evaluate_expression` with `_resolve_reference` as its callback. */
    method EvaluateExpression(top: string, e: Expr) returns (v: Value)
      requires Valid() && top in visiting && InProgressAbove(w, visiting - {top}, top)
      requires top in w.vars && Demands(w, top, e)
      requires forall r | r in VariableIds(e) :: r in References(w.vars[top])
      modifies this
      ensures Valid() && visiting == old(visiting)
      ensures EvaluatesTo(w, e, v)
      ensures (v, cache) == RunEval(w, e, old(cache), visiting)
      decreases |w.vars.Keys - visiting|, 2, e
    {
      hide RunResolve, RunCoalesce, RunConcat, Demands, Acyclic, Plain, Outcome, InProgressAbove, CacheServes;
      match e {
        case Literal(value) => v := Got(value);
        case Variable(id) =>
          InProgressExtends(w, visiting - {top}, top, id);
          assert visiting - {top} + {top} == visiting;
          var r := Resolve(id);
          ServesReference(w, id, r);
          v := Reference(r);
        case Coalesce(args) => v := EvaluateCoalesce(top, args);
        case Concat(args) => v := EvaluateConcat(top, args);
        case Unary(op, arg) =>
          UnaryDemands(w, top, op, arg);
          var inner := EvaluateExpression(top, arg);
          v := ApplyUnary(op, inner, w.lib);
          UnaryEvaluates(w, op, arg, inner);
      }
    }

    /** The first argument that is neither missing nor null; later ones are not evaluated. */
    method EvaluateCoalesce(top: string, args: seq<Expr>) returns (v: Value)
      requires Valid() && top in visiting && InProgressAbove(w, visiting - {top}, top)
      requires top in w.vars && Demands(w, top, Coalesce(args))
      requires forall r | r in ArgIds(args) :: r in References(w.vars[top])
      modifies this
      ensures Valid() && visiting == old(visiting)
      ensures EvaluatesTo(w, Coalesce(args), v)
      ensures (v, cache) == RunCoalesce(w, args, old(cache), visiting)
      decreases |w.vars.Keys - visiting|, 2, args
    {
      assert args[0..] == args;
      hide RunEval, Demands, Acyclic, Plain, Outcome, EvaluatesTo, InProgressAbove, CoalesceAt, CacheServes;
      CoalesceStarts(w, top, args);
      for i := 0 to |args|
        invariant Valid() && visiting == old(visiting)
        invariant CoalesceAt(w, top, args, i)
        invariant RunCoalesce(w, args, old(cache), visiting) == RunCoalesce(w, args[i..], cache, visiting)
      {
        CoalesceFrom(w, args, i, cache, visiting);
        CoalesceHead(w, top, args, i);
        ArgIdsContain(args, i);
        var item := EvaluateExpression(top, args[i]);
        CoalesceStep(w, top, args, i, item);
        if !Skipped(item) { return item; }
      }
      CoalesceEnds(w, top, args);
      assert args[|args|..] == [];
      return Missing;
    }

    /** Every argument is evaluated before they are joined. */
    method EvaluateConcat(top: string, args: seq<Expr>) returns (v: Value)
      requires Valid() && top in visiting && InProgressAbove(w, visiting - {top}, top)
      requires top in w.vars && Demands(w, top, Concat(args))
      requires forall r | r in ArgIds(args) :: r in References(w.vars[top])
      modifies this
      ensures Valid() && visiting == old(visiting)
      ensures EvaluatesTo(w, Concat(args), v)
      ensures (v, cache) == RunConcat(w, args, old(cache), visiting)
      decreases |w.vars.Keys - visiting|, 2, args
    {
      hide RunEval, Demands, Acyclic, Plain, Outcome, EvaluatesTo, InProgressAbove, CacheServes, Join, JoinOnto,
           RunConcat, ArgIds, References;
      var values: seq<Value> := [];
      assert args[0..] == args;
      NothingJoined(w, cache, visiting);
      for i := 0 to |args|
        invariant Valid() && visiting == old(visiting)
        invariant ConcatAt(w, top, args, i, values)
        invariant var now := RunConcat(w, args[i..], cache, visiting);
          RunConcat(w, args, old(cache), visiting) == (JoinOnto(values, now.0), now.1)
      {
        ConcatFrom(w, args, i, cache, visiting, values);
        ConcatHead(w, top, args, i, values);
        ArgIdsContain(args, i);
        var item := EvaluateExpression(top, args[i]);
        if item.Raised? {
          ConcatRaises(w, top, args, values, item);
          return item;
        }
        values := values + [item];
      }
      ConcatJoins(w, top, args, values);
      assert args[|args|..] == [];
      JoinIsJoinOnto(values);
      NothingJoined(w, cache, visiting);
      return Join(values);
    }

    /** `resolve_all`, one record per declared variable in order. */
    method ResolveAll() returns (rs: seq<Resolution>)
      requires Valid() && visiting == {}
      modifies this
      ensures Valid() && visiting == {}
      ensures |rs| == |variables|
      ensures forall i | 0 <= i < |rs| :: IsMeaning(w, variables[i].id, rs[i])
    {
      hide *;
      rs := [];
      for i := 0 to |variables|
        invariant Valid() && visiting == {}
        invariant |rs| == i
        invariant forall j | 0 <= j < i :: IsMeaning(w, variables[j].id, rs[j])
      {
        NothingInProgress(w, variables[i].id);
        var r := Resolve(variables[i].id);
        ServedIsMeaning(w, variables[i].id, r);
        rs := rs + [r];
      }
    }
  }

  lemma {:induction false} ArgIdsContain(args: seq<Expr>, i: nat)
    requires i < |args|
    ensures forall r | r in VariableIds(args[i]) :: r in ArgIds(args)
  {
    if i > 0 { ArgIdsContain(args[1..], i - 1); }
  }

  lemma ConcatRaises(w: World, top: string, args: seq<Expr>, values: seq<Value>, item: Value)
    requires |values| < |args| && ConcatAt(w, top, args, |values|, values)
    requires item.Raised? && EvaluatesTo(w, args[|values|], item)
    ensures EvaluatesTo(w, Concat(args), item)
  {
    hide Demands, Acyclic;
    var n := |values|;
    ConcatPrefix(args, OutcomeEnv(w), w.lib, values + [Eval(args[n], OutcomeEnv(w), w.lib)]);
    if Acyclic(w) { ConcatPrefix(args, PlainEnv(w, {}), w.lib, values + [item]); }
  }

  lemma ConcatJoins(w: World, top: string, args: seq<Expr>, values: seq<Value>)
    requires ConcatAt(w, top, args, |args|, values)
    ensures EvaluatesTo(w, Concat(args), Join(values))
  {
    hide Demands, Acyclic;
    ConcatPrefix(args, OutcomeEnv(w), w.lib, values);
    if Acyclic(w) { ConcatPrefix(args, PlainEnv(w, {}), w.lib, values); }
  }
}
