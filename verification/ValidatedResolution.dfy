/** What validation buys the resolver. */
module ValidatedResolution {
  import opened Wrappers
  import opened Json
  import opened Expressions
  import opened Variables
  import opened Config
  import opened Validation
  import opened Denotation
  import Resolver

  /** "unknown variable" or "computed variable cycle", directly or as the cause of another
      variable's failure. */
  predicate Structural(e: Error) {
    match e
    case UnknownVariable(_) => true
    case VariableCycle => true
    case Unresolved(_, Some(cause)) => Structural(cause)
    case _ => false
  }

  predicate CleanValue(v: Value) { v.Raised? ==> !Structural(v.error) }

  predicate CleanRecord(r: Resolution) { r.error.Some? ==> !Structural(r.error.value) }

  lemma {:induction false} CleanEvaluation(e: Expr, env: Env, lib: Library)
    requires forall id | id in VariableIds(e) :: CleanValue(env(id))
    ensures CleanValue(Eval(e, env, lib))
    decreases e, 0
  {
    match e
    case Literal(_) =>
    case Variable(_) =>
    case Coalesce(args) => CleanArguments(args, env, lib);
    case Concat(args) => CleanArguments(args, env, lib);
    case Unary(_, arg) => CleanEvaluation(arg, env, lib);
  }

  lemma {:induction false} CleanArguments(args: seq<Expr>, env: Env, lib: Library)
    requires forall id | id in ArgIds(args) :: CleanValue(env(id))
    ensures CleanValue(EvalCoalesce(args, env, lib)) && CleanValue(EvalConcat(args, env, lib))
    decreases args, 1
  {
    if args != [] {
      CleanEvaluation(args[0], env, lib);
      CleanArguments(args[1..], env, lib);
    }
  }

  ghost predicate ReferencesKnown(w: World) {
    forall id, r | id in w.vars && r in References(w.vars[id]) :: r in w.vars
  }

  lemma {:induction false} CleanMeaning(w: World, id: string, visiting: set<string>)
    requires Acyclic(w) && ReferencesKnown(w) && id in w.vars && Stranger(w, id, visiting)
    ensures CleanRecord(Plain(w, id, visiting))
    decreases |w.vars.Keys - visiting|, 0
  {
    if w.vars[id].enabled {
      hide *;
      StrangerIsNotVisiting(w, id, visiting);
      PlainUnfolds(w, id, visiting);
      forall r | r in References(w.vars[id])
        ensures CleanValue(PlainEnv(w, visiting + {id})(r))
      {
        StrangersBelow(w, id, r, visiting);
        ReferenceKnown(w, id, r);
        CleanReference(w, r, visiting + {id});
      }
      CleanStep(w, w.vars[id], PlainEnv(w, visiting + {id}));
    }
  }

  lemma ReferenceKnown(w: World, id: string, r: string)
    requires ReferencesKnown(w) && id in w.vars && r in References(w.vars[id])
    ensures r in w.vars
  {
  }

  lemma {:induction false} CleanReference(w: World, id: string, visiting: set<string>)
    requires Acyclic(w) && ReferencesKnown(w) && id in w.vars && Stranger(w, id, visiting)
    ensures CleanValue(PlainEnv(w, visiting)(id))
    decreases |w.vars.Keys - visiting|, 1
  {
    hide Plain, Acyclic, Stranger;
    CleanMeaning(w, id, visiting);
  }

  lemma CleanStep(w: World, v: VariableDef, env: Env)
    requires forall r | r in References(v) :: CleanValue(env(r))
    ensures CleanRecord(Step(w, v, env))
  {
    hide Tainted;
    if v.source.Computed? { CleanEvaluation(v.source.expr, env, w.lib); }
    var found := if v.source.Computed? then Eval(v.source.expr, env, w.lib) else ReadSource(v, w.context);
    assert CleanValue(found);
    assert Finish(w, v, found).error.Some? && !found.Raised? ==>
      Finish(w, v, found).error == Some(WrongType(TypeName(v.vtype)));
  }

  lemma ValidPayloadIsAcyclic(p: Payload, w: World, registry: Registry)
    requires w.vars == ById(p.variables) && ValidPayload(p, w, registry)
    ensures Acyclic(w) && ReferencesKnown(w)
  {
    forall a
      ensures !Reaches(w, a, a)
    {
      if Reaches(w, a, a) {
        ReachingIsComputed(w, a, a);
        DeclaredIsSound(p, w, registry, a);
      }
    }
    forall id, r | id in w.vars && r in References(w.vars[id])
      ensures r in w.vars
    {
      DeclaredIsSound(p, w, registry, id);
    }
  }

  lemma DeclaredIsSound(p: Payload, w: World, registry: Registry, id: string)
    requires w.vars == ById(p.variables) && ValidPayload(p, w, registry) && IsComputed(w, id)
    ensures !CycleBelow(w, id)
    ensures forall r | r in References(w.vars[id]) :: r in w.vars
  {
    var v := w.vars[id];
    var i :| 0 <= i < |p.variables| && p.variables[i] == v;
    assert VariableSound(p, p.variables[i], w);
    forall r | r in References(v)
      ensures r in w.vars
    {
      assert r in VariableIdSet(p);
    }
  }

  /** A payload that validates never makes the resolver report an unknown variable or a
      cycle for one of its variables, whatever its cache held. */
  lemma ValidatedNeverStructural(p: Payload, w: World, registry: Registry, id: string, r: Resolution)
    requires w.vars == ById(p.variables) && ValidPayload(p, w, registry)
    requires id in w.vars && Resolver.IsMeaning(w, id, r)
    ensures CleanRecord(r)
  {
    ValidPayloadIsAcyclic(p, w, registry);
    hide *;
    NoStrangers(w, id);
    CleanMeaning(w, id, {});
    MeaningIsPlain(w, id, r);
  }

  lemma MeaningIsPlain(w: World, id: string, r: Resolution)
    requires Acyclic(w) && Resolver.IsMeaning(w, id, r)
    ensures r == Plain(w, id, {})
  {
  }
}
