/** How the cache-free meaning `Plain`, its depth-bounded form and the outcome of a
    variable relate.  Nothing here assumes that references are acyclic unless it says so. */
module Denotation {
  import opened Wrappers
  import opened Json
  import opened Expressions
  import opened Variables

  ghost function PlainEnv(w: World, visiting: set<string>): Env {
    r => Reference(Plain(w, r, visiting))
  }

  lemma PlainUnfolds(w: World, id: string, visiting: set<string>)
    requires id in w.vars && w.vars[id].enabled && id !in visiting
    ensures |w.vars.Keys - (visiting + {id})| < |w.vars.Keys - visiting|
    ensures Plain(w, id, visiting) == Step(w, w.vars[id], PlainEnv(w, visiting + {id}))
  {
    assert id in w.vars.Keys - visiting;
    assert w.vars.Keys - (visiting + {id}) < w.vars.Keys - visiting;
    SubsetSmaller(w.vars.Keys - (visiting + {id}), w.vars.Keys - visiting);
    StepDependsOnReferences(w, w.vars[id], r => Reference(Plain(w, r, visiting + {id})), PlainEnv(w, visiting + {id}));
  }

  lemma StepDependsOnReferences(w: World, v: VariableDef, env1: Env, env2: Env)
    requires forall r | r in References(v) :: env1(r) == env2(r)
    ensures Step(w, v, env1) == Step(w, v, env2)
  {
    if v.source.Computed? {
      EvalDependsOnIds(v.source.expr, env1, env2, w.lib);
    }
  }

  /** Only known, enabled variables that are not in progress have a value. */
  lemma PlainSuccessUnfolds(w: World, id: string, visiting: set<string>)
    requires !Reference(Plain(w, id, visiting)).Raised?
    ensures id in w.vars && w.vars[id].enabled && id !in visiting
    ensures |w.vars.Keys - (visiting + {id})| < |w.vars.Keys - visiting|
    ensures Plain(w, id, visiting) == Step(w, w.vars[id], PlainEnv(w, visiting + {id}))
  {
    PlainUnfolds(w, id, visiting);
  }

  /** A cache-free success needs no more depth than there are variables left. */
  lemma {:induction false} PlainWithinBound(w: World, id: string, visiting: set<string>, n: nat)
    requires n == |w.vars.Keys - visiting|
    requires !Reference(Plain(w, id, visiting)).Raised?
    ensures Bounded(w, id, n) == Plain(w, id, visiting)
    decreases n, 0
  {
    hide *;
    PlainSuccessUnfolds(w, id, visiting);
    var v, deeper := w.vars[id], visiting + {id};
    var k := |w.vars.Keys - deeper|;
    forall r | r in References(v) && !PlainEnv(w, deeper)(r).Raised?
      ensures BoundedEnv(w, n - 1)(r) == PlainEnv(w, deeper)(r)
    {
      PlainEnvWithinBound(w, r, deeper, k, n - 1);
    }
    StepMonotone(w, v, PlainEnv(w, deeper), BoundedEnv(w, n - 1));
    BoundedUnfolds(w, id, n);
  }

  lemma {:induction false} PlainEnvWithinBound(w: World, id: string, visiting: set<string>, k: nat, n: nat)
    requires k == |w.vars.Keys - visiting| && k <= n
    requires !PlainEnv(w, visiting)(id).Raised?
    ensures BoundedEnv(w, n)(id) == PlainEnv(w, visiting)(id)
    decreases k, 1
  {
    PlainWithinBound(w, id, visiting, k);
    BoundedMonotone(w, id, k, n);
  }

  /** Everything being resolved leads, by demand, to `id`. */
  ghost predicate DemandChain(w: World, visiting: set<string>, id: string) {
    forall a | a in visiting :: Demands(w, a, Variable(id))
  }

  /** A bounded success is also a cache-free success below any chain of demands: the
      variables in progress all need `id`, so `id` cannot need them. */
  lemma {:induction false} BoundedIsPlain(w: World, id: string, visiting: set<string>, n: nat)
    requires DemandChain(w, visiting, id) && Succeeds(w, id, n)
    ensures Plain(w, id, visiting) == Bounded(w, id, n)
    decreases n, 0
  {
    hide *;
    NotDemandingItself(w, id, visiting, n);
    BoundedSuccessUnfolds(w, id, n);
    PlainUnfolds(w, id, visiting);
    BoundedSourceIsPlain(w, id, visiting, n);
  }

  lemma NotDemandingItself(w: World, id: string, visiting: set<string>, n: nat)
    requires DemandChain(w, visiting, id) && Succeeds(w, id, n)
    ensures id !in visiting
  {
    hide Bounded, Reference;
    if id in visiting { SelfDemandFails(w, id, n); }
  }

  lemma {:induction false} BoundedSourceIsPlain(w: World, id: string, visiting: set<string>, n: nat)
    requires DemandChain(w, visiting, id) && Succeeds(w, id, n)
    requires id !in visiting && id in w.vars && w.vars[id].enabled && n > 0
    ensures Step(w, w.vars[id], PlainEnv(w, visiting + {id})) == Step(w, w.vars[id], BoundedEnv(w, n - 1))
    decreases n - 1, 2
  {
    hide Plain, Bounded, Eval;
    var v := w.vars[id];
    if v.source.Computed? {
      ComputedDemandsItsExpression(w, id);
      assert visiting + {id} - {id} == visiting;
      BoundedEvalIsPlain(w, id, visiting + {id}, v.source.expr, n - 1);
    }
  }

  lemma {:induction false} BoundedEvalIsPlain(w: World, top: string, visiting: set<string>, e: Expr, n: nat)
    requires top in visiting && DemandChain(w, visiting - {top}, top)
    requires Demands(w, top, e) && !Eval(e, BoundedEnv(w, n), w.lib).Raised?
    ensures Eval(e, PlainEnv(w, visiting), w.lib) == Eval(e, BoundedEnv(w, n), w.lib)
    decreases n, 1, e
  {
    match e
    case Literal(_) =>
    case Variable(id) =>
      forall a | a in visiting
        ensures Demands(w, a, Variable(id))
      {
        if a != top { DemandsTransitive(w, a, top, id); }
      }
      BoundedIsPlain(w, id, visiting, n);
    case Coalesce(args) => BoundedCoalesceIsPlain(w, top, visiting, args, n);
    case Concat(args) => BoundedConcatIsPlain(w, top, visiting, args, n);
    case Unary(op, arg) =>
      UnaryDemands(w, top, op, arg);
      BoundedEvalIsPlain(w, top, visiting, arg, n);
  }

  lemma {:induction false} BoundedCoalesceIsPlain(w: World, top: string, visiting: set<string>, args: seq<Expr>, n: nat)
    requires top in visiting && DemandChain(w, visiting - {top}, top)
    requires Demands(w, top, Coalesce(args)) && !EvalCoalesce(args, BoundedEnv(w, n), w.lib).Raised?
    ensures EvalCoalesce(args, PlainEnv(w, visiting), w.lib) == EvalCoalesce(args, BoundedEnv(w, n), w.lib)
    decreases n, 1, args
  {
    if args != [] {
      CoalesceDemands(w, top, args);
      BoundedEvalIsPlain(w, top, visiting, args[0], n);
      if Skipped(Eval(args[0], BoundedEnv(w, n), w.lib)) {
        BoundedBelowOutcome(w, args[0], n);
        BoundedCoalesceIsPlain(w, top, visiting, args[1..], n);
      }
    }
  }

  lemma {:induction false} BoundedConcatIsPlain(w: World, top: string, visiting: set<string>, args: seq<Expr>, n: nat)
    requires top in visiting && DemandChain(w, visiting - {top}, top)
    requires Demands(w, top, Concat(args)) && !EvalConcat(args, BoundedEnv(w, n), w.lib).Raised?
    ensures EvalConcat(args, PlainEnv(w, visiting), w.lib) == EvalConcat(args, BoundedEnv(w, n), w.lib)
    decreases n, 1, args
  {
    if args != [] {
      ConcatDemands(w, top, args);
      BoundedEvalIsPlain(w, top, visiting, args[0], n);
      BoundedConcatIsPlain(w, top, visiting, args[1..], n);
    }
  }

  /** Which variables are in progress is invisible: below a chain of demands, resolving
      from scratch gives the outcome of the variable, cycles or not. */
  lemma PlainHasOutcome(w: World, id: string, visiting: set<string>)
    requires DemandChain(w, visiting, id)
    ensures Agree(Reference(Plain(w, id, visiting)), Outcome(w, id))
  {
    if !Reference(Plain(w, id, visiting)).Raised? {
      var n := |w.vars.Keys - visiting|;
      PlainWithinBound(w, id, visiting, n);
      assert Succeeds(w, id, n);
    } else if !Outcome(w, id).Raised? {
      var n: nat :| Succeeds(w, id, n);
      BoundedIsPlain(w, id, visiting, n);
    }
  }

  /** A depth at which every listed variable that succeeds at all succeeds. */
  lemma {:induction false} CommonDepth(w: World, ids: seq<string>) returns (n: nat)
    ensures forall r | r in ids && !Outcome(w, r).Raised? :: Succeeds(w, r, n)
  {
    if ids == [] {
      n := 0;
    } else {
      var m := CommonDepth(w, ids[1..]);
      var k: nat := 0;
      if !Outcome(w, ids[0]).Raised? {
        k :| Succeeds(w, ids[0], k);
      }
      n := if m < k then k else m;
      forall r | r in ids && !Outcome(w, r).Raised?
        ensures Succeeds(w, r, n)
      {
        if r in ids[1..] { BoundedMonotone(w, r, m, n); } else { BoundedMonotone(w, r, k, n); }
      }
    }
  }

  /** Outcomes solve the recursive equation: an enabled variable's record, computed from the
      outcomes of what it mentions, is its record from scratch, up to error text. */
  lemma OutcomesSolveStep(w: World, id: string)
    requires id in w.vars && w.vars[id].enabled
    ensures SameUpToErrorText(Step(w, w.vars[id], OutcomeEnv(w)), Plain(w, id, {}))
  {
    hide *;
    var v := w.vars[id];
    PlainUnfolds(w, id, {});
    if !Reference(Step(w, v, OutcomeEnv(w))).Raised? {
      OutcomeStepIsPlain(w, id);
    } else if !Reference(Plain(w, id, {})).Raised? {
      PlainIsOutcomeStep(w, id);
    } else {
      FailuresAgree(w, v, OutcomeEnv(w), PlainEnv(w, {} + {id}));
    }
    SameRecord(Plain(w, id, {}));
  }

  lemma FailuresAgree(w: World, v: VariableDef, env1: Env, env2: Env)
    requires Reference(Step(w, v, env1)).Raised? && Reference(Step(w, v, env2)).Raised?
    ensures SameUpToErrorText(Step(w, v, env1), Step(w, v, env2))
  {
  }

  lemma SameRecord(r: Resolution)
    ensures SameUpToErrorText(r, r)
  {
  }

  lemma OutcomeStepIsPlain(w: World, id: string)
    requires id in w.vars && w.vars[id].enabled
    requires !Reference(Step(w, w.vars[id], OutcomeEnv(w))).Raised?
    ensures Step(w, w.vars[id], OutcomeEnv(w)) == Plain(w, id, {})
  {
    hide *;
    var v := w.vars[id];
    var n := CommonDepth(w, References(v));
    forall r | r in References(v) && !OutcomeEnv(w)(r).Raised?
      ensures BoundedEnv(w, n)(r) == OutcomeEnv(w)(r)
    {
      OutcomeAtDepth(w, r, n);
    }
    StepMonotone(w, v, OutcomeEnv(w), BoundedEnv(w, n));
    BoundedUnfolds(w, id, n + 1);
    SucceedsAs(w, id, n + 1, Step(w, v, OutcomeEnv(w)));
    EmptyChain(w, id);
    BoundedIsPlain(w, id, {}, n + 1);
  }

  lemma PlainIsOutcomeStep(w: World, id: string)
    requires id in w.vars && w.vars[id].enabled
    requires !Reference(Plain(w, id, {})).Raised?
    ensures Step(w, w.vars[id], OutcomeEnv(w)) == Plain(w, id, {})
  {
    hide *;
    var v := w.vars[id];
    var n := |w.vars.Keys - {}|;
    PlainWithinBound(w, id, {}, n);
    SucceedsAs(w, id, n, Plain(w, id, {}));
    BoundedSuccessUnfolds(w, id, n);
    forall r | r in References(v) && !BoundedEnv(w, n - 1)(r).Raised?
      ensures OutcomeEnv(w)(r) == BoundedEnv(w, n - 1)(r)
    {
      BoundedEnvIsOutcome(w, r, n - 1);
    }
    StepMonotone(w, v, BoundedEnv(w, n - 1), OutcomeEnv(w));
  }

  lemma SucceedsAs(w: World, id: string, n: nat, r: Resolution)
    requires Bounded(w, id, n) == r && !Reference(r).Raised?
    ensures Succeeds(w, id, n)
  {
  }

  lemma EmptyChain(w: World, id: string)
    ensures DemandChain(w, {}, id)
  {
  }

  lemma OutcomeAtDepth(w: World, r: string, n: nat)
    requires !Outcome(w, r).Raised? ==> Succeeds(w, r, n)
    requires !OutcomeEnv(w)(r).Raised?
    ensures BoundedEnv(w, n)(r) == OutcomeEnv(w)(r)
  {
  }

  lemma BoundedEnvIsOutcome(w: World, r: string, n: nat)
    requires !BoundedEnv(w, n)(r).Raised?
    ensures OutcomeEnv(w)(r) == BoundedEnv(w, n)(r)
  {
    assert Succeeds(w, r, n);
  }

  /** Two records that differ at most in the text of an error. */
  predicate SameUpToErrorText(a: Resolution, b: Resolution) {
    a.(error := None) == b.(error := None) && (a.error.Some? <==> b.error.Some?)
  }

  /** Without cycles, variables in progress that do not lie below `id` do not matter. */
  lemma {:induction false} PlainIgnoresStrangers(w: World, id: string, visiting1: set<string>, visiting2: set<string>)
    requires Acyclic(w) && Stranger(w, id, visiting1) && Stranger(w, id, visiting2)
    ensures Plain(w, id, visiting1) == Plain(w, id, visiting2)
    decreases |w.vars.Keys - visiting1|, 1
  {
    if id in w.vars && w.vars[id].enabled {
      hide *;
      StrangerIsNotVisiting(w, id, visiting1);
      StrangerIsNotVisiting(w, id, visiting2);
      PlainUnfolds(w, id, visiting1);
      PlainUnfolds(w, id, visiting2);
      var v := w.vars[id];
      forall r | r in References(v)
        ensures PlainEnv(w, visiting1 + {id})(r) == PlainEnv(w, visiting2 + {id})(r)
      {
        StrangersBelow(w, id, r, visiting1);
        StrangersBelow(w, id, r, visiting2);
        EnvIgnoresStrangers(w, r, visiting1 + {id}, visiting2 + {id});
      }
      StepDependsOnReferences(w, v, PlainEnv(w, visiting1 + {id}), PlainEnv(w, visiting2 + {id}));
    }
  }

  lemma {:induction false} EnvIgnoresStrangers(w: World, id: string, visiting1: set<string>, visiting2: set<string>)
    requires Acyclic(w) && Stranger(w, id, visiting1) && Stranger(w, id, visiting2)
    ensures PlainEnv(w, visiting1)(id) == PlainEnv(w, visiting2)(id)
    decreases |w.vars.Keys - visiting1|, 2
  {
    PlainIgnoresStrangers(w, id, visiting1, visiting2);
  }

  /** Nothing in `visiting` is `id` or lies below it. */
  ghost predicate Stranger(w: World, id: string, visiting: set<string>) {
    forall a | a in visiting :: a != id && !Reaches(w, id, a)
  }

  lemma StrangerIsNotVisiting(w: World, id: string, visiting: set<string>)
    requires Stranger(w, id, visiting)
    ensures id !in visiting
  {
  }

  lemma StrangersBelow(w: World, id: string, r: string, visiting: set<string>)
    requires Acyclic(w) && Stranger(w, id, visiting)
    requires id in w.vars && r in References(w.vars[id])
    ensures Stranger(w, r, visiting + {id})
  {
    hide References;
    EdgeReaches(w, id, r);
    forall a | a in visiting + {id}
      ensures a != r && !Reaches(w, r, a)
    {
      if Reaches(w, r, a) { ReachesTransitive(w, id, r, a); }
    }
  }

  /** On acyclic references the meaning is the plain recursion over the reference graph,
      error texts included. */
  lemma AcyclicMeaningIsRecursive(w: World, id: string)
    requires Acyclic(w) && id in w.vars && w.vars[id].enabled
    ensures Plain(w, id, {}) == Step(w, w.vars[id], PlainEnv(w, {}))
  {
    hide *;
    PlainUnfolds(w, id, {});
    var v := w.vars[id];
    NoStrangers(w, id);
    forall r | r in References(v)
      ensures PlainEnv(w, {} + {id})(r) == PlainEnv(w, {})(r)
    {
      StrangersBelow(w, id, r, {});
      NoStrangers(w, r);
      EnvIgnoresStrangers(w, r, {} + {id}, {});
    }
    StepDependsOnReferences(w, v, PlainEnv(w, {} + {id}), PlainEnv(w, {}));
  }

  lemma NoStrangers(w: World, id: string)
    ensures Stranger(w, id, {})
  {
  }
}
