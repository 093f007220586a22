/** What the taint flag protects, and what the error text of a cycle reveals. */
module Confidentiality {
  import opened Wrappers
  import opened Json
  import opened Expressions
  import opened Variables
  import opened Denotation
  import opened Resolver

  /** Two worlds that differ only in secrets: in what directly sensitive variables read, be it
      from the context, from themselves as constants, or as their fallback defaults. */
  ghost predicate DifferInSecrets(w1: World, w2: World) {
    && w1.vars.Keys == w2.vars.Keys && w1.lib == w2.lib
    && forall id | id in w1.vars :: VariesInSecrets(w1, w2, w1.vars[id], w2.vars[id])
  }

  /** The variable is the same up to its default if it is directly sensitive, and otherwise is
      the same and reads the same. */
  ghost predicate VariesInSecrets(w1: World, w2: World, v1: VariableDef, v2: VariableDef) {
    && v2 == v1.(default := v2.default)
    && (!DirectlySensitive(v1, w1.lib) ==>
          v1 == v2 && (!v1.source.Computed? ==> ReadSource(v1, w1.context) == ReadSource(v1, w2.context)))
  }

  /** What does not depend on the secrets. */
  lemma SameShape(w1: World, w2: World, id: string)
    requires DifferInSecrets(w1, w2) && id in w1.vars
    ensures id in w2.vars && w2.vars[id] == w1.vars[id].(default := w2.vars[id].default)
    ensures References(w1.vars[id]) == References(w2.vars[id])
    ensures DirectlySensitive(w1.vars[id], w1.lib) == DirectlySensitive(w2.vars[id], w2.lib)
    ensures !DirectlySensitive(w1.vars[id], w1.lib) ==> w1.vars[id] == w2.vars[id]
  {
    hide ReadSource, VariableIds;
    assert VariesInSecrets(w1, w2, w1.vars[id], w2.vars[id]);
  }

  lemma DifferSymmetric(w1: World, w2: World)
    requires DifferInSecrets(w1, w2)
    ensures DifferInSecrets(w2, w1)
  {
    forall id | id in w2.vars
      ensures VariesInSecrets(w2, w1, w2.vars[id], w1.vars[id])
    {
      SameShape(w1, w2, id);
      assert VariesInSecrets(w1, w2, w1.vars[id], w2.vars[id]);
    }
  }

  lemma ReachesSame(w1: World, w2: World, a: string, b: string)
    requires DifferInSecrets(w1, w2) && Reaches(w1, a, b)
    ensures Reaches(w2, a, b)
  {
    hide DifferInSecrets, References;
    var path :| |path| > 1 && PathFromTo(w1, path, a, b);
    forall i | 0 <= i < |path| - 1
      ensures Edge(w2, path[i], path[i + 1])
    {
      assert Edge(w1, path[i], path[i + 1]);
      SameShape(w1, w2, path[i]);
    }
    assert PathFromTo(w2, path, a, b);
  }

  lemma TaintSame(w1: World, w2: World, id: string)
    requires DifferInSecrets(w1, w2) && Tainted(w1, id)
    ensures Tainted(w2, id)
  {
    hide DifferInSecrets, DirectlySensitive, Reaches;
    SameShape(w1, w2, id);
    if !DirectlySensitive(w1.vars[id], w1.lib) {
      var b :| b in w1.vars && Reaches(w1, id, b) && DirectlySensitive(w1.vars[b], w1.lib);
      ReachesSame(w1, w2, id, b);
      SameShape(w1, w2, b);
    }
  }

  lemma TaintAlike(w1: World, w2: World, id: string)
    requires DifferInSecrets(w1, w2)
    ensures Tainted(w1, id) == Tainted(w2, id)
  {
    hide DifferInSecrets, Tainted;
    DifferSymmetric(w1, w2);
    if Tainted(w1, id) { TaintSame(w1, w2, id); }
    if Tainted(w2, id) { TaintSame(w2, w1, id); }
  }

  /** A variable that is not tainted is the same in both worlds, and reads the same. */
  lemma UntaintedSame(w1: World, w2: World, id: string)
    requires DifferInSecrets(w1, w2) && id in w1.vars && !Tainted(w1, id)
    ensures id in w2.vars && w1.vars[id] == w2.vars[id] && w1.lib == w2.lib
    ensures !w1.vars[id].source.Computed? ==> ReadSource(w1.vars[id], w1.context) == ReadSource(w2.vars[id], w2.context)
  {
    hide ReadSource, DirectlySensitive, Reaches;
    assert VariesInSecrets(w1, w2, w1.vars[id], w2.vars[id]);
  }

  /** Changing what directly sensitive variables read, their own constants and defaults
      included, changes nothing about the meaning of a variable that is not flagged sensitive,
      on any payload. */
  lemma {:induction false} InsensitiveMeaningUnchanged(w1: World, w2: World, id: string, visiting: set<string>)
    requires DifferInSecrets(w1, w2) && Known(w1) && !Tainted(w1, id)
    ensures Plain(w1, id, visiting) == Plain(w2, id, visiting)
    decreases |w1.vars.Keys - visiting|, 0
  {
    hide *;
    TaintAlike(w1, w2, id);
    if id in w1.vars && w1.vars[id].enabled && id !in visiting {
      UntaintedSame(w1, w2, id);
      PlainUnfolds(w1, id, visiting);
      PlainUnfolds(w2, id, visiting);
      var deeper := visiting + {id};
      forall r | r in References(w1.vars[id])
        ensures PlainEnv(w1, deeper)(r) == PlainEnv(w2, deeper)(r)
      {
        if Tainted(w1, r) { Resolver.TaintFlowsUp(w1, id, r); }
        InsensitiveReferenceUnchanged(w1, w2, r, deeper);
      }
      InsensitiveStepUnchanged(w1, w2, id, PlainEnv(w1, deeper), PlainEnv(w2, deeper));
    } else {
      InsensitiveShortRecord(w1, w2, id, visiting);
    }
  }

  lemma InsensitiveShortRecord(w1: World, w2: World, id: string, visiting: set<string>)
    requires DifferInSecrets(w1, w2) && Known(w1) && !Tainted(w1, id) && !Tainted(w2, id)
    requires !(id in w1.vars && w1.vars[id].enabled && id !in visiting)
    ensures Plain(w1, id, visiting) == Plain(w2, id, visiting)
  {
    if id in w1.vars { UntaintedSame(w1, w2, id); }
    hide Tainted;
  }

  lemma {:induction false} InsensitiveReferenceUnchanged(w1: World, w2: World, id: string, visiting: set<string>)
    requires DifferInSecrets(w1, w2) && Known(w1) && !Tainted(w1, id)
    ensures PlainEnv(w1, visiting)(id) == PlainEnv(w2, visiting)(id)
    decreases |w1.vars.Keys - visiting|, 1
  {
    InsensitiveMeaningUnchanged(w1, w2, id, visiting);
  }

  lemma InsensitiveStepUnchanged(w1: World, w2: World, id: string, env1: Env, env2: Env)
    requires DifferInSecrets(w1, w2) && Known(w1) && id in w1.vars && !Tainted(w1, id) && !Tainted(w2, id)
    requires forall r | r in References(w1.vars[id]) :: env1(r) == env2(r)
    ensures id in w2.vars && Step(w1, w1.vars[id], env1) == Step(w2, w2.vars[id], env2)
  {
    UntaintedSame(w1, w2, id);
    hide DifferInSecrets, Tainted, ReadSource;
    var v := w1.vars[id];
    assert v.id == id;
    if v.source.Computed? { EvalDependsOnIds(v.source.expr, env1, env2, w1.lib); }
  }

  /** The same for two runs of the resolver, whatever their caches held: a record that is
      not flagged sensitive carries the same status and value in both. */
  lemma InsensitiveRecordsUnchanged(w1: World, w2: World, id: string, r1: Resolution, r2: Resolution)
    requires DifferInSecrets(w1, w2) && Known(w1)
    requires IsMeaning(w1, id, r1) && IsMeaning(w2, id, r2) && !r1.sensitive
    ensures SameUpToErrorText(r1, r2) && (Acyclic(w1) ==> r1 == r2)
  {
    UnflaggedIsUntainted(w1, id);
    InsensitiveMeaningUnchanged(w1, w2, id, {});
    if Acyclic(w1) { AcyclicAlike(w1, w2); }
    hide DifferInSecrets, Plain, Acyclic;
  }

  lemma AcyclicAlike(w1: World, w2: World)
    requires DifferInSecrets(w1, w2) && Acyclic(w1)
    ensures Acyclic(w2)
  {
    DifferSymmetric(w1, w2);
    forall a
      ensures !Reaches(w2, a, a)
    {
      if Reaches(w2, a, a) { ReachesSame(w2, w1, a, a); }
    }
  }

  lemma UnflaggedIsUntainted(w: World, id: string)
    requires Known(w) && !Plain(w, id, {}).sensitive
    ensures !Tainted(w, id)
  {
    if id in w.vars && w.vars[id].enabled {
      hide *;
      PlainUnfolds(w, id, {});
      StepCarriesTaint(w, w.vars[id], PlainEnv(w, {} + {id}));
      KnownId(w, id);
    }
  }

  lemma KnownId(w: World, id: string)
    requires Known(w) && id in w.vars
    ensures w.vars[id].id == id
  {
  }

  lemma StepCarriesTaint(w: World, v: VariableDef, env: Env)
    ensures Step(w, v, env).sensitive == Tainted(w, v.id)
  {
    hide Tainted, Eval, ReadSource, TypeMatches;
  }

  /** A string variable computed from the variable `r`. */
  function Alias(id: string, r: string): VariableDef {
    VariableDef(id, id, StringType, Computed(Variable(r)), Null, false, true)
  }

  const CYCLE := [Alias("a", "b"), Alias("b", "a")]

  /** On a cycle the error text, and only it, depends on the order of resolution: with `a`
      and `b` referring to each other, a resolver asked for `a` first answers differently for
      `a` than one asked for `b` before. */
  method CycleTextDependsOnOrder(context: Json, lib: Library) returns (asked: Resolution, askedLater: Resolution)
    ensures asked.error == Some(Unresolved("b", Some(Unresolved("a", Some(VariableCycle)))))
    ensures askedLater.error == Some(Unresolved("b", Some(VariableCycle)))
    ensures SameUpToErrorText(asked, askedLater)
  {
    CycleWorld(context, lib);
    ghost var w := World(ById(CYCLE), context, lib);
    CycleRun(w, "a", "b");
    CycleRun(w, "b", "a");
    hide *;
    var first := new VariableResolver(CYCLE, context, lib);
    NothingInProgress(w, "a");
    NothingInProgress(w, "b");
    asked := first.Resolve("a");
    var second := new VariableResolver(CYCLE, context, lib);
    var other := second.Resolve("b");
    CachedRun(w, "a", second.cache);
    askedLater := second.Resolve("a");
    BothServe(w, "a", asked, askedLater);
  }

  lemma CycleWorld(context: Json, lib: Library)
    ensures var w := World(ById(CYCLE), context, lib);
      "a" in w.vars && "b" in w.vars && w.vars["a"] == Alias("a", "b") && w.vars["b"] == Alias("b", "a")
  {
    assert CYCLE[..2][..1] == [CYCLE[0]] && CYCLE[..1][..0] == [];
    assert CYCLE == CYCLE[..2] && CYCLE[0].id == "a" && CYCLE[1].id == "b";
  }

  lemma CachedRun(w: World, id: string, cache: Caching.Cache)
    requires id in cache
    ensures Caching.RunResolve(w, id, cache, {}) == (cache[id], cache)
  {
  }

  lemma BothServe(w: World, id: string, r1: Resolution, r2: Resolution)
    requires Serves(w, id, r1, {}) && Serves(w, id, r2, {})
    ensures SameUpToErrorText(r1, r2)
  {
    hide Plain, Outcome, Acyclic, Agree;
  }

  /** The run from `x` through `y` back to `x`. */
  lemma CycleRun(w: World, x: string, y: string)
    requires x != y && x in w.vars && y in w.vars && w.vars[x] == Alias(x, y) && w.vars[y] == Alias(y, x)
    ensures var (r, cache) := Caching.RunResolve(w, x, map[], {});
      && r.error == Some(Unresolved(y, Some(Unresolved(x, Some(VariableCycle)))))
      && y in cache && cache[y].error == Some(Unresolved(x, Some(VariableCycle)))
  {
    var inner := CycleRecord(w.vars[x]);
    assert Caching.RunResolve(w, x, map[], {x, y}) == (inner, map[x := inner]);
    assert {} + {x} == {x} && {x} + {y} == {x, y};
    hide *;
    AliasRun(w, y, x, map[], {x});
    AliasRun(w, x, y, map[], {});
    InnerRecord(w, x);
  }

  lemma InnerRecord(w: World, x: string)
    requires x in w.vars
    ensures var r := CycleRecord(w.vars[x]);
      r.status == Failed && r.name == w.vars[x].name && r.error == Some(VariableCycle)
  {
  }

  lemma AliasRun(w: World, id: string, r: string, cache: Caching.Cache, visiting: set<string>)
    requires id in w.vars && w.vars[id] == Alias(id, r) && id !in cache && id !in visiting
    requires Caching.RunResolve(w, r, cache, visiting + {id}).0.status == Failed
    ensures var (inner, after) := Caching.RunResolve(w, r, cache, visiting + {id});
      var (record, last) := Caching.RunResolve(w, id, cache, visiting);
      && record.status == Failed && record.name == id && record.error == Some(Unresolved(inner.name, inner.error))
      && last == after[id := record]
  {
    hide Tainted, Caching.RunResolve;
    AliasUnfolds(w, id, r, cache, visiting);
  }

  lemma AliasUnfolds(w: World, id: string, r: string, cache: Caching.Cache, visiting: set<string>)
    requires id in w.vars && w.vars[id] == Alias(id, r) && id !in cache && id !in visiting
    ensures var (inner, after) := Caching.RunResolve(w, r, cache, visiting + {id});
      var record := Finish(w, w.vars[id], Reference(inner));
      Caching.RunResolve(w, id, cache, visiting) == (record, after[id := record])
  {
    hide Finish, Reference, Tainted;
    var deeper := visiting + {id};
    var (inner, after) := Caching.RunResolve(w, r, cache, deeper);
    assert Caching.RunEval(w, Variable(r), cache, deeper) == (Reference(inner), after);
    assert Caching.RunValue(w, w.vars[id], cache, deeper) == (Finish(w, w.vars[id], Reference(inner)), after);
  }
}
