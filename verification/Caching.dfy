/** What the memoising resolver computes from the cache it starts with, as a function. */
module Caching {
  import opened Wrappers
  import opened Json
  import opened Expressions
  import opened Variables

  type Cache = map<string, Resolution>

  /** `resolve`: the record and the cache afterwards. */
  ghost function RunResolve(w: World, id: string, cache: Cache, visiting: set<string>): (Resolution, Cache)
    decreases |w.vars.Keys - visiting|, 0
  {
    if id in cache then (cache[id], cache)
    else if id !in w.vars then (UnknownRecord(id), cache[id := UnknownRecord(id)])
    else if !w.vars[id].enabled then
      var r := Record(w, w.vars[id], Disabled, Null, None);
      (r, cache[id := r])
    else if id in visiting then (CycleRecord(w.vars[id]), cache[id := CycleRecord(w.vars[id])])
    else
      assert w.vars.Keys - (visiting + {id}) < w.vars.Keys - visiting by { assert id in w.vars.Keys - visiting; }
      SubsetSmaller(w.vars.Keys - (visiting + {id}), w.vars.Keys - visiting);
      var (r, after) := RunValue(w, w.vars[id], cache, visiting + {id});
      (r, after[id := r])
  }

  /** `_resolve_value`. */
  ghost function RunValue(w: World, v: VariableDef, cache: Cache, visiting: set<string>): (Resolution, Cache)
    decreases |w.vars.Keys - visiting|, 3
  {
    var (found, after) :=
      if v.source.Computed? then RunEval(w, v.source.expr, cache, visiting) else (ReadSource(v, w.context), cache);
    (Finish(w, v, found), after)
  }

  /** `evaluate_expression` with the resolver behind its callback. */
  ghost function RunEval(w: World, e: Expr, cache: Cache, visiting: set<string>): (Value, Cache)
    decreases |w.vars.Keys - visiting|, 2, e, 0
  {
    match e
    case Literal(value) => (Got(value), cache)
    case Variable(id) =>
      var (r, after) := RunResolve(w, id, cache, visiting);
      (Reference(r), after)
    case Coalesce(args) => RunCoalesce(w, args, cache, visiting)
    case Concat(args) => RunConcat(w, args, cache, visiting)
    case Unary(op, arg) =>
      var (inner, after) := RunEval(w, arg, cache, visiting);
      (ApplyUnary(op, inner, w.lib), after)
  }

  ghost function RunCoalesce(w: World, args: seq<Expr>, cache: Cache, visiting: set<string>): (Value, Cache)
    decreases |w.vars.Keys - visiting|, 2, args, 1
  {
    if args == [] then (Missing, cache)
    else
      var (v, after) := RunEval(w, args[0], cache, visiting);
      if Skipped(v) then RunCoalesce(w, args[1..], after, visiting) else (v, after)
  }

  ghost function RunConcat(w: World, args: seq<Expr>, cache: Cache, visiting: set<string>): (Value, Cache)
    decreases |w.vars.Keys - visiting|, 2, args, 1
  {
    if args == [] then (Got(Str("")), cache)
    else
      var (v, after) := RunEval(w, args[0], cache, visiting);
      if v.Raised? then (v, after)
      else
        var (rest, last) := RunConcat(w, args[1..], after, visiting);
        (JoinHead(v, rest), last)
  }

  /** Once a coalesce has its value, what follows is not resolved: neither the value nor the
      cache depends on it. */
  lemma {:induction false} LaterArgumentsUntouched(w: World, args: seq<Expr>, more: seq<Expr>, cache: Cache,
                                                   visiting: set<string>)
    requires !Skipped(RunCoalesce(w, args, cache, visiting).0)
    ensures RunCoalesce(w, args + more, cache, visiting) == RunCoalesce(w, args, cache, visiting)
    decreases args
  {
    hide RunEval;
    var (v, after) := RunEval(w, args[0], cache, visiting);
    assert (args + more)[0] == args[0] && (args + more)[1..] == args[1..] + more;
    if Skipped(v) { LaterArgumentsUntouched(w, args[1..], more, after, visiting); }
  }

  lemma CoalesceFrom(w: World, args: seq<Expr>, i: nat, cache: Cache, visiting: set<string>)
    requires i < |args|
    ensures var (v, after) := RunEval(w, args[i], cache, visiting);
      RunCoalesce(w, args[i..], cache, visiting) ==
        if Skipped(v) then RunCoalesce(w, args[i + 1..], after, visiting) else (v, after)
  {
    hide RunEval;
    assert args[i..][0] == args[i] && args[i..][1..] == args[i + 1..];
  }

  /** `rest` with the values joined in front of it. */
  function JoinOnto(values: seq<Value>, rest: Value): Value {
    if values == [] then rest
    else if values[0].Raised? then values[0]
    else JoinHead(values[0], JoinOnto(values[1..], rest))
  }

  lemma {:induction false} JoinOntoOneMore(values: seq<Value>, v: Value, rest: Value)
    requires !v.Raised?
    ensures JoinOnto(values + [v], rest) == JoinOnto(values, JoinHead(v, rest))
  {
    if values == [] {
      assert [v][1..] == [];
      assert values + [v] == [v];
    } else {
      assert (values + [v])[0] == values[0] && (values + [v])[1..] == values[1..] + [v];
      JoinOntoOneMore(values[1..], v, rest);
    }
  }

  lemma {:induction false} JoinOntoRaised(values: seq<Value>, e: Value)
    requires e.Raised? && forall i | 0 <= i < |values| :: !values[i].Raised?
    ensures JoinOnto(values, e) == e
  {
    if values != [] { JoinOntoRaised(values[1..], e); }
  }

  /** A concat's run after its first `i` arguments have been evaluated to `values`. */
  lemma ConcatFrom(w: World, args: seq<Expr>, i: nat, cache: Cache, visiting: set<string>, values: seq<Value>)
    requires i < |args| && forall j | 0 <= j < |values| :: !values[j].Raised?
    ensures var (v, after) := RunEval(w, args[i], cache, visiting);
      var now := RunConcat(w, args[i..], cache, visiting);
      (JoinOnto(values, now.0), now.1) ==
        if v.Raised? then (v, after)
        else
          var next := RunConcat(w, args[i + 1..], after, visiting);
          (JoinOnto(values + [v], next.0), next.1)
  {
    hide RunEval, JoinOnto;
    assert args[i..][0] == args[i] && args[i..][1..] == args[i + 1..];
    var (v, after) := RunEval(w, args[i], cache, visiting);
    if v.Raised? {
      JoinOntoRaised(values, v);
    } else {
      JoinOntoOneMore(values, v, RunConcat(w, args[i + 1..], after, visiting).0);
    }
  }
}
