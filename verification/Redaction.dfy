/** What the trace of a variable shows. */
module Redaction {
  import opened Wrappers
  import opened Json
  import opened Expressions
  import opened Variables
  import opened Denotation
  import opened Resolver
  import opened Confidentiality

  const REDACTED: Json := Str("[REDACTED]")

  /** The message of an expression error. */
  function ArgumentText(op: string, shown: Shown, lib: Library): string {
    match shown
    case TypeOf(name) => "cannot convert " + name + Target(op)
    case Operand(value) => "cannot convert " + lib.repr(value) + Target(op)
    case HostMessage(text) => if op == "json_parse" then "json_parse failed: " + text else text
    case Nothing => op + Requirement(op)
  }

  function Target(op: string): string {
    if op == "to_number" then " to a number" else if op == "to_boolean" then " to a boolean" else " to a string"
  }

  function Requirement(op: string): string {
    if op == "to_number" then " requires a numeric value"
    else if op == "to_string" then " requires a non-missing value"
    else if op == "json_parse" then " requires a string"
    else if op == "length" then " requires a string, list, or object"
    else " requires non-missing string arguments"
  }

  function Text(e: Error, lib: Library): string {
    match e
    case UnknownVariable(id) => "unknown variable " + id
    case VariableCycle => "computed variable cycle"
    case WrongType(expected) => "resolved value is not of type " + expected
    case BadArgument(op, shown) => ArgumentText(op, shown, lib)
    case Unresolved(name, cause) =>
      "variable " + lib.repr(Some(Str(name))) + " could not be resolved: "
      + (match cause case Some(inner) => Text(inner, lib) case None => "disabled")
  }

  function ErrorText(r: Resolution, lib: Library): Option<string> {
    match r.error case Some(e) => Some(Text(e, lib)) case None => None
  }

  datatype TraceRecord = TraceRecord(
    id: string, name: string, vtype: string, status: Status, value: Json, sensitive: bool, error: Option<string>)

  predicate HasValue(r: Resolution) { r.status.Resolved? || r.status.Default? }

  /** `to_trace_dict`. */
  function Trace(w: World, r: Resolution): TraceRecord {
    var vtype := if r.id in w.vars then TypeName(w.vars[r.id].vtype) else "unknown";
    TraceRecord(r.id, r.name, vtype, r.status, if r.sensitive && HasValue(r) then REDACTED else r.value, r.sensitive,
                ErrorText(r, w.lib))
  }

  lemma StepShape(w: World, v: VariableDef, env: Env)
    ensures var r := Step(w, v, env);
      r.id == v.id && r.name == v.name && r.sensitive == Tainted(w, v.id) && (!HasValue(r) ==> r.value == Null)
  {
    hide Tainted, Eval, ReadSource, TypeMatches;
  }

  lemma PlainShape(w: World, id: string)
    requires id in w.vars
    ensures var r, v := Plain(w, id, {}), w.vars[id];
      r.id == v.id && r.name == v.name && r.sensitive == Tainted(w, v.id) && (!HasValue(r) ==> r.value == Null)
  {
    if w.vars[id].enabled {
      hide *;
      PlainUnfolds(w, id, {});
      StepShape(w, w.vars[id], PlainEnv(w, {} + {id}));
    } else {
      hide Tainted, Step;
    }
  }

  lemma NoValueIsNull(w: World, id: string, r: Resolution)
    requires Known(w) && IsMeaning(w, id, r)
    ensures !HasValue(r) ==> r.value == Null
    ensures r.id == id && r.sensitive == Tainted(w, id)
    ensures r.name == if id in w.vars then w.vars[id].name else id
  {
    hide Tainted, Acyclic, Plain;
    if id in w.vars { PlainShape(w, id); } else { UnknownPlain(w, id); }
  }

  lemma UnknownPlain(w: World, id: string)
    requires id !in w.vars
    ensures Plain(w, id, {}) == UnknownRecord(id) && !Tainted(w, id)
  {
  }

  /** What two traces of one variable tell apart, if they were taken in worlds that differ only
      in secrets: of a sensitive variable the status, and of any the error message. */
  lemma TraceSameIff(w1: World, w2: World, id: string, r1: Resolution, r2: Resolution)
    requires DifferInSecrets(w1, w2) && Known(w1) && IsMeaning(w1, id, r1) && IsMeaning(w2, id, r2)
    ensures Trace(w1, r1) == Trace(w2, r2) <==>
      (r1.sensitive ==> r1.status == r2.status) && ErrorText(r1, w1.lib) == ErrorText(r2, w2.lib)
    ensures Acyclic(w1) && !r1.sensitive ==> Trace(w1, r1) == Trace(w2, r2)
  {
    StillKnown(w1, w2);
    TaintAlike(w1, w2, id);
    NoValueIsNull(w1, id, r1);
    NoValueIsNull(w2, id, r2);
    if id in w1.vars { SameShape(w1, w2, id); }
    if !r1.sensitive { InsensitiveRecordsUnchanged(w1, w2, id, r1, r2); }
    hide IsMeaning, Tainted, Acyclic, Plain, ErrorText, VariesInSecrets, TypeName;
  }

  lemma StillKnown(w1: World, w2: World)
    requires DifferInSecrets(w1, w2) && Known(w1)
    ensures Known(w2)
  {
    forall id | id in w2.vars
      ensures w2.vars[id].id == id
    {
      SameShape(w1, w2, id);
    }
  }

  ghost predicate AreMeanings(w: World, ids: seq<string>, rs: seq<Resolution>) {
    |rs| == |ids| && forall i | 0 <= i < |ids| :: IsMeaning(w, ids[i], rs[i])
  }

  function Traces(w: World, rs: seq<Resolution>): (ts: seq<TraceRecord>)
    ensures |ts| == |rs| && forall i | 0 <= i < |rs| :: ts[i] == Trace(w, rs[i])
  {
    seq(|rs|, i requires 0 <= i < |rs| => Trace(w, rs[i]))
  }

  /** The sensitive variable tells nothing: it has the status and the error message it has in
      the other world. */
  predicate TellsNothing(w1: World, w2: World, r1: Resolution, r2: Resolution) {
    r1.sensitive ==> r1.status == r2.status && ErrorText(r1, w1.lib) == ErrorText(r2, w2.lib)
  }

  /** The traces of a payload without reference cycles hide the secrets if and only if no
      sensitive variable's status or error message depends on them. */
  lemma TracesHideIff(w1: World, w2: World, ids: seq<string>, rs1: seq<Resolution>, rs2: seq<Resolution>)
    requires DifferInSecrets(w1, w2) && Known(w1) && Acyclic(w1)
    requires AreMeanings(w1, ids, rs1) && AreMeanings(w2, ids, rs2)
    ensures Traces(w1, rs1) == Traces(w2, rs2) <==>
      forall i | 0 <= i < |ids| :: TellsNothing(w1, w2, rs1[i], rs2[i])
  {
    hide DifferInSecrets, Acyclic, IsMeaning, Trace, ErrorText;
    forall i | 0 <= i < |ids|
      ensures Trace(w1, rs1[i]) == Trace(w2, rs2[i]) <==> TellsNothing(w1, w2, rs1[i], rs2[i])
    {
      TraceSameIff(w1, w2, ids[i], rs1[i], rs2[i]);
    }
    if forall i | 0 <= i < |ids| :: TellsNothing(w1, w2, rs1[i], rs2[i]) {
      assert Traces(w1, rs1) == Traces(w2, rs2);
    } else {
      var i :| 0 <= i < |ids| && !TellsNothing(w1, w2, rs1[i], rs2[i]);
      assert Traces(w1, rs1)[i] != Traces(w2, rs2)[i];
    }
  }

  /** The message shows no operand, directly or through a cause. */
  predicate Discreet(e: Error) {
    match e
    case BadArgument(_, shown) => shown.Nothing? || shown.TypeOf?
    case Unresolved(_, cause) => cause.Some? ==> Discreet(cause.value)
    case _ => true
  }

  predicate DiscreetRecord(r: Resolution) { r.error.Some? ==> Discreet(r.error.value) }

  predicate DiscreetValue(v: Value) { v.Raised? ==> Discreet(v.error) }

  /** The expression has none of the conversions that quote their operand. */
  predicate Quiet(e: Expr) {
    match e
    case Literal(_) => true
    case Variable(_) => true
    case Coalesce(args) => forall i | 0 <= i < |args| :: Quiet(args[i])
    case Concat(args) => forall i | 0 <= i < |args| :: Quiet(args[i])
    case Unary(op, arg) => (op.ToText? || op.Length?) && Quiet(arg)
  }

  lemma {:induction false} QuietIsDiscreet(e: Expr, env: Env, lib: Library)
    requires Quiet(e) && forall id | id in VariableIds(e) :: DiscreetValue(env(id))
    ensures DiscreetValue(Eval(e, env, lib))
    decreases e, 0
  {
    match e
    case Literal(_) =>
    case Variable(_) =>
    case Coalesce(args) => QuietArgsAreDiscreet(args, env, lib);
    case Concat(args) => QuietArgsAreDiscreet(args, env, lib);
    case Unary(_, arg) => QuietIsDiscreet(arg, env, lib);
  }

  lemma {:induction false} QuietArgsAreDiscreet(args: seq<Expr>, env: Env, lib: Library)
    requires (forall i | 0 <= i < |args| :: Quiet(args[i])) && forall id | id in ArgIds(args) :: DiscreetValue(env(id))
    ensures DiscreetValue(EvalCoalesce(args, env, lib)) && DiscreetValue(EvalConcat(args, env, lib))
    decreases args, 1
  {
    if args != [] {
      QuietIsDiscreet(args[0], env, lib);
      QuietArgsAreDiscreet(args[1..], env, lib);
    }
  }

  /** Only variables without such conversions are reached from `id`. */
  ghost predicate QuietFrom(w: World, id: string) {
    forall a | a in w.vars && w.vars[a].source.Computed? && (a == id || Reaches(w, id, a)) ::
      Quiet(w.vars[a].source.expr)
  }

  /** Then no error message of `id` quotes a value, on any payload: it tells at most that
      something is missing, or the type of a value. */
  lemma {:induction false} QuietTraceIsDiscreet(w: World, id: string, visiting: set<string>)
    requires QuietFrom(w, id)
    ensures DiscreetRecord(Plain(w, id, visiting))
    decreases |w.vars.Keys - visiting|
  {
    if id in w.vars && w.vars[id].enabled && id !in visiting {
      hide *;
      var v, env := w.vars[id], PlainEnv(w, visiting + {id});
      PlainUnfolds(w, id, visiting);
      forall r | r in References(v)
        ensures DiscreetValue(env(r))
      {
        QuietBelow(w, id, r);
        QuietTraceIsDiscreet(w, r, visiting + {id});
        ReferenceIsDiscreet(w, r, visiting + {id});
      }
      QuietStepIsDiscreet(w, id, env);
    } else {
      hide Tainted, Step;
    }
  }

  lemma ReferenceIsDiscreet(w: World, id: string, visiting: set<string>)
    requires DiscreetRecord(Plain(w, id, visiting))
    ensures DiscreetValue(PlainEnv(w, visiting)(id))
  {
    hide Plain;
  }

  lemma QuietStepIsDiscreet(w: World, id: string, env: Env)
    requires QuietFrom(w, id) && id in w.vars && forall r | r in References(w.vars[id]) :: DiscreetValue(env(r))
    ensures DiscreetRecord(Step(w, w.vars[id], env))
  {
    hide Quiet, Reaches, Tainted, Eval, ReadSource, TypeMatches;
    var v := w.vars[id];
    if v.source.Computed? {
      QuietIsDiscreet(v.source.expr, env, w.lib);
    } else {
      ReadDoesNotRaise(v, w.context);
    }
  }

  lemma ReadDoesNotRaise(v: VariableDef, context: Json)
    requires !v.source.Computed?
    ensures !ReadSource(v, context).Raised?
  {
  }

  lemma QuietBelow(w: World, id: string, r: string)
    requires QuietFrom(w, id) && id in w.vars && r in References(w.vars[id])
    ensures QuietFrom(w, r)
  {
    hide Quiet, Reaches;
    EdgeReaches(w, id, r);
    forall a | a in w.vars && w.vars[a].source.Computed? && (a == r || Reaches(w, r, a))
      ensures Quiet(w.vars[a].source.expr)
    {
      if a != r { ReachesTransitive(w, id, r, a); }
    }
  }

  /** A secret text, and a sensitive variable that converts it to a number. */
  function SecretVariables(secret: string): map<string, VariableDef> {
    map["s" := VariableDef("s", "s", StringType, Static, Str(secret), true, true),
        "n" := VariableDef("n", "n", NumberType, Computed(Unary(ToNumber, Variable("s"))), Null, true, true)]
  }

  /** The trace redacts the secret where it is read and shows it where it is converted. */
  lemma ConversionShowsSecret(secret: string, context: Json, lib: Library)
    requires lib.parseNumber(secret).None? && lib.numberMessage(secret).None?
    ensures var w := World(SecretVariables(secret), context, lib);
      && Trace(w, Plain(w, "s", {})).value == REDACTED && Trace(w, Plain(w, "n", {})).sensitive
      && Trace(w, Plain(w, "n", {})).error == Some("cannot convert " + lib.repr(Some(Str(secret))) + " to a number")
  {
    var w := World(SecretVariables(secret), context, lib);
    SecretResolved(w, secret, {});
    SecretResolved(w, secret, {} + {"n"});
    PlainUnfolds(w, "n", {});
    hide *;
    ResolvedIsSeen(w, "s", Str(secret), {} + {"n"});
    SecretIsConverted(w, secret, PlainEnv(w, {} + {"n"}));
    SecretTrace(w, Plain(w, "s", {}), Plain(w, "n", {}), secret);
  }

  lemma SecretResolved(w: World, secret: string, visiting: set<string>)
    requires w.vars == SecretVariables(secret) && "s" !in visiting
    ensures var r := Plain(w, "s", visiting); r.status == Resolved && r.value == Str(secret) && r.sensitive
  {
    PlainUnfolds(w, "s", visiting);
    hide Plain;
    SecretIsRead(w, secret, PlainEnv(w, visiting + {"s"}));
  }

  lemma ResolvedIsSeen(w: World, id: string, value: Json, visiting: set<string>)
    requires Plain(w, id, visiting).status == Resolved && Plain(w, id, visiting).value == value
    ensures PlainEnv(w, visiting)(id) == Got(value)
  {
    hide Plain;
  }

  lemma SecretTrace(w: World, read: Resolution, converted: Resolution, secret: string)
    requires read.status == Resolved && read.sensitive && converted.sensitive
    requires converted.error == Some(BadArgument("to_number", Operand(Some(Str(secret)))))
    ensures Trace(w, read).value == REDACTED && Trace(w, converted).sensitive
    ensures Trace(w, converted).error ==
      Some("cannot convert " + w.lib.repr(Some(Str(secret))) + " to a number")
  {
  }

  lemma FlaggedIsTainted(w: World, id: string)
    requires id in w.vars && w.vars[id].sensitive
    ensures Tainted(w, id)
  {
    hide Reaches;
  }

  lemma SecretIsRead(w: World, secret: string, env: Env)
    requires w.vars == SecretVariables(secret)
    ensures var r := Step(w, w.vars["s"], env); r.status == Resolved && r.value == Str(secret) && r.sensitive
  {
    FlaggedIsTainted(w, "s");
    hide Tainted;
  }

  lemma SecretIsConverted(w: World, secret: string, env: Env)
    requires w.vars == SecretVariables(secret) && env("s") == Got(Str(secret))
    requires w.lib.parseNumber(secret).None? && w.lib.numberMessage(secret).None?
    ensures var r := Step(w, w.vars["n"], env);
      r.sensitive && r.error == Some(BadArgument("to_number", Operand(Some(Str(secret)))))
  {
    FlaggedIsTainted(w, "n");
    hide Tainted;
  }

  /** The messages of conversions that quote their operand, or its type. */
  lemma QuotingMessages(lib: Library, v: Option<Json>, text: string)
    ensures Text(BadArgument("to_number", Operand(v)), lib) == "cannot convert " + lib.repr(v) + " to a number"
    ensures Text(BadArgument("to_boolean", Operand(v)), lib) == "cannot convert " + lib.repr(v) + " to a boolean"
    ensures Text(BadArgument("to_string", TypeOf(text)), lib) == "cannot convert " + text + " to a string"
    ensures Text(BadArgument("json_parse", HostMessage(text)), lib) == "json_parse failed: " + text
  {
  }

  /** The others. */
  lemma PlainMessages(lib: Library)
    ensures Text(BadArgument("to_number", Nothing), lib) == "to_number" + " requires a numeric value"
    ensures Text(BadArgument("to_string", Nothing), lib) == "to_string" + " requires a non-missing value"
    ensures Text(BadArgument("json_parse", Nothing), lib) == "json_parse" + " requires a string"
    ensures Text(BadArgument("length", Nothing), lib) == "length" + " requires a string, list, or object"
    ensures Text(BadArgument("concat", Nothing), lib) == "concat" + " requires non-missing string arguments"
  {
  }
}
