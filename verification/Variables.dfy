/** Variables of a payload, what they read, and what they mean.  `Plain` resolves without a
    cache; `Bounded` cuts that off at a depth, the measure behind the cyclic case. */
module Variables {
  import opened Wrappers
  import opened Json
  import opened Expressions
  import Conditions

  datatype VariableType = StringType | NumberType | BooleanType | JsonType | ListType | NullType

  /** The source of a variable together with its `source_ref`. */
  datatype Source =
    | Static
    | Page(key: string)
    | Namespace(name: string, path: string)
    | DomText(selector: string)
    | DomAttribute(selector: string, attribute: Option<string>)
    | Computed(expr: Expr)

  datatype VariableDef = VariableDef(
    id: string, name: string, vtype: VariableType, source: Source,
    default: Json, sensitive: bool, enabled: bool)

  datatype Status = Resolved | Default | Absent | Disabled | Failed

  datatype Resolution = Resolution(
    id: string, name: string, status: Status, value: Json, error: Option<Error>, sensitive: bool)

  /** A payload's variables by id, the event context and the host library. */
  datatype World = World(vars: map<string, VariableDef>, context: Json, lib: Library)

  function ById(variables: seq<VariableDef>): (m: map<string, VariableDef>)
    ensures forall id :: id in m <==> exists i | 0 <= i < |variables| :: variables[i].id == id
    ensures forall id | id in m :: m[id] in variables && m[id].id == id
  {
    if variables == [] then map[]
    else
      var last := variables[|variables| - 1];
      assert variables == variables[..|variables| - 1] + [last];
      ById(variables[..|variables| - 1])[last.id := last]
  }

  predicate TypeMatches(value: Json, t: VariableType) {
    match t
    case JsonType => true
    case NullType => value.Null?
    case StringType => value.Str?
    case NumberType => IsNumber(value)
    case BooleanType => value.Bool?
    case ListType => value.List?
  }

  function TypeName(t: VariableType): string {
    match t
    case JsonType => "json"
    case NullType => "null"
    case StringType => "string"
    case NumberType => "number"
    case BooleanType => "boolean"
    case ListType => "list"
  }

  function Field(j: Json, key: string): Option<Json> {
    if j.Obj? && key in j.fields then Some(j.fields[key]) else None
  }

  function OrMissing(v: Option<Json>): Value {
    match v case Some(j) => Got(j) case None => Missing
  }

  const TEXT_KEYS: seq<string> := ["text", "textContent", "innerText"]

  function FirstField(node: Json, keys: seq<string>): (v: Value)
    ensures !v.Raised?
  {
    if keys == [] then Missing
    else if Field(node, keys[0]).Some? then OrMissing(Field(node, keys[0]))
    else FirstField(node, keys[1..])
  }

  function DomValue(context: Json, source: Source): Value
    requires source.DomText? || source.DomAttribute?
  {
    var node := match Field(context, "dom") case Some(dom) => Field(dom, source.selector) case None => None;
    match node
    case None => Missing
    case Some(Null) => Missing
    case Some(Obj(fields)) =>
      if source.DomText? then FirstField(Obj(fields), TEXT_KEYS)
      else
        var attribute := match source.attribute case Some(a) => a case None => "text";
        if attribute in TEXT_KEYS then OrMissing(Field(Obj(fields), attribute))
        else (match Field(Obj(fields), "attributes")
              case Some(attributes) => OrMissing(Field(attributes, attribute))
              case None => Missing)
    case Some(scalar) => Got(scalar)
  }

  /** What a variable that is not computed reads from the context. */
  function ReadSource(v: VariableDef, context: Json): Value
    requires !v.source.Computed?
  {
    match v.source
    case Static => Got(v.default)
    case Page(key) => (match Field(context, "page") case Some(page) => OrMissing(Field(page, key)) case None => Missing)
    case Namespace(name, path) =>
      OrMissing(match Field(context, name) case Some(ns) => Conditions.ResolvePath(ns, path) case None => None)
    case DomText(_) => DomValue(context, v.source)
    case DomAttribute(_, _) => DomValue(context, v.source)
  }

  function LastSegment(path: string): (s: string) {
    var parts := Conditions.Split(path);
    parts[|parts| - 1]
  }

  /** `_directly_sensitive_ref`. */
  predicate DirectlySensitive(v: VariableDef, lib: Library) {
    v.sensitive ||
    match v.source
    case Namespace(_, path) => lib.isSensitiveKey(LastSegment(path))
    case DomText(selector) => lib.isSensitiveKey(selector)
    case DomAttribute(_, attribute) => attribute.Some? && lib.isSensitiveKey(attribute.value)
    case _ => false
  }

  function References(v: VariableDef): seq<string> {
    if v.source.Computed? then VariableIds(v.source.expr) else []
  }

  /** `a`'s expression mentions `b`. */
  predicate Edge(w: World, a: string, b: string) {
    a in w.vars && b in References(w.vars[a])
  }

  ghost predicate IsPath(w: World, path: seq<string>) {
    |path| > 0 && forall i | 0 <= i < |path| - 1 :: Edge(w, path[i], path[i + 1])
  }

  ghost predicate PathFromTo(w: World, path: seq<string>, a: string, b: string) {
    IsPath(w, path) && path[0] == a && path[|path| - 1] == b
  }

  /** `b` is reached from `a` by following at least one reference. */
  ghost predicate Reaches(w: World, a: string, b: string) {
    exists path :: |path| > 1 && PathFromTo(w, path, a, b)
  }

  /** No variable refers back to itself, however indirectly. */
  ghost predicate Acyclic(w: World) {
    forall a :: !Reaches(w, a, a)
  }

  lemma EdgeReaches(w: World, a: string, b: string)
    requires Edge(w, a, b)
    ensures Reaches(w, a, b)
  {
    assert PathFromTo(w, [a, b], a, b);
  }

  lemma ReachesTransitive(w: World, a: string, b: string, c: string)
    requires Reaches(w, a, b) && Reaches(w, b, c)
    ensures Reaches(w, a, c)
  {
    var p :| |p| > 1 && PathFromTo(w, p, a, b);
    var q :| |q| > 1 && PathFromTo(w, q, b, c);
    var r := p + q[1..];
    forall i | 0 <= i < |r| - 1
      ensures Edge(w, r[i], r[i + 1])
    {
      if i < |p| - 1 {
        assert Edge(w, p[i], p[i + 1]);
      } else {
        assert Edge(w, q[i - (|p| - 1)], q[i - (|p| - 1) + 1]);
      }
    }
    assert PathFromTo(w, r, a, c);
  }

  /** A directly sensitive variable is `id` itself or is reached from it. */
  ghost predicate Tainted(w: World, id: string) {
    id in w.vars &&
    (DirectlySensitive(w.vars[id], w.lib) ||
     exists b :: b in w.vars && Reaches(w, id, b) && DirectlySensitive(w.vars[b], w.lib))
  }

  ghost function Record(w: World, v: VariableDef, status: Status, value: Json, error: Option<Error>): Resolution {
    Resolution(v.id, v.name, status, value, error, Tainted(w, v.id))
  }

  function UnknownRecord(id: string): Resolution {
    Resolution(id, id, Failed, Null, Some(UnknownVariable(id)), false)
  }

  function CycleRecord(v: VariableDef): Resolution {
    Resolution(v.id, v.name, Failed, Null, Some(VariableCycle), v.sensitive)
  }

  /** The record of a variable whose source yielded `found`. */
  ghost function Finish(w: World, v: VariableDef, found: Value): Resolution {
    match found
    case Raised(e) => Record(w, v, Failed, Null, Some(e))
    case Missing =>
      if v.default.Null? then Record(w, v, Absent, Null, None)
      else if TypeMatches(v.default, v.vtype) then Record(w, v, Default, v.default, None)
      else Record(w, v, Failed, Null, Some(WrongType(TypeName(v.vtype))))
    case Got(value) =>
      if TypeMatches(value, v.vtype) then Record(w, v, Resolved, value, None)
      else Record(w, v, Failed, Null, Some(WrongType(TypeName(v.vtype))))
  }

  /** What an expression sees of a referenced variable. */
  function Reference(r: Resolution): Value {
    if r.status.Resolved? || r.status.Default? then Got(r.value)
    else if r.status.Absent? then Missing
    else Raised(Unresolved(r.name, r.error))
  }

  ghost function Step(w: World, v: VariableDef, env: Env): Resolution {
    Finish(w, v, if v.source.Computed? then Eval(v.source.expr, env, w.lib) else ReadSource(v, w.context))
  }

  ghost predicate Known(w: World) {
    forall id | id in w.vars :: w.vars[id].id == id
  }

  /** The meaning of a variable: resolve it from scratch, with no cache, while the
      variables in `visiting` are being resolved. */
  ghost function Plain(w: World, id: string, visiting: set<string>): Resolution
    decreases |w.vars.Keys - visiting|
  {
    if id !in w.vars then UnknownRecord(id)
    else if !w.vars[id].enabled then Record(w, w.vars[id], Disabled, Null, None)
    else if id in visiting then CycleRecord(w.vars[id])
    else
      assert w.vars.Keys - (visiting + {id}) < w.vars.Keys - visiting by { assert id in w.vars.Keys - visiting; }
      SubsetSmaller(w.vars.Keys - (visiting + {id}), w.vars.Keys - visiting);
      Step(w, w.vars[id], r => Reference(Plain(w, r, visiting + {id})))
  }

  lemma SubsetSmaller<T>(a: set<T>, b: set<T>)
    requires a < b
    ensures |a| < |b|
  {
    assert b == a + (b - a);
    assert b - a != {};
  }

  /** The meaning with at most `n` nested references. */
  ghost function Bounded(w: World, id: string, n: nat): Resolution
    decreases n
  {
    if id !in w.vars then UnknownRecord(id)
    else if !w.vars[id].enabled then Record(w, w.vars[id], Disabled, Null, None)
    else if n == 0 then CycleRecord(w.vars[id])
    else Step(w, w.vars[id], r => Reference(Bounded(w, r, n - 1)))
  }

  ghost function BoundedEnv(w: World, n: nat): Env {
    r => Reference(Bounded(w, r, n))
  }

  /** `id` has a value, or is plainly missing, within `n` nested references. */
  ghost predicate Succeeds(w: World, id: string, n: nat) {
    !Reference(Bounded(w, id, n)).Raised?
  }

  lemma StepMonotone(w: World, v: VariableDef, weak: Env, strong: Env)
    requires forall r | r in References(v) && !weak(r).Raised? :: strong(r) == weak(r)
    ensures !Reference(Step(w, v, weak)).Raised? ==> Step(w, v, strong) == Step(w, v, weak)
  {
    if v.source.Computed? {
      EvalMonotone(v.source.expr, weak, strong, w.lib);
    }
  }

  lemma BoundedUnfolds(w: World, id: string, n: nat)
    requires id in w.vars && w.vars[id].enabled && n > 0
    ensures Bounded(w, id, n) == Step(w, w.vars[id], BoundedEnv(w, n - 1))
  {
  }

  lemma BoundedSuccessUnfolds(w: World, id: string, n: nat)
    requires Succeeds(w, id, n)
    ensures id in w.vars && w.vars[id].enabled && n > 0
    ensures Bounded(w, id, n) == Step(w, w.vars[id], BoundedEnv(w, n - 1))
  {
  }

  lemma {:induction false} BoundedMonotone(w: World, id: string, n: nat, m: nat)
    requires n <= m && Succeeds(w, id, n)
    ensures Bounded(w, id, m) == Bounded(w, id, n)
    decreases n, 0
  {
    hide *;
    BoundedSuccessUnfolds(w, id, n);
    BoundedUnfolds(w, id, m);
    var v := w.vars[id];
    forall r | r in References(v) && !BoundedEnv(w, n - 1)(r).Raised?
      ensures BoundedEnv(w, m - 1)(r) == BoundedEnv(w, n - 1)(r)
    {
      BoundedEnvMonotone(w, r, n - 1, m - 1);
    }
    BoundedSuccessSource(w, id, n);
    StepMonotone(w, v, BoundedEnv(w, n - 1), BoundedEnv(w, m - 1));
  }

  lemma BoundedSuccessSource(w: World, id: string, n: nat)
    requires Succeeds(w, id, n)
    ensures !Reference(Bounded(w, id, n)).Raised?
  {
  }

  lemma {:induction false} BoundedEnvMonotone(w: World, id: string, n: nat, m: nat)
    requires n <= m && !BoundedEnv(w, n)(id).Raised?
    ensures BoundedEnv(w, m)(id) == BoundedEnv(w, n)(id)
    decreases n, 1
  {
    hide Bounded, Reference;
    BoundedMonotone(w, id, n, m);
  }

  /** What an expression sees of `id` when it is resolved from scratch: its value if
      resolving ever succeeds, otherwise some error. */
  ghost function Outcome(w: World, id: string): (o: Value)
    ensures forall n: nat | Succeeds(w, id, n) :: o == Reference(Bounded(w, id, n))
    ensures o.Raised? <==> !exists n: nat :: Succeeds(w, id, n)
  {
    if n: nat :| Succeeds(w, id, n) then
      assert forall m: nat | Succeeds(w, id, m) :: Bounded(w, id, m) == Bounded(w, id, n) by {
        forall m: nat | Succeeds(w, id, m)
          ensures Bounded(w, id, m) == Bounded(w, id, n)
        {
          if m <= n { BoundedMonotone(w, id, m, n); } else { BoundedMonotone(w, id, n, m); }
        }
      }
      Reference(Bounded(w, id, n))
    else Raised(VariableCycle)
  }

  ghost function OutcomeEnv(w: World): Env {
    r => Outcome(w, r)
  }

  /** Resolving `top` within some depth needs `e` to evaluate within one level less. */
  ghost predicate Demands(w: World, top: string, e: Expr) {
    forall n: nat | Succeeds(w, top, n) :: n > 0 && !Eval(e, BoundedEnv(w, n - 1), w.lib).Raised?
  }

  lemma DemandedSucceeds(w: World, a: string, b: string, n: nat)
    requires Demands(w, a, Variable(b)) && Succeeds(w, a, n)
    ensures n > 0 && Succeeds(w, b, n - 1)
  {
    hide Bounded, Reference;
    assert !Eval(Variable(b), BoundedEnv(w, n - 1), w.lib).Raised?;
  }

  /** No variable that succeeds demands itself. */
  lemma {:induction false} SelfDemandFails(w: World, id: string, n: nat)
    requires Demands(w, id, Variable(id))
    ensures !Succeeds(w, id, n)
  {
    hide *;
    if Succeeds(w, id, n) {
      DemandedSucceeds(w, id, id, n);
      SelfDemandFails(w, id, n - 1);
    }
  }

  lemma DemandsTransitive(w: World, a: string, b: string, c: string)
    requires Demands(w, a, Variable(b)) && Demands(w, b, Variable(c))
    ensures Demands(w, a, Variable(c))
  {
    hide Bounded, Reference;
    forall n: nat | Succeeds(w, a, n)
      ensures n > 0 && !Eval(Variable(c), BoundedEnv(w, n - 1), w.lib).Raised?
    {
      DemandedSucceeds(w, a, b, n);
      DemandedSucceeds(w, b, c, n - 1);
      BoundedMonotone(w, c, n - 2, n - 1);
    }
  }

  lemma ComputedDemandsItsExpression(w: World, id: string)
    requires id in w.vars && w.vars[id].enabled && w.vars[id].source.Computed?
    ensures Demands(w, id, w.vars[id].source.expr)
  {
    forall n: nat | Succeeds(w, id, n)
      ensures n > 0 && !Eval(w.vars[id].source.expr, BoundedEnv(w, n - 1), w.lib).Raised?
    {
      assert Bounded(w, id, n) == Step(w, w.vars[id], BoundedEnv(w, n - 1));
    }
  }

  lemma BoundedBelowOutcome(w: World, e: Expr, n: nat)
    ensures !Eval(e, BoundedEnv(w, n), w.lib).Raised? ==>
      Eval(e, OutcomeEnv(w), w.lib) == Eval(e, BoundedEnv(w, n), w.lib)
  {
    forall r | r in VariableIds(e) && !BoundedEnv(w, n)(r).Raised?
      ensures OutcomeEnv(w)(r) == BoundedEnv(w, n)(r)
    {
      assert Succeeds(w, r, n);
    }
    EvalMonotone(e, BoundedEnv(w, n), OutcomeEnv(w), w.lib);
  }

  /** The first argument is always demanded, and the others once it is skipped. */
  lemma CoalesceDemands(w: World, top: string, args: seq<Expr>)
    requires args != [] && Demands(w, top, Coalesce(args))
    ensures Demands(w, top, args[0])
    ensures Skipped(Eval(args[0], OutcomeEnv(w), w.lib)) ==> Demands(w, top, Coalesce(args[1..]))
  {
    hide Bounded, Reference, Outcome, Eval, EvalCoalesce;
    forall n: nat | Succeeds(w, top, n)
      ensures n > 0 && !Eval(args[0], BoundedEnv(w, n - 1), w.lib).Raised?
      ensures Skipped(Eval(args[0], OutcomeEnv(w), w.lib)) ==>
        !Eval(Coalesce(args[1..]), BoundedEnv(w, n - 1), w.lib).Raised?
    {
      assert !Eval(Coalesce(args), BoundedEnv(w, n - 1), w.lib).Raised?;
      CoalesceUnfolds(args, BoundedEnv(w, n - 1), w.lib);
      BoundedBelowOutcome(w, args[0], n - 1);
    }
  }

  lemma CoalesceUnfolds(args: seq<Expr>, env: Env, lib: Library)
    requires args != []
    ensures Eval(Coalesce(args), env, lib) ==
      if Skipped(Eval(args[0], env, lib)) then Eval(Coalesce(args[1..]), env, lib) else Eval(args[0], env, lib)
  {
  }

  lemma ConcatDemands(w: World, top: string, args: seq<Expr>)
    requires args != [] && Demands(w, top, Concat(args))
    ensures Demands(w, top, args[0]) && Demands(w, top, Concat(args[1..]))
  {
    hide Bounded, Reference;
    forall n: nat | Succeeds(w, top, n)
      ensures n > 0 && !Eval(args[0], BoundedEnv(w, n - 1), w.lib).Raised?
      ensures !Eval(Concat(args[1..]), BoundedEnv(w, n - 1), w.lib).Raised?
    {
      assert !Eval(Concat(args), BoundedEnv(w, n - 1), w.lib).Raised?;
    }
  }

  lemma UnaryDemands(w: World, top: string, op: UnaryOp, arg: Expr)
    requires Demands(w, top, Unary(op, arg))
    ensures Demands(w, top, arg)
  {
    hide Bounded, Reference;
    forall n: nat | Succeeds(w, top, n)
      ensures n > 0 && !Eval(arg, BoundedEnv(w, n - 1), w.lib).Raised?
    {
      assert !Eval(Unary(op, arg), BoundedEnv(w, n - 1), w.lib).Raised?;
    }
  }
}
