/** Computed-variable expressions, their references and evaluation. */
module Expressions {
  import opened Wrappers
  import opened Json

  datatype UnaryOp = ToNumber | ToText | ToBoolean | JsonParse | Length

  datatype Expr =
    | Literal(value: Json)
    | Variable(id: string)
    | Coalesce(args: seq<Expr>)
    | Concat(args: seq<Expr>)
    | Unary(op: UnaryOp, arg: Expr)

  /** What the message about a bad argument shows of it: nothing, the name of its type, the
      value itself (or that it is missing), or what the host says about it. */
  datatype Shown = Nothing | TypeOf(name: string) | Operand(value: Option<Json>) | HostMessage(text: string)

  /** Why a variable has no value.  Messages are kept structured. */
  datatype Error =
    | UnknownVariable(id: string)
    | VariableCycle
    | WrongType(expected: string)
    | BadArgument(op: string, shown: Shown)
    | Unresolved(name: string, cause: Option<Error>)

  /** What an evaluation yields: a value, the missing sentinel, or a raised error. */
  datatype Value = Got(value: Json) | Missing | Raised(error: Error)

  /** Conversions of the host language and what it says when they fail, taken as given.  A text
      that is no number at all gives no message of its own; `repr` also shows what is missing. */
  datatype Library = Library(
    parseNumber: string -> Option<Json>,
    showNumber: Json -> string,
    parseBoolean: string -> Option<bool>,
    parseJson: string -> Option<Json>,
    numberMessage: string -> Option<string>,
    jsonMessage: string -> string,
    repr: Option<Json> -> string,
    isSensitiveKey: string -> bool)

  type Env = string -> Value

  function VariableIds(e: Expr): (ids: seq<string>)
    decreases e, 0
  {
    match e
    case Literal(_) => []
    case Variable(id) => [id]
    case Coalesce(args) => ArgIds(args)
    case Concat(args) => ArgIds(args)
    case Unary(_, arg) => VariableIds(arg)
  }

  function ArgIds(args: seq<Expr>): seq<string>
    decreases args, 1
  {
    if args == [] then [] else VariableIds(args[0]) + ArgIds(args[1..])
  }

  /** Python's names of the types that no conversion accepts. */
  function TypeShown(j: Json): Shown {
    match j
    case List(_) => TypeOf("list")
    case Obj(_) => TypeOf("dict")
    case _ => Nothing
  }

  function Shows(v: Value): Shown
    requires !v.Raised?
  {
    Operand(if v.Got? then Some(v.value) else None)
  }

  function NumberShown(s: string, lib: Library): Shown {
    match lib.numberMessage(s)
    case Some(text) => HostMessage(text)
    case None => Operand(Some(Str(s)))
  }

  function ApplyUnary(op: UnaryOp, v: Value, lib: Library): Value {
    if v.Raised? then v
    else match op
      case ToNumber =>
        if v.Got? && IsNumber(v.value) then v
        else if v.Got? && v.value.Str? then
          (match lib.parseNumber(v.value.s)
           case Some(n) => Got(n)
           case None => Raised(BadArgument("to_number", NumberShown(v.value.s, lib))))
        else Raised(BadArgument("to_number", if v.Got? then TypeShown(v.value) else Nothing))
      case ToText =>
        if v.Missing? || v.value.Null? then Raised(BadArgument("to_string", Nothing))
        else if v.value.Str? then v
        else if v.value.Bool? then Got(Str(if v.value.b then "true" else "false"))
        else if IsNumber(v.value) then Got(Str(lib.showNumber(v.value)))
        else Raised(BadArgument("to_string", TypeShown(v.value)))
      case ToBoolean =>
        if v.Missing? then Raised(BadArgument("to_boolean", Shows(v)))
        else if v.value.Bool? then v
        else if IsNumber(v.value) && (NumberOf(v.value) == 1.0 || NumberOf(v.value) == 0.0) then
          Got(Bool(NumberOf(v.value) == 1.0))
        else if v.value.Str? then
          (match lib.parseBoolean(v.value.s)
           case Some(b) => Got(Bool(b))
           case None => Raised(BadArgument("to_boolean", Shows(v))))
        else Raised(BadArgument("to_boolean", Shows(v)))
      case JsonParse =>
        if v.Got? && v.value.Str? then
          (match lib.parseJson(v.value.s)
           case Some(j) => Got(j)
           case None => Raised(BadArgument("json_parse", HostMessage(lib.jsonMessage(v.value.s)))))
        else Raised(BadArgument("json_parse", Nothing))
      case Length =>
        if v.Missing? then Raised(BadArgument("length", Nothing))
        else match v.value
          case Str(s) => Got(Int(|s|))
          case List(items) => Got(Int(|items|))
          case Obj(fields) => Got(Int(|fields|))
          case _ => Raised(BadArgument("length", Nothing))
  }

  /** A coalesce argument that makes evaluation go on to the next one. */
  predicate Skipped(v: Value) { v.Missing? || (v.Got? && v.value.Null?) }

  /** `evaluate_expression` with `env` as its resolver callback. */
  function Eval(e: Expr, env: Env, lib: Library): Value
    decreases e, 0
  {
    match e
    case Literal(value) => Got(value)
    case Variable(id) => env(id)
    case Coalesce(args) => EvalCoalesce(args, env, lib)
    case Concat(args) => EvalConcat(args, env, lib)
    case Unary(op, arg) => ApplyUnary(op, Eval(arg, env, lib), lib)
  }

  function EvalCoalesce(args: seq<Expr>, env: Env, lib: Library): Value
    decreases args, 1
  {
    if args == [] then Missing
    else
      var v := Eval(args[0], env, lib);
      if Skipped(v) then EvalCoalesce(args[1..], env, lib) else v
  }

  /** Every argument is evaluated first; then each has to be a string. */
  function EvalConcat(args: seq<Expr>, env: Env, lib: Library): Value
    decreases args, 1
  {
    if args == [] then Got(Str(""))
    else
      var v := Eval(args[0], env, lib);
      if v.Raised? then v
      else JoinHead(v, EvalConcat(args[1..], env, lib))
  }

  function JoinHead(head: Value, rest: Value): Value
    requires !head.Raised?
  {
    if rest.Raised? then rest
    else if head.Got? && head.value.Str? && rest.Got? && rest.value.Str? then Got(Str(head.value.s + rest.value.s))
    else Raised(BadArgument("concat", Nothing))
  }

  /** Same value, or both raised: equality up to the error text. */
  predicate Agree(a: Value, b: Value) {
    a == b || (a.Raised? && b.Raised?)
  }

  /** An environment that answers more than another changes no evaluation that succeeds. */
  lemma {:induction false} EvalMonotone(e: Expr, weak: Env, strong: Env, lib: Library)
    requires forall id | id in VariableIds(e) && !weak(id).Raised? :: strong(id) == weak(id)
    ensures !Eval(e, weak, lib).Raised? ==> Eval(e, strong, lib) == Eval(e, weak, lib)
    decreases e, 0
  {
    match e
    case Literal(_) =>
    case Variable(_) =>
    case Coalesce(args) => ArgsMonotone(args, weak, strong, lib);
    case Concat(args) => ArgsMonotone(args, weak, strong, lib);
    case Unary(_, arg) => EvalMonotone(arg, weak, strong, lib);
  }

  lemma {:induction false} ArgsMonotone(args: seq<Expr>, weak: Env, strong: Env, lib: Library)
    requires forall id | id in ArgIds(args) && !weak(id).Raised? :: strong(id) == weak(id)
    ensures !EvalCoalesce(args, weak, lib).Raised? ==> EvalCoalesce(args, strong, lib) == EvalCoalesce(args, weak, lib)
    ensures !EvalConcat(args, weak, lib).Raised? ==> EvalConcat(args, strong, lib) == EvalConcat(args, weak, lib)
    decreases args, 1
  {
    if args != [] {
      EvalMonotone(args[0], weak, strong, lib);
      ArgsMonotone(args[1..], weak, strong, lib);
    }
  }

  /** Evaluation depends only on the variables the expression mentions. */
  lemma {:induction false} EvalDependsOnIds(e: Expr, env1: Env, env2: Env, lib: Library)
    requires forall id | id in VariableIds(e) :: env1(id) == env2(id)
    ensures Eval(e, env1, lib) == Eval(e, env2, lib)
    decreases e, 0
  {
    match e
    case Literal(_) =>
    case Variable(_) =>
    case Coalesce(args) => ArgsDependOnIds(args, env1, env2, lib);
    case Concat(args) => ArgsDependOnIds(args, env1, env2, lib);
    case Unary(_, arg) => EvalDependsOnIds(arg, env1, env2, lib);
  }

  lemma {:induction false} ArgsDependOnIds(args: seq<Expr>, env1: Env, env2: Env, lib: Library)
    requires forall id | id in ArgIds(args) :: env1(id) == env2(id)
    ensures EvalCoalesce(args, env1, lib) == EvalCoalesce(args, env2, lib)
    ensures EvalConcat(args, env1, lib) == EvalConcat(args, env2, lib)
    decreases args, 1
  {
    if args != [] {
      EvalDependsOnIds(args[0], env1, env2, lib);
      ArgsDependOnIds(args[1..], env1, env2, lib);
    }
  }
}
