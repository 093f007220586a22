/** What the operators of computed variables do. */
module ConversionLaws {
  import opened Wrappers
  import opened Json
  import opened Expressions

  function Const(v: Value): Env { _ => v }

  /** An operator applied to an argument that evaluates to `v`. */
  function Convert(op: UnaryOp, v: Value, lib: Library): Value {
    Eval(Unary(op, Variable("x")), Const(v), lib)
  }

  /** It is the same for any expression with that value, in any environment. */
  lemma ConvertAnywhere(op: UnaryOp, arg: Expr, env: Env, v: Value, lib: Library)
    requires Eval(arg, env, lib) == v
    ensures Eval(Unary(op, arg), env, lib) == Convert(op, v, lib)
  {
    hide ApplyUnary;
  }

  /** The host reads a number out of a text. */
  ghost predicate ParsesNumbers(lib: Library) {
    forall s | lib.parseNumber(s).Some? :: lib.parseNumber(s).value.Int? || lib.parseNumber(s).value.Float?
  }

  /** Each conversion yields a value of its own type or an error, and hands an error on; only
      the parsing of JSON can yield any value. */
  lemma ConvertedType(op: UnaryOp, v: Value, lib: Library)
    requires ParsesNumbers(lib)
    ensures var r := Convert(op, v, lib);
      && !r.Missing? && (v.Raised? ==> r == v)
      && (r.Got? ==>
            match op
            case ToNumber => r.value.Int? || r.value.Float?
            case ToText => r.value.Str?
            case ToBoolean => r.value.Bool?
            case Length => r.value.Int? && r.value.i >= 0
            case JsonParse => true)
  {
  }

  /** A value that has the type already is kept, so converting twice is converting once. */
  lemma ConvertTwice(op: UnaryOp, v: Value, lib: Library)
    requires ParsesNumbers(lib) && (op.ToNumber? || op.ToText? || op.ToBoolean?)
    ensures Convert(op, Convert(op, v, lib), lib) == Convert(op, v, lib)
    ensures v.Got? && op.ToNumber? && (v.value.Int? || v.value.Float?) ==> Convert(op, v, lib) == v
    ensures v.Got? && op.ToText? && v.value.Str? ==> Convert(op, v, lib) == v
    ensures v.Got? && op.ToBoolean? && v.value.Bool? ==> Convert(op, v, lib) == v
  {
  }

  /** Which values convert to a number: numbers, and texts that the host reads as one. */
  lemma ToNumberIff(v: Value, lib: Library)
    ensures Convert(ToNumber, v, lib).Got? <==>
      v.Got? && (v.value.Int? || v.value.Float? || (v.value.Str? && lib.parseNumber(v.value.s).Some?))
    ensures v.Got? && v.value.Str? && lib.parseNumber(v.value.s).Some? ==>
      Convert(ToNumber, v, lib) == Got(lib.parseNumber(v.value.s).value)
  {
  }

  /** Which values convert to a text: all scalars but null. */
  lemma ToTextIff(v: Value, lib: Library)
    ensures Convert(ToText, v, lib).Got? <==>
      v.Got? && (v.value.Str? || v.value.Bool? || v.value.Int? || v.value.Float?)
    ensures Convert(ToText, Got(Bool(true)), lib) == Got(Str("true"))
    ensures Convert(ToText, Got(Bool(false)), lib) == Got(Str("false"))
    ensures v.Got? && (v.value.Int? || v.value.Float?) ==> Convert(ToText, v, lib) == Got(Str(lib.showNumber(v.value)))
  {
  }

  /** Which values convert to a boolean: booleans, one and zero, and texts that the host reads
      as one; one is true and zero is false. */
  lemma ToBooleanIff(v: Value, lib: Library)
    ensures Convert(ToBoolean, v, lib) == Got(Bool(true)) <==>
      v in {Got(Bool(true)), Got(Int(1)), Got(Float(1.0))}
      || (v.Got? && v.value.Str? && lib.parseBoolean(v.value.s) == Some(true))
    ensures Convert(ToBoolean, v, lib) == Got(Bool(false)) <==>
      v in {Got(Bool(false)), Got(Int(0)), Got(Float(0.0))}
      || (v.Got? && v.value.Str? && lib.parseBoolean(v.value.s) == Some(false))
  {
  }

  /** Booleans survive the way through text. */
  lemma BooleanRoundTrip(b: bool, lib: Library)
    requires lib.parseBoolean("true") == Some(true) && lib.parseBoolean("false") == Some(false)
    ensures Convert(ToBoolean, Convert(ToText, Got(Bool(b)), lib), lib) == Got(Bool(b))
  {
  }

  /** Parsing JSON takes a text and yields what the host reads out of it. */
  lemma ParseIff(v: Value, lib: Library)
    ensures Convert(JsonParse, v, lib).Got? <==> v.Got? && v.value.Str? && lib.parseJson(v.value.s).Some?
    ensures Convert(JsonParse, v, lib).Got? ==>
      v.Got? && v.value.Str? && lib.parseJson(v.value.s) == Some(Convert(JsonParse, v, lib).value)
  {
  }

  function SumOfLengths(texts: seq<string>): nat {
    if texts == [] then 0 else |texts[0]| + SumOfLengths(texts[1..])
  }

  function Joined(texts: seq<string>): string {
    if texts == [] then "" else texts[0] + Joined(texts[1..])
  }

  /** A concatenation of texts is their concatenation in order. */
  lemma {:induction false} ConcatJoins(args: seq<Expr>, texts: seq<string>, env: Env, lib: Library)
    requires |texts| == |args| && forall i | 0 <= i < |args| :: Eval(args[i], env, lib) == Got(Str(texts[i]))
    ensures Eval(Concat(args), env, lib) == Got(Str(Joined(texts)))
  {
    if args != [] {
      ConcatJoins(args[1..], texts[1..], env, lib);
      assert Eval(Concat(args[1..]), env, lib) == EvalConcat(args[1..], env, lib);
      hide Eval;
      assert EvalConcat(args, env, lib) == JoinHead(Got(Str(texts[0])), EvalConcat(args[1..], env, lib));
    }
  }

  /** Anything else among the arguments makes it an error. */
  lemma {:induction false} ConcatNeedsTexts(args: seq<Expr>, i: nat, env: Env, lib: Library)
    requires i < |args| && !(Eval(args[i], env, lib).Got? && Eval(args[i], env, lib).value.Str?)
    ensures Eval(Concat(args), env, lib).Raised?
  {
    if i > 0 {
      ConcatNeedsTexts(args[1..], i - 1, env, lib);
      assert Eval(Concat(args[1..]), env, lib) == EvalConcat(args[1..], env, lib);
    }
  }

  /** The length of a concatenation is the sum of the lengths. */
  lemma {:induction false} LengthOfConcat(args: seq<Expr>, texts: seq<string>, env: Env, lib: Library)
    requires |texts| == |args| && forall i | 0 <= i < |args| :: Eval(args[i], env, lib) == Got(Str(texts[i]))
    ensures Eval(Unary(Length, Concat(args)), env, lib) == Got(Int(SumOfLengths(texts)))
  {
    ConcatJoins(args, texts, env, lib);
    LengthOfJoined(texts);
    ConvertAnywhere(Length, Concat(args), env, Got(Str(Joined(texts))), lib);
  }

  lemma {:induction false} LengthOfJoined(texts: seq<string>)
    ensures |Joined(texts)| == SumOfLengths(texts)
  {
    if texts != [] { LengthOfJoined(texts[1..]); }
  }

  /** Texts, lists and objects have a length, and nothing else does. */
  lemma LengthIff(v: Value, lib: Library)
    ensures Convert(Length, v, lib).Got? <==> v.Got? && (v.value.Str? || v.value.List? || v.value.Obj?)
    ensures v.Got? && v.value.List? ==> Convert(Length, v, lib) == Got(Int(|v.value.items|))
    ensures v.Got? && v.value.Obj? ==> Convert(Length, v, lib) == Got(Int(|v.value.fields.Keys|))
  {
    if v.Got? && v.value.Obj? { assert |v.value.fields.Keys| == |v.value.fields|; }
  }

  /** `coalesce` yields the first argument that is neither missing nor null, an error counting
      as one; it never yields null. */
  lemma {:induction false} CoalesceIsFirst(args: seq<Expr>, i: nat, env: Env, lib: Library)
    requires i < |args| && Eval(args[i], env, lib) != Missing && Eval(args[i], env, lib) != Got(Null)
    requires forall j | 0 <= j < i :: Eval(args[j], env, lib) == Missing || Eval(args[j], env, lib) == Got(Null)
    ensures Eval(Coalesce(args), env, lib) == Eval(args[i], env, lib)
  {
    if i > 0 {
      assert forall j | 0 <= j < i - 1 :: args[1..][j] == args[j + 1];
      CoalesceIsFirst(args[1..], i - 1, env, lib);
      assert Eval(Coalesce(args[1..]), env, lib) == EvalCoalesce(args[1..], env, lib);
    }
  }

  lemma {:induction false} CoalesceOfNothing(args: seq<Expr>, env: Env, lib: Library)
    requires forall j | 0 <= j < |args| :: Eval(args[j], env, lib) == Missing || Eval(args[j], env, lib) == Got(Null)
    ensures Eval(Coalesce(args), env, lib) == Missing
  {
    if args != [] {
      assert forall j | 0 <= j < |args[1..]| :: args[1..][j] == args[j + 1];
      CoalesceOfNothing(args[1..], env, lib);
      assert Eval(Coalesce(args[1..]), env, lib) == EvalCoalesce(args[1..], env, lib);
    }
  }

  /** The variable occurs somewhere in the expression. */
  predicate Occurs(e: Expr, id: string) {
    match e
    case Literal(_) => false
    case Variable(other) => other == id
    case Coalesce(args) => exists i | 0 <= i < |args| :: Occurs(args[i], id)
    case Concat(args) => exists i | 0 <= i < |args| :: Occurs(args[i], id)
    case Unary(_, arg) => Occurs(arg, id)
  }

  /** The references of an expression are the variables that occur in it, wherever they do. */
  lemma {:induction false} ReferencesIff(e: Expr, id: string)
    ensures id in VariableIds(e) <==> Occurs(e, id)
    decreases e, 0
  {
    match e
    case Literal(_) =>
    case Variable(_) =>
    case Coalesce(args) => ArgReferencesIff(args, id);
    case Concat(args) => ArgReferencesIff(args, id);
    case Unary(_, arg) => ReferencesIff(arg, id);
  }

  lemma {:induction false} ArgReferencesIff(args: seq<Expr>, id: string)
    ensures id in ArgIds(args) <==> exists i | 0 <= i < |args| :: Occurs(args[i], id)
    decreases args, 1
  {
    if args != [] {
      ReferencesIff(args[0], id);
      ArgReferencesIff(args[1..], id);
      assert forall i | 1 <= i < |args| :: args[i] == args[1..][i - 1];
      if i :| 0 <= i < |args[1..]| && Occurs(args[1..][i], id) { assert args[i + 1] == args[1..][i]; }
      hide Occurs, VariableIds;
    }
  }
}
