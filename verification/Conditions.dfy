/** The declarative condition AST of triggers and its evaluator. */
module Conditions {
  import opened Wrappers
  import opened Json
  import Glob

  datatype Op = Equals | Contains | StartsWith | MatchesGlob | In | Gt | Gte | Lt | Lte

  datatype Condition =
    | All(conditions: seq<Condition>)
    | Any(conditions: seq<Condition>)
    | Not(condition: Condition)
    | Exists(path: string)
    | Compare(op: Op, path: string, value: Json)

  /** `path.split(".")`. */
  function Split(path: string): (parts: seq<string>)
    ensures |parts| > 0
    ensures '.' !in path ==> parts == [path]
  {
    if path == "" then [""]
    else
      var rest := Split(path[1..]);
      assert path == [path[0]] + path[1..];
      if path[0] == '.' then [""] + rest else [[path[0]] + rest[0]] + rest[1..]
  }

  predicate IsDigits(s: string) {
    s != "" && forall i | 0 <= i < |s| :: '0' <= s[i] <= '9'
  }

  function DigitsValue(s: string): nat
    requires forall i | 0 <= i < |s| :: '0' <= s[i] <= '9'
  {
    if s == "" then 0
    else
      var digit: nat := s[|s| - 1] as int - '0' as int;
      DigitsValue(s[..|s| - 1]) * 10 + digit
  }

  function ResolveParts(current: Json, parts: seq<string>): Option<Json> {
    if parts == [] then Some(current)
    else match current
      case Obj(fields) =>
        if parts[0] !in fields then None else ResolveParts(fields[parts[0]], parts[1..])
      case List(items) =>
        if !IsDigits(parts[0]) || DigitsValue(parts[0]) >= |items| then None
        else ResolveParts(items[DigitsValue(parts[0])], parts[1..])
      case _ => None
  }

  /** `resolve_path`; `None` is the missing sentinel. */
  function ResolvePath(context: Json, path: string): Option<Json> {
    ResolveParts(context, Split(path))
  }

  predicate IsPrefix(p: string, s: string) { |p| <= |s| && s[..|p|] == p }

  predicate IsSubstring(p: string, s: string) {
    exists i | 0 <= i <= |s| :: IsPrefix(p, s[i..])
  }

  predicate Compares(op: Op, actual: Option<Json>, expected: Json) {
    actual.Some? &&
    var a := actual.value;
    match op
    case Equals => StrictEqual(a, expected)
    case In => expected.List? && exists i | 0 <= i < |expected.items| :: StrictEqual(a, expected.items[i])
    case Contains =>
      if a.Str? && expected.Str? then IsSubstring(expected.s, a.s)
      else a.List? && exists i | 0 <= i < |a.items| :: StrictEqual(a.items[i], expected)
    case StartsWith => a.Str? && expected.Str? && IsPrefix(expected.s, a.s)
    case MatchesGlob => a.Str? && expected.Str? && Glob.Accepts(expected.s, a.s)
    case _ =>
      IsNumber(a) && IsNumber(expected) &&
      var x, y := NumberOf(a), NumberOf(expected);
      if op.Gt? then x > y else if op.Gte? then x >= y else if op.Lt? then x < y else x <= y
  }

  /** `evaluate_condition`. */
  predicate Evaluate(condition: Condition, context: Json) {
    match condition
    case All(cs) => forall i | 0 <= i < |cs| :: Evaluate(cs[i], context)
    case Any(cs) => exists i | 0 <= i < |cs| :: Evaluate(cs[i], context)
    case Not(c) => !Evaluate(c, context)
    case Exists(path) => ResolvePath(context, path).Some?
    case Compare(op, path, value) => Compares(op, ResolvePath(context, path), value)
  }
}
