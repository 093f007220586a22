/** Reading a computed-variable expression out of JSON. */
module ExpressionSyntax {
  import opened Wrappers
  import opened Json
  import opened Expressions

  const MAX_DEPTH: nat := 16
  const MAX_NODES: nat := 128
  const MAX_BYTES: nat := 32768
  const MAX_ARGS: nat := 64

  /** What is left to the host: the form of ids, and the size of a document as canonical
      JSON. */
  datatype Host = Host(isId: string -> bool, bytes: Json -> nat)

  function UnaryName(op: UnaryOp): string {
    match op
    case ToNumber => "to_number"
    case ToText => "to_string"
    case ToBoolean => "to_boolean"
    case JsonParse => "json_parse"
    case Length => "length"
  }

  function UnaryNamed(name: string): Option<UnaryOp> {
    if name == "to_number" then Some(ToNumber)
    else if name == "to_string" then Some(ToText)
    else if name == "to_boolean" then Some(ToBoolean)
    else if name == "json_parse" then Some(JsonParse)
    else if name == "length" then Some(Length)
    else None
  }

  /** The document an expression is written as. */
  function Render(e: Expr): Json
    decreases e, 0
  {
    match e
    case Literal(value) => Obj(map["op" := Str("literal"), "value" := value])
    case Variable(id) => Obj(map["op" := Str("variable"), "id" := Str(id)])
    case Coalesce(args) => Obj(map["op" := Str("coalesce"), "args" := List(RenderAll(args))])
    case Concat(args) => Obj(map["op" := Str("concat"), "args" := List(RenderAll(args))])
    case Unary(op, arg) => Obj(map["op" := Str(UnaryName(op)), "arg" := Render(arg)])
  }

  function RenderAll(args: seq<Expr>): (items: seq<Json>)
    ensures |items| == |args|
    decreases args, 1
  {
    if args == [] then [] else [Render(args[0])] + RenderAll(args[1..])
  }

  predicate WellFormed(e: Expr, host: Host)
    decreases e
  {
    match e
    case Literal(_) => true
    case Variable(id) => host.isId(id)
    case Coalesce(args) => 0 < |args| <= MAX_ARGS && forall i | 0 <= i < |args| :: WellFormed(args[i], host)
    case Concat(args) => 0 < |args| <= MAX_ARGS && forall i | 0 <= i < |args| :: WellFormed(args[i], host)
    case Unary(_, arg) => WellFormed(arg, host)
  }

  function Nodes(e: Expr): nat
    decreases e, 0
  {
    match e
    case Coalesce(args) => 1 + AllNodes(args)
    case Concat(args) => 1 + AllNodes(args)
    case Unary(_, arg) => 1 + Nodes(arg)
    case _ => 1
  }

  function AllNodes(args: seq<Expr>): nat
    decreases args, 1
  {
    if args == [] then 0 else Nodes(args[0]) + AllNodes(args[1..])
  }

  function Levels(e: Expr): nat
    decreases e, 0
  {
    match e
    case Coalesce(args) => 1 + MaxLevels(args)
    case Concat(args) => 1 + MaxLevels(args)
    case Unary(_, arg) => 1 + Levels(arg)
    case _ => 1
  }

  function MaxLevels(args: seq<Expr>): nat
    decreases args, 1
  {
    if args == [] then 0
    else
      var first, rest := Levels(args[0]), MaxLevels(args[1..]);
      if first > rest then first else rest
  }

  /** `_depth(j) <= d`: lists and objects nest at most `d` deep. */
  predicate NestsWithin(j: Json, d: nat)
    decreases j
  {
    match j
    case List(items) => forall i | 0 <= i < |items| :: d > 0 && NestsWithin(items[i], d - 1)
    case Obj(fields) => forall k | k in fields :: d > 0 && NestsWithin(fields[k], d - 1)
    case _ => true
  }

  /** How deep lists and objects nest. */
  ghost function Nesting(j: Json): nat
    decreases j, 1, 0
  {
    match j
    case List(items) => ItemsNesting(items)
    case Obj(fields) => FieldsNesting(j, fields.Keys)
    case _ => 0
  }

  ghost function ItemsNesting(items: seq<Json>): nat
    decreases items, 0, 0
  {
    if items == [] then 0 else Max(1 + Nesting(items[0]), ItemsNesting(items[1..]))
  }

  ghost function FieldsNesting(j: Json, keys: set<string>): nat
    requires j.Obj? && keys <= j.fields.Keys
    decreases j, 0, |keys|
  {
    if keys == {} then 0
    else
      var k :| k in keys;
      Max(1 + Nesting(j.fields[k]), FieldsNesting(j, keys - {k}))
  }

  function Max(a: nat, b: nat): nat { if a > b then a else b }

  /** What an expression costs of the depth limit: one for each operator on the deepest path,
      one more for each argument list, and the nesting of a literal. */
  ghost function Cost(e: Expr): nat
    decreases e, 0
  {
    match e
    case Literal(value) => 1 + Nesting(value)
    case Variable(_) => 1
    case Coalesce(args) => 1 + ListCost(args)
    case Concat(args) => 1 + ListCost(args)
    case Unary(_, arg) => 1 + Cost(arg)
  }

  /** An argument list costs one more than its most expensive member. */
  ghost function ListCost(args: seq<Expr>): nat
    decreases args, 1
  {
    if args == [] then 0 else Max(1 + Cost(args[0]), ListCost(args[1..]))
  }

  /** What validation admits.  The recursion limit need not be mentioned: the cost exceeds it
      first. */
  ghost predicate Admissible(e: Expr, host: Host) {
    WellFormed(e, host) && Nodes(e) <= MAX_NODES && Cost(e) <= MAX_DEPTH && host.bytes(Render(e)) <= MAX_BYTES
  }

  /** `_validate` without its limits. */
  function Parse(j: Json, host: Host): Option<Expr>
    decreases j, 0
  {
    if !j.Obj? || "op" !in j.fields || !j.fields["op"].Str? then None
    else
      var op, fields := j.fields["op"].s, j.fields;
      if op == "literal" then
        if fields.Keys != {"op", "value"} then None else Some(Literal(fields["value"]))
      else if op == "variable" then
        if fields.Keys != {"op", "id"} || !fields["id"].Str? || !host.isId(fields["id"].s) then None
        else Some(Variable(fields["id"].s))
      else if op == "coalesce" || op == "concat" then
        if fields.Keys != {"op", "args"} || !fields["args"].List? || !(0 < |fields["args"].items| <= MAX_ARGS) then None
        else
          var args := ParseAll(fields["args"].items, host);
          if args.None? then None else Some(if op == "coalesce" then Coalesce(args.value) else Concat(args.value))
      else if UnaryNamed(op).Some? then
        if fields.Keys != {"op", "arg"} then None
        else
          var arg := Parse(fields["arg"], host);
          if arg.None? then None else Some(Unary(UnaryNamed(op).value, arg.value))
      else None
  }

  function ParseAll(items: seq<Json>, host: Host): (args: Option<seq<Expr>>)
    ensures args.Some? ==> |args.value| == |items|
    decreases items, 1
  {
    if items == [] then Some([])
    else
      var first, rest := Parse(items[0], host), ParseAll(items[1..], host);
      if first.Some? && rest.Some? then Some([first.value] + rest.value) else None
  }

  /** `_validate`, with its shared counter. */
  method ValidateNode(j: Json, depth: nat, counter: nat, host: Host) returns (e: Option<Expr>, counter': nat)
    requires counter <= MAX_NODES && depth <= MAX_DEPTH + 1
    ensures e.Some? <==> (Parse(j, host).Some? && counter + Nodes(Parse(j, host).value) <= MAX_NODES
                        && depth + Levels(Parse(j, host).value) <= MAX_DEPTH + 1)
    ensures e.Some? ==> e == Parse(j, host) && counter' == counter + Nodes(e.value)
    decreases j, 0
  {
    hide UnaryNamed;
    counter' := counter + 1;
    AtLeastOne(j, host);
    if counter' > MAX_NODES { return None, counter'; }
    if depth > MAX_DEPTH { return None, counter'; }
    if !j.Obj? || "op" !in j.fields || !j.fields["op"].Str? { return None, counter'; }
    var op, fields := j.fields["op"].s, j.fields;
    if op == "literal" {
      if fields.Keys != {"op", "value"} { return None, counter'; }
      e := Some(Literal(fields["value"]));
    } else if op == "variable" {
      if fields.Keys != {"op", "id"} || !fields["id"].Str? || !host.isId(fields["id"].s) { return None, counter'; }
      e := Some(Variable(fields["id"].s));
    } else if op == "coalesce" || op == "concat" {
      if fields.Keys != {"op", "args"} || !fields["args"].List?
         || !(0 < |fields["args"].items| <= MAX_ARGS) { return None, counter'; }
      var args;
      args, counter' := ValidateAll(fields["args"].items, depth + 1, counter', host);
      if args.None? { return None, counter'; }
      e := Some(if op == "coalesce" then Coalesce(args.value) else Concat(args.value));
    } else if UnaryNamed(op).Some? {
      if fields.Keys != {"op", "arg"} { return None, counter'; }
      var arg;
      arg, counter' := ValidateNode(fields["arg"], depth + 1, counter', host);
      if arg.None? { return None, counter'; }
      e := Some(Unary(UnaryNamed(op).value, arg.value));
    } else {
      e := None;
    }
  }

  method ValidateAll(items: seq<Json>, depth: nat, counter: nat, host: Host)
    returns (args: Option<seq<Expr>>, counter': nat)
    requires counter <= MAX_NODES && depth <= MAX_DEPTH + 1
    ensures args.Some? <==> (ParseAll(items, host).Some? && counter + AllNodes(ParseAll(items, host).value) <= MAX_NODES
                           && depth + MaxLevels(ParseAll(items, host).value) <= MAX_DEPTH + 1)
    ensures args.Some? ==> args == ParseAll(items, host) && counter' == counter + AllNodes(args.value)
    decreases items, 1
  {
    hide Parse, Nodes, Levels;
    counter' := counter;
    if items == [] { return Some([]), counter'; }
    var first, rest;
    first, counter' := ValidateNode(items[0], depth, counter', host);
    if first.None? { return None, counter'; }
    rest, counter' := ValidateAll(items[1..], depth, counter', host);
    if rest.None? { return None, counter'; }
    args := Some([first.value] + rest.value);
  }

  lemma AtLeastOne(j: Json, host: Host)
    ensures Parse(j, host).Some? ==> Nodes(Parse(j, host).value) >= 1 && Levels(Parse(j, host).value) >= 1
  {
    hide Parse;
  }

  /** What parses is already written as the expression it parses to. */
  lemma {:induction false} ParsedIsRendered(j: Json, host: Host)
    ensures Parse(j, host).Some? ==> WellFormed(Parse(j, host).value, host) && Render(Parse(j, host).value) == j
    decreases j, 0
  {
    if Parse(j, host).Some? {
      var op := j.fields["op"].s;
      if op == "coalesce" || op == "concat" {
        ParsedAreRendered(j.fields["args"].items, host);
        assert j.fields == map["op" := Str(op), "args" := List(j.fields["args"].items)];
      } else if op != "literal" && op != "variable" {
        ParsedIsRendered(j.fields["arg"], host);
        assert j.fields == map["op" := Str(op), "arg" := j.fields["arg"]];
      }
    }
  }

  lemma {:induction false} ParsedAreRendered(items: seq<Json>, host: Host)
    ensures ParseAll(items, host).Some? ==>
      var args := ParseAll(items, host).value; RenderAll(args) == items && forall i | 0 <= i < |args| ::
        WellFormed(args[i], host)
    decreases items, 1
  {
    if items != [] && ParseAll(items, host).Some? {
      ParsedIsRendered(items[0], host);
      ParsedAreRendered(items[1..], host);
      hide Parse, Render, WellFormed;
      var args := ParseAll(items, host).value;
      assert args == [args[0]] + args[1..] && items == [items[0]] + items[1..];
    }
  }

  lemma UnaryNames(op: UnaryOp)
    ensures UnaryNamed(UnaryName(op)) == Some(op)
  {
  }

  /** Every well-formed expression is read back from what it is written as. */
  lemma {:induction false} RenderedParses(e: Expr, host: Host)
    requires WellFormed(e, host)
    ensures Parse(Render(e), host) == Some(e)
    decreases e, 0
  {
    match e
    case Literal(_) =>
    case Variable(_) =>
    case Coalesce(args) => RenderedAllParse(args, host);
    case Concat(args) => RenderedAllParse(args, host);
    case Unary(op, arg) =>
      RenderedParses(arg, host);
      hide WellFormed;
      UnaryNames(op);
  }

  lemma {:induction false} RenderedAllParse(args: seq<Expr>, host: Host)
    requires forall i | 0 <= i < |args| :: WellFormed(args[i], host)
    ensures ParseAll(RenderAll(args), host) == Some(args)
    decreases args, 1
  {
    if args != [] {
      RenderedParses(args[0], host);
      RenderedAllParse(args[1..], host);
      hide Parse, Render;
      var items := RenderAll(args);
      assert items[0] == Render(args[0]) && items[1..] == RenderAll(args[1..]);
      assert args == [args[0]] + args[1..];
    }
  }

  lemma {:induction false} NestsIff(j: Json, d: nat)
    ensures NestsWithin(j, d) <==> Nesting(j) <= d
    decreases j, 1, 0
  {
    match j
    case List(items) => ItemsNestIff(items, d);
    case Obj(fields) => FieldsNestIff(j, fields.Keys, d);
    case _ =>
  }

  lemma {:induction false} ItemsNestIff(items: seq<Json>, d: nat)
    ensures (forall i | 0 <= i < |items| :: d > 0 && NestsWithin(items[i], d - 1)) <==> ItemsNesting(items) <= d
    decreases items, 0, 0
  {
    hide Nesting, NestsWithin;
    if items != [] {
      if d > 0 { NestsIff(items[0], d - 1); }
      ItemsNestIff(items[1..], d);
      assert forall i | 1 <= i < |items| :: items[i] == items[1..][i - 1];
    }
  }

  lemma {:induction false} FieldsNestIff(j: Json, keys: set<string>, d: nat)
    requires j.Obj? && keys <= j.fields.Keys
    ensures (forall k | k in keys :: d > 0 && NestsWithin(j.fields[k], d - 1)) <==> FieldsNesting(j, keys) <= d
    decreases j, 0, |keys|
  {
    hide Nesting, NestsWithin;
    if keys != {} {
      var k :| k in keys && FieldsNesting(j, keys) == Max(1 + Nesting(j.fields[k]), FieldsNesting(j, keys - {k}));
      if d > 0 { NestsIff(j.fields[k], d - 1); }
      var rest := keys - {k};
      var first, others := 1 + Nesting(j.fields[k]), FieldsNesting(j, rest);
      assert FieldsNesting(j, keys) == Max(first, others);
      FieldsNestIff(j, rest, d);
      assert keys == rest + {k};
      if FieldsNesting(j, keys) <= d {
        forall q | q in keys
          ensures d > 0 && NestsWithin(j.fields[q], d - 1)
        {
          assert q == k || q in rest;
        }
      } else if forall q | q in keys :: d > 0 && NestsWithin(j.fields[q], d - 1) {
        assert k in keys;
        assert forall q | q in rest :: q in keys;
      }
    }
  }

  lemma TaggedNests(op: string, key: string, value: Json, d: nat)
    requires key != "op"
    ensures NestsWithin(Obj(map["op" := Str(op), key := value]), d) <==> d >= 1 && NestsWithin(value, d - 1)
  {
    var fields := map["op" := Str(op), key := value];
    assert fields[key] == value && "op" in fields;
  }

  /** The nesting of an expression's document is its cost. */
  lemma {:induction false} NestingIsCost(e: Expr, d: nat)
    ensures NestsWithin(Render(e), d) <==> Cost(e) <= d
    decreases e, 1
  {
    hide NestsWithin, Nesting;
    match e
    case Literal(value) =>
      TaggedNests("literal", "value", value, d);
      if d >= 1 { NestsIff(value, d - 1); }
    case Variable(id) =>
      TaggedNests("variable", "id", Str(id), d);
      if d >= 1 { ScalarNests(Str(id), d - 1); }
    case Coalesce(args) =>
      TaggedNests("coalesce", "args", List(RenderAll(args)), d);
      if d >= 1 { ListNestingIsCost(args, d - 1); }
    case Concat(args) =>
      TaggedNests("concat", "args", List(RenderAll(args)), d);
      if d >= 1 { ListNestingIsCost(args, d - 1); }
    case Unary(op, arg) =>
      TaggedNests(UnaryName(op), "arg", Render(arg), d);
      if d >= 1 { NestingIsCost(arg, d - 1); }
  }

  lemma ScalarNests(j: Json, d: nat)
    requires !j.List? && !j.Obj?
    ensures NestsWithin(j, d)
  {
  }

  lemma ListNestsCons(item: Json, items: seq<Json>, d: nat)
    ensures NestsWithin(List([item] + items), d) <==> d > 0 && NestsWithin(item, d - 1) && NestsWithin(List(items), d)
  {
    var all := [item] + items;
    assert all[0] == item && forall i | 0 <= i < |items| :: all[i + 1] == items[i];
    if d > 0 && NestsWithin(item, d - 1) && NestsWithin(List(items), d) {
      assert forall i | 0 < i < |all| :: all[i] == items[i - 1];
    }
  }

  lemma {:induction false} ListNestingIsCost(args: seq<Expr>, d: nat)
    ensures NestsWithin(List(RenderAll(args)), d) <==> ListCost(args) <= d
    decreases args, 0
  {
    if args == [] {
      assert RenderAll(args) == [];
    } else {
      hide NestsWithin, Cost, Render;
      ListNestsCons(Render(args[0]), RenderAll(args[1..]), d);
      if d > 0 { NestingIsCost(args[0], d - 1); }
      ListNestingIsCost(args[1..], d);
    }
  }

  /** So the recursion limit never decides: the tree has no more levels than it costs. */
  lemma {:induction false} LevelsWithinCost(e: Expr)
    ensures Levels(e) <= Cost(e)
    decreases e, 0
  {
    match e
    case Literal(_) =>
    case Variable(_) =>
    case Coalesce(args) => ListLevelsWithinCost(args);
    case Concat(args) => ListLevelsWithinCost(args);
    case Unary(_, arg) => LevelsWithinCost(arg);
  }

  lemma {:induction false} ListLevelsWithinCost(args: seq<Expr>)
    ensures MaxLevels(args) <= ListCost(args)
    decreases args, 1
  {
    if args != [] {
      LevelsWithinCost(args[0]);
      ListLevelsWithinCost(args[1..]);
    }
  }

  /** `validate_expression`.  It accepts exactly the documents that some admissible expression
      is written as and returns that expression, unchanged. */
  method ValidateExpression(j: Json, host: Host) returns (e: Option<Expr>)
    ensures e.Some? ==> Render(e.value) == j && Admissible(e.value, host)
    ensures e.None? ==> forall d | Admissible(d, host) :: Render(d) != j
  {
    hide Parse, Nodes, Levels, WellFormed, Render, NestsWithin, Cost;
    var counter;
    e, counter := ValidateNode(j, 0, 0, host);
    ParsedIsRendered(j, host);
    if e.Some? {
      NestingIsCost(e.value, MAX_DEPTH);
      if !(NestsWithin(Render(e.value), MAX_DEPTH) && host.bytes(Render(e.value)) <= MAX_BYTES) { e := None; }
    }
    forall d | Admissible(d, host) && Render(d) == j
      ensures e.Some?
    {
      RenderedParses(d, host);
      LevelsWithinCost(d);
      NestingIsCost(d, MAX_DEPTH);
    }
  }

  /** Which expressions the recursion limit allows and the nesting limit refuses. */
  lemma NestingLimitDecides(e: Expr)
    ensures NestsWithin(Render(e), MAX_DEPTH) ==> Levels(e) <= MAX_DEPTH + 1
    ensures Levels(e) <= MAX_DEPTH + 1 && !NestsWithin(Render(e), MAX_DEPTH) <==> Levels(e) <= MAX_DEPTH + 1 <= Cost(e)
  {
    hide NestsWithin, Cost, Levels;
    NestingIsCost(e, MAX_DEPTH);
    LevelsWithinCost(e);
  }

  /** Literals are scalars and argument lists are not empty, throughout. */
  predicate Simple(e: Expr)
    decreases e
  {
    match e
    case Literal(value) => !value.List? && !value.Obj?
    case Variable(_) => true
    case Coalesce(args) => args != [] && forall i | 0 <= i < |args| :: Simple(args[i])
    case Concat(args) => args != [] && forall i | 0 <= i < |args| :: Simple(args[i])
    case Unary(_, arg) => Simple(arg)
  }

  /** The operators that take an argument list on the path that counts, as far as possible. */
  function ListOperators(e: Expr): nat
    decreases e, 0
  {
    match e
    case Coalesce(args) => 1 + MostListOperators(args)
    case Concat(args) => 1 + MostListOperators(args)
    case Unary(_, arg) => ListOperators(arg)
    case _ => 0
  }

  function MostListOperators(args: seq<Expr>): nat
    decreases args, 1
  {
    if args == [] then 0 else Max(ListOperators(args[0]), MostListOperators(args[1..]))
  }

  /** The price of argument lists: a simple expression costs at least what its levels do, and
      at most one more for each argument list nested in another. */
  lemma {:induction false} CostOfLists(e: Expr)
    requires Simple(e)
    ensures Levels(e) <= Cost(e) <= Levels(e) + ListOperators(e)
    decreases e, 0
  {
    match e
    case Literal(_) =>
    case Variable(_) =>
    case Coalesce(args) => CostOfArguments(args);
    case Concat(args) => CostOfArguments(args);
    case Unary(_, arg) => CostOfLists(arg);
  }

  lemma {:induction false} CostOfArguments(args: seq<Expr>)
    requires args != [] && forall i | 0 <= i < |args| :: Simple(args[i])
    ensures 1 + MaxLevels(args) <= ListCost(args) <= 1 + MaxLevels(args) + MostListOperators(args)
    decreases args, 1
  {
    hide Simple;
    CostOfLists(args[0]);
    if |args| > 1 { CostOfArguments(args[1..]); }
  }

  /** `n` coalesces around a variable. */
  function Chain(id: string, n: nat): Expr {
    if n == 0 then Variable(id) else Coalesce([Chain(id, n - 1)])
  }

  lemma {:induction false} ChainCosts(id: string, n: nat)
    ensures Cost(Chain(id, n)) == 2 * n + 1 && Levels(Chain(id, n)) == n + 1 == Nodes(Chain(id, n))
  {
    if n > 0 {
      ChainCosts(id, n - 1);
      var args := [Chain(id, n - 1)];
      assert args[1..] == [] && ListCost([]) == 0 && MaxLevels([]) == 0 && AllNodes([]) == 0;
      assert ListCost(args) == Max(1 + Cost(args[0]), ListCost(args[1..]));
      assert MaxLevels(args) == Levels(args[0]);
      assert AllNodes(args) == Nodes(args[0]) + AllNodes(args[1..]);
    }
  }

  lemma {:induction false} ChainWellFormed(id: string, n: nat, host: Host)
    ensures WellFormed(Chain(id, n), host) <==> host.isId(id)
  {
    if n > 0 {
      ChainWellFormed(id, n - 1, host);
      assert [Chain(id, n - 1)][0] == Chain(id, n - 1);
    }
  }

  /** The gap in numbers: of the argument lists nested in each other that the recursion limit
      allows, sixteen deep, validation admits those up to seven deep. */
  lemma SevenNestedLists(id: string, n: nat, host: Host)
    requires host.isId(id) && host.bytes(Render(Chain(id, n))) <= MAX_BYTES
    ensures Admissible(Chain(id, n), host) <==> n <= 7
    ensures Levels(Chain(id, n)) <= MAX_DEPTH + 1 <==> n <= 16
  {
    ChainCosts(id, n);
    ChainWellFormed(id, n, host);
  }
}
