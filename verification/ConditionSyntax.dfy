/** Reading a condition AST out of JSON: within limits, and without rewriting anything. */
module ConditionSyntax {
  import opened Wrappers
  import opened Json
  import opened Conditions

  const MAX_DEPTH: nat := 32
  const MAX_NODES: nat := 512
  const MAX_BYTES: nat := 65536
  const MAX_PATH_LENGTH: nat := 256
  const NAMESPACES: set<string> := {"event", "page", "dom", "data_layer", "consent", "variables"}

  /** What is left to the host: which characters are letters or digits, and the size of a
      document as canonical JSON. */
  datatype Host = Host(alphanumeric: char -> bool, bytes: Json -> nat)

  predicate SafeSegment(part: string, host: Host) {
    && part != "" && (forall k | 0 <= k < |part| - 1 :: !(part[k] == '_' && part[k + 1] == '_'))
    && forall k | 0 <= k < |part| :: host.alphanumeric(part[k]) || part[k] == '_' || part[k] == '-'
  }

  /** `_validate_path`. */
  predicate ValidPath(path: string, host: Host) {
    && 0 < |path| <= MAX_PATH_LENGTH && Split(path)[0] in NAMESPACES
    && forall i | 0 <= i < |Split(path)| :: SafeSegment(Split(path)[i], host)
  }

  /** `_validate_value`. */
  predicate ValidValue(op: Op, value: Json) {
    match op
    case Equals => true
    case StartsWith => value.Str?
    case MatchesGlob => value.Str?
    case In => value.List?
    case Contains => value.Str? || value.List?
    case _ => IsNumber(value)
  }

  function OpName(op: Op): string {
    match op
    case Equals => "equals"
    case Contains => "contains"
    case StartsWith => "starts_with"
    case MatchesGlob => "matches_glob"
    case In => "in"
    case Gt => "gt"
    case Gte => "gte"
    case Lt => "lt"
    case Lte => "lte"
  }

  function OpNamed(name: string): Option<Op> {
    if name == "equals" then Some(Equals)
    else if name == "contains" then Some(Contains)
    else if name == "starts_with" then Some(StartsWith)
    else if name == "matches_glob" then Some(MatchesGlob)
    else if name == "in" then Some(In)
    else if name == "gt" then Some(Gt)
    else if name == "gte" then Some(Gte)
    else if name == "lt" then Some(Lt)
    else if name == "lte" then Some(Lte)
    else None
  }

  predicate Logical(op: string) { op == "all" || op == "any" || op == "not" }

  function Build(op: string, children: seq<Condition>): Condition
    requires Logical(op) && (op == "not" ==> |children| == 1)
  {
    if op == "all" then All(children) else if op == "any" then Any(children) else Not(children[0])
  }

  /** The document a condition is written as. */
  function Render(c: Condition): Json
    decreases c, 0
  {
    match c
    case All(cs) => Obj(map["op" := Str("all"), "conditions" := List(RenderAll(cs))])
    case Any(cs) => Obj(map["op" := Str("any"), "conditions" := List(RenderAll(cs))])
    case Not(child) => Obj(map["op" := Str("not"), "conditions" := List([Render(child)])])
    case Exists(path) => Obj(map["op" := Str("exists"), "path" := Str(path)])
    case Compare(op, path, value) => Obj(map["op" := Str(OpName(op)), "path" := Str(path), "value" := value])
  }

  function RenderAll(cs: seq<Condition>): seq<Json>
    decreases cs, 1
  {
    if cs == [] then [] else [Render(cs[0])] + RenderAll(cs[1..])
  }

  /** Paths and values are as validation wants them, throughout. */
  predicate WellFormed(c: Condition, host: Host)
    decreases c
  {
    match c
    case All(cs) => forall i | 0 <= i < |cs| :: WellFormed(cs[i], host)
    case Any(cs) => forall i | 0 <= i < |cs| :: WellFormed(cs[i], host)
    case Not(child) => WellFormed(child, host)
    case Exists(path) => ValidPath(path, host)
    case Compare(op, path, value) => ValidPath(path, host) && ValidValue(op, value)
  }

  function Nodes(c: Condition): nat
    decreases c, 0
  {
    match c
    case All(cs) => 1 + AllNodes(cs)
    case Any(cs) => 1 + AllNodes(cs)
    case Not(child) => 1 + Nodes(child)
    case _ => 1
  }

  function AllNodes(cs: seq<Condition>): nat
    decreases cs, 1
  {
    if cs == [] then 0 else Nodes(cs[0]) + AllNodes(cs[1..])
  }

  /** The levels of the tree; a leaf has one. */
  function Levels(c: Condition): nat
    decreases c, 0
  {
    match c
    case All(cs) => 1 + MaxLevels(cs)
    case Any(cs) => 1 + MaxLevels(cs)
    case Not(child) => 1 + Levels(child)
    case _ => 1
  }

  function MaxLevels(cs: seq<Condition>): nat
    decreases cs, 1
  {
    if cs == [] then 0
    else
      var first, rest := Levels(cs[0]), MaxLevels(cs[1..]);
      if first > rest then first else rest
  }

  /** What validation admits. */
  predicate Admissible(c: Condition, host: Host) {
    && WellFormed(c, host) && Nodes(c) <= MAX_NODES && Levels(c) <= MAX_DEPTH + 1
    && host.bytes(Render(c)) <= MAX_BYTES
  }

  /** `_validate` without its limits. */
  function Parse(j: Json, host: Host): Option<Condition>
    decreases j, 0
  {
    if !j.Obj? || "op" !in j.fields || !j.fields["op"].Str? then None
    else
      var op, fields := j.fields["op"].s, j.fields;
      if Logical(op) then
        if fields.Keys != {"op", "conditions"} || !fields["conditions"].List? then None
        else if op == "not" && |fields["conditions"].items| != 1 then None
        else
          var children := ParseAll(fields["conditions"].items, host);
          if children.None? then None else Some(Build(op, children.value))
      else if op == "exists" then
        if fields.Keys != {"op", "path"} || !fields["path"].Str? || !ValidPath(fields["path"].s, host) then None
        else Some(Exists(fields["path"].s))
      else if OpNamed(op).Some? then
        if fields.Keys != {"op", "path", "value"} || !fields["path"].Str?
           || !ValidPath(fields["path"].s, host) then None
        else if !ValidValue(OpNamed(op).value, fields["value"]) then None
        else Some(Compare(OpNamed(op).value, fields["path"].s, fields["value"]))
      else None
  }

  function ParseAll(items: seq<Json>, host: Host): (cs: Option<seq<Condition>>)
    ensures cs.Some? ==> |cs.value| == |items|
    decreases items, 1
  {
    if items == [] then Some([])
    else
      var first, rest := Parse(items[0], host), ParseAll(items[1..], host);
      if first.Some? && rest.Some? then Some([first.value] + rest.value) else None
  }

  /** `_validate`: the counter is shared by the whole tree. */
  method ValidateNode(j: Json, depth: nat, counter: nat, host: Host) returns (c: Option<Condition>, counter': nat)
    requires counter <= MAX_NODES && depth <= MAX_DEPTH + 1
    ensures c.Some? <==> (Parse(j, host).Some? && counter + Nodes(Parse(j, host).value) <= MAX_NODES
                        && depth + Levels(Parse(j, host).value) <= MAX_DEPTH + 1)
    ensures c.Some? ==> c == Parse(j, host) && counter' == counter + Nodes(c.value)
    decreases j, 0
  {
    hide ValidPath, ValidValue, OpNamed;
    counter' := counter + 1;
    AtLeastOne(j, host);
    if counter' > MAX_NODES { return None, counter'; }
    if depth > MAX_DEPTH { return None, counter'; }
    if !j.Obj? || "op" !in j.fields || !j.fields["op"].Str? { return None, counter'; }
    var op, fields := j.fields["op"].s, j.fields;
    if Logical(op) {
      if fields.Keys != {"op", "conditions"} || !fields["conditions"].List? { return None, counter'; }
      var items := fields["conditions"].items;
      if op == "not" && |items| != 1 { return None, counter'; }
      var children;
      children, counter' := ValidateAll(items, depth + 1, counter', host);
      if children.None? { return None, counter'; }
      c := Some(Build(op, children.value));
    } else if op == "exists" {
      if fields.Keys != {"op", "path"} || !fields["path"].Str?
         || !ValidPath(fields["path"].s, host) { return None, counter'; }
      c := Some(Exists(fields["path"].s));
    } else if OpNamed(op).Some? {
      if fields.Keys != {"op", "path", "value"} || !fields["path"].Str?
         || !ValidPath(fields["path"].s, host) { return None, counter'; }
      if !ValidValue(OpNamed(op).value, fields["value"]) { return None, counter'; }
      c := Some(Compare(OpNamed(op).value, fields["path"].s, fields["value"]));
    } else {
      c := None;
    }
  }

  method ValidateAll(items: seq<Json>, depth: nat, counter: nat, host: Host)
    returns (cs: Option<seq<Condition>>, counter': nat)
    requires counter <= MAX_NODES && depth <= MAX_DEPTH + 1
    ensures cs.Some? <==> (ParseAll(items, host).Some? && counter + AllNodes(ParseAll(items, host).value) <= MAX_NODES
                         && depth + MaxLevels(ParseAll(items, host).value) <= MAX_DEPTH + 1)
    ensures cs.Some? ==> cs == ParseAll(items, host) && counter' == counter + AllNodes(cs.value)
    decreases items, 1
  {
    hide Parse, Nodes, Levels;
    counter' := counter;
    if items == [] { return Some([]), counter'; }
    var first, rest;
    first, counter' := ValidateNode(items[0], depth, counter', host);
    if first.None? { return None, counter'; }
    rest, counter' := ValidateAll(items[1..], depth, counter', host);
    if rest.None? { return None, counter'; }
    cs := Some([first.value] + rest.value);
  }

  lemma AtLeastOne(j: Json, host: Host)
    ensures Parse(j, host).Some? ==> Nodes(Parse(j, host).value) >= 1 && Levels(Parse(j, host).value) >= 1
  {
    hide Parse;
  }

  /** What parses is already written as the condition it parses to. */
  lemma {:induction false} ParsedIsRendered(j: Json, host: Host)
    ensures Parse(j, host).Some? ==> WellFormed(Parse(j, host).value, host) && Render(Parse(j, host).value) == j
    decreases j, 0
  {
    hide ValidPath, ValidValue;
    if Parse(j, host).Some? && Logical(j.fields["op"].s) {
      var op, items := j.fields["op"].s, j.fields["conditions"].items;
      ParsedAreRendered(items, host);
      hide WellFormed;
      assert j.fields == map["op" := Str(op), "conditions" := List(items)];
      if op == "not" { assert RenderAll([Parse(items[0], host).value]) == [Render(Parse(items[0], host).value)]; }
    }
  }

  lemma {:induction false} ParsedAreRendered(items: seq<Json>, host: Host)
    ensures ParseAll(items, host).Some? ==>
      var cs := ParseAll(items, host).value; RenderAll(cs) == items && forall i | 0 <= i < |cs| ::
        WellFormed(cs[i], host)
    decreases items, 1
  {
    if items != [] && ParseAll(items, host).Some? {
      ParsedIsRendered(items[0], host);
      ParsedAreRendered(items[1..], host);
      hide Parse, Render, WellFormed;
      var cs := ParseAll(items, host).value;
      assert cs == [cs[0]] + cs[1..] && items == [items[0]] + items[1..];
    }
  }

  /** Every well-formed condition is read back from what it is written as. */
  lemma {:induction false} RenderedParses(c: Condition, host: Host)
    requires WellFormed(c, host)
    ensures Parse(Render(c), host) == Some(c)
    decreases c, 0
  {
    hide ValidPath, ValidValue;
    match c
    case All(cs) => RenderedAllParse(cs, host);
    case Any(cs) => RenderedAllParse(cs, host);
    case Not(child) =>
      RenderedParses(child, host);
      var items := [Render(child)];
      assert items[1..] == [] && ParseAll([], host) == Some([]);
      assert ParseAll(items, host) == Some([child] + []);
      assert [child] + [] == [child];
    case Exists(_) =>
    case Compare(op, _, _) => assert OpNamed(OpName(op)) == Some(op);
  }

  lemma {:induction false} RenderedAllParse(cs: seq<Condition>, host: Host)
    requires forall i | 0 <= i < |cs| :: WellFormed(cs[i], host)
    ensures ParseAll(RenderAll(cs), host) == Some(cs)
    decreases cs, 1
  {
    if cs != [] {
      RenderedParses(cs[0], host);
      RenderedAllParse(cs[1..], host);
      hide Parse, Render;
      var items := RenderAll(cs);
      assert items[0] == Render(cs[0]) && items[1..] == RenderAll(cs[1..]);
      assert cs == [cs[0]] + cs[1..];
    }
  }

  /** `validate_condition`.  It accepts exactly the documents that some admissible condition
      is written as, returns that condition, and leaves nothing to normalize: the accepted
      document is its own normal form, so validating it again accepts it again. */
  method ValidateCondition(j: Json, host: Host) returns (c: Option<Condition>)
    ensures c.Some? ==> Render(c.value) == j && Admissible(c.value, host)
    ensures c.None? ==> forall d | Admissible(d, host) :: Render(d) != j
  {
    hide Parse, Nodes, Levels, WellFormed, Render;
    var counter;
    c, counter := ValidateNode(j, 0, 0, host);
    ParsedIsRendered(j, host);
    if c.Some? && host.bytes(Render(c.value)) > MAX_BYTES { c := None; }
    forall d | Admissible(d, host) && Render(d) == j
      ensures c.Some?
    {
      RenderedParses(d, host);
    }
  }
}
