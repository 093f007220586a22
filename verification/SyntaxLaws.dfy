/** Where validation of conditions and expressions draws its lines. */
module SyntaxLaws {
  import opened Wrappers
  import opened Json
  import opened Conditions
  import opened ConditionSyntax
  import opened ConditionLaws
  import opened Preview
  import Glob
  import E = Expressions
  import ES = ExpressionSyntax

  /** How the operators are written. */
  lemma OperatorNames()
    ensures OpNamed("equals") == Some(Equals) && OpNamed("contains") == Some(Contains)
    ensures OpNamed("starts_with") == Some(StartsWith) && OpNamed("matches_glob") == Some(MatchesGlob)
    ensures OpNamed("in") == Some(In) && OpNamed("gt") == Some(Gt) && OpNamed("gte") == Some(Gte)
    ensures OpNamed("lt") == Some(Lt) && OpNamed("lte") == Some(Lte)
    ensures ES.UnaryNamed("to_number") == Some(E.ToNumber) && ES.UnaryNamed("to_string") == Some(E.ToText)
    ensures ES.UnaryNamed("to_boolean") == Some(E.ToBoolean) && ES.UnaryNamed("json_parse") == Some(E.JsonParse)
    ensures ES.UnaryNamed("length") == Some(E.Length)
  {
  }

  /** A document means what its operator says. */
  lemma WrittenConditions(cs: seq<Condition>, c: Condition, path: string, host: Host)
    requires ValidPath(path, host) && WellFormed(c, host) && forall i | 0 <= i < |cs| :: WellFormed(cs[i], host)
    ensures Parse(Obj(map["op" := Str("all"), "conditions" := List(RenderAll(cs))]), host) == Some(All(cs))
    ensures Parse(Obj(map["op" := Str("any"), "conditions" := List(RenderAll(cs))]), host) == Some(Any(cs))
    ensures Parse(Obj(map["op" := Str("not"), "conditions" := List([Render(c)])]), host) == Some(Not(c))
    ensures Parse(Obj(map["op" := Str("exists"), "path" := Str(path)]), host) == Some(Exists(path))
  {
    RenderedParses(All(cs), host);
    RenderedParses(Any(cs), host);
    RenderedParses(Not(c), host);
    RenderedParses(Exists(path), host);
    hide Parse, ValidPath;
  }

  function Copies<T>(n: nat, x: T): (xs: seq<T>)
    ensures |xs| == n && forall i | 0 <= i < n :: xs[i] == x
  {
    if n == 0 then [] else [x] + Copies(n - 1, x)
  }

  lemma {:induction false} CopiesSize(n: nat, path: string)
    ensures AllNodes(Copies(n, Exists(path))) == n
    ensures MaxLevels(Copies(n, Exists(path))) == if n == 0 then 0 else 1
  {
    if n > 0 {
      CopiesSize(n - 1, path);
      assert Copies(n, Exists(path))[1..] == Copies(n - 1, Exists(path));
    }
  }

  /** A conjunction may have up to 511 simple parts. */
  lemma WideConditions(n: nat, path: string, host: Host)
    requires ValidPath(path, host) && host.bytes(Render(All(Copies(n, Exists(path))))) <= 65536
    ensures Admissible(All(Copies(n, Exists(path))), host) <==> n <= 511
  {
    var cs := Copies(n, Exists(path));
    CopiesSize(n, path);
    assert WellFormed(Exists(path), host);
    assert WellFormed(All(cs), host) && Nodes(All(cs)) == n + 1 && Levels(All(cs)) <= 2;
    hide ValidPath, Render, WellFormed, Nodes, Levels;
  }

  function Nots(n: nat, path: string): Condition {
    if n == 0 then Exists(path) else Not(Nots(n - 1, path))
  }

  lemma {:induction false} NotsSize(n: nat, path: string, host: Host)
    requires ValidPath(path, host)
    ensures Nodes(Nots(n, path)) == Levels(Nots(n, path)) == n + 1 && WellFormed(Nots(n, path), host)
  {
    hide ValidPath;
    if n > 0 { NotsSize(n - 1, path, host); }
  }

  /** Operators may be nested 32 deep. */
  lemma DeepConditions(n: nat, path: string, host: Host)
    requires ValidPath(path, host) && host.bytes(Render(Nots(n, path))) <= 65536
    ensures Admissible(Nots(n, path), host) <==> n <= 32
  {
    NotsSize(n, path, host);
    hide ValidPath, Render, WellFormed, Nodes, Levels;
  }

  /** Paths begin with one of the parts that an event's context has, are at most 256 characters
      long, and have no empty segment and no double underscore. */
  lemma ValidPathsStart(path: string, host: Host, event: Event, consent: map<string, bool>,
                        variables: map<string, Json>)
    requires ValidPath(path, host)
    ensures Split(path)[0] in ConditionContext(event, consent, variables).fields && 0 < |path| <= 256
    ensures forall part | part in Split(path) :: part != "" && !IsSubstring("__", part)
  {
    hide Split, EventCore;
    forall part | part in Split(path)
      ensures part != "" && !IsSubstring("__", part)
    {
      var i :| 0 <= i < |Split(path)| && Split(path)[i] == part;
      assert SafeSegment(part, host);
      NoDunder(part, host);
    }
  }

  lemma NoDunder(part: string, host: Host)
    requires SafeSegment(part, host)
    ensures !IsSubstring("__", part)
  {
    forall i | 0 <= i <= |part|
      ensures !IsPrefix("__", part[i..])
    {
      if i < |part| - 1 {
        assert !(part[i] == '_' && part[i + 1] == '_');
        assert part[i..][..2] == [part[i], part[i + 1]];
      }
    }
  }

  /** Each part of the context is one that paths may begin with. */
  lemma ContextIsReachable(event: Event, consent: map<string, bool>, variables: map<string, Json>, name: string)
    requires name in ConditionContext(event, consent, variables).fields
    ensures name in NAMESPACES
  {
  }

  /** An ordering or a text comparison is given a value that can make it true, or refused; `in`
      takes lists, `contains` texts and lists, and `equals` anything. */
  lemma ValuesAdmitted(op: Op, value: Json)
    ensures op.Gt? || op.Gte? || op.Lt? || op.Lte? || op.StartsWith? || op.MatchesGlob? ==>
      (ValidValue(op, value) <==> exists actual :: Test(op, actual, value))
    ensures ValidValue(Equals, value) && (ValidValue(In, value) <==> value.List?)
    ensures ValidValue(Contains, value) <==> value.Str? || value.List?
  {
    if op.Gt? || op.Gte? || op.Lt? || op.Lte? {
      if value.Int? || value.Float? { SomeNumberHolds(op, value); }
      forall actual | !(value.Int? || value.Float?)
        ensures !Test(op, actual, value)
      {
        OnlyNumbersAreOrdered(op, actual, value);
      }
    } else if op.StartsWith? || op.MatchesGlob? {
      TextHolds(op, value);
    }
    hide Test;
  }

  lemma SomeNumberHolds(op: Op, value: Json)
    requires (op.Gt? || op.Gte? || op.Lt? || op.Lte?) && (value.Int? || value.Float?)
    ensures exists actual :: Test(op, actual, value)
  {
    var r := if value.Int? then value.i as real else value.r;
    XResolves(Float(r + 1.0));
    XResolves(Float(r - 1.0));
    hide ResolvePath;
    assert Test(op, Float(r + 1.0), value) || Test(op, Float(r - 1.0), value);
  }

  lemma TextHolds(op: Op, value: Json)
    requires op.StartsWith? || op.MatchesGlob?
    ensures value.Str? <==> exists actual :: Test(op, actual, value)
  {
    if value.Str? {
      XResolves(value);
      Glob.EveryPatternMatchesItself(value.s);
      hide ResolvePath, Glob.Accepts;
      assert value.s[..|value.s|] == value.s;
      assert Test(op, value, value);
    } else {
      forall actual
        ensures !Test(op, actual, value)
      {
        XResolves(actual);
        hide ResolvePath;
      }
    }
  }

  lemma {:induction false} VariablesSize(n: nat, id: string)
    ensures ES.AllNodes(Copies(n, E.Variable(id))) == n
  {
    if n > 0 {
      VariablesSize(n - 1, id);
      assert Copies(n, E.Variable(id))[1..] == Copies(n - 1, E.Variable(id));
    }
  }

  /** An argument list has one to 64 members. */
  lemma WideExpressions(n: nat, id: string, host: ES.Host)
    requires host.isId(id)
    ensures ES.WellFormed(E.Coalesce(Copies(n, E.Variable(id))), host) <==> 1 <= n <= 64
    ensures ES.WellFormed(E.Concat(Copies(n, E.Variable(id))), host) <==> 1 <= n <= 64
  {
  }

  /** An expression has up to 128 nodes: two lists of variables beside each other may have 125
      members together. */
  lemma LargeExpressions(m: nat, n: nat, id: string)
    ensures var a, b := E.Concat(Copies(m, E.Variable(id))), E.Concat(Copies(n, E.Variable(id)));
      ES.Nodes(E.Coalesce([a, b])) == m + n + 3
    ensures m + n + 3 <= ES.MAX_NODES <==> m + n <= 125
  {
    VariablesSize(m, id);
    VariablesSize(n, id);
    var a, b := E.Concat(Copies(m, E.Variable(id))), E.Concat(Copies(n, E.Variable(id)));
    assert [a, b][1..] == [b] && [b][1..] == [];
    assert ES.AllNodes([b]) == ES.Nodes(b);
    assert ES.AllNodes([a, b]) == ES.Nodes(a) + ES.AllNodes([b]);
  }

  lemma {:induction false} CopiesOf(n: nat, c: char, part: string)
    requires part == Copies(n, c) && c != '.'
    ensures '.' !in part
  {
  }

  lemma SafeEvent(host: Host)
    requires forall c | c in "event" :: host.alphanumeric(c)
    ensures SafeSegment("event", host)
  {
    var part := "event";
    assert forall k | 0 <= k < |part| :: part[k] in part;
  }

  /** The limit on paths: a segment below `event` may have up to 250 characters. */
  lemma LongPaths(n: nat, host: Host)
    requires host.alphanumeric('a') && forall c | c in "event" :: host.alphanumeric(c)
    ensures ValidPath("event" + "." + Copies(n, 'a'), host) <==> 1 <= n <= 250
  {
    var part := Copies(n, 'a');
    CopiesOf(n, 'a', part);
    assert '.' !in "event";
    SplitLast("event", part);
    SplitWhole("event");
    hide Split;
    assert Split("event" + "." + part) == ["event", part];
    var path, parts := "event" + "." + part, ["event", part];
    SafeEvent(host);
    assert SafeSegment(part, host) <==> n > 0;
    assert |path| == n + 6 && parts[0] == "event" && parts[1] == part;
    hide SafeSegment;
    assert (forall i | 0 <= i < |parts| :: SafeSegment(parts[i], host)) <==> n > 0;
  }

  /** The limit on size: a document of up to 32768 bytes. */
  lemma LargeDocuments(id: string, host: ES.Host)
    requires host.isId(id)
    ensures ES.Admissible(E.Variable(id), host) <==> host.bytes(ES.Render(E.Variable(id))) <= 32768
  {
  }
}
