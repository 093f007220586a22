/** What conditions mean: laws that tie operators together. */
module ConditionLaws {
  import opened Wrappers
  import opened Json
  import opened Conditions
  import opened Preview
  import Diff

  /** The condition's operator `op` with this value, at a path that resolves to `actual`. */
  predicate Test(op: Op, actual: Json, value: Json) {
    Evaluate(Compare(op, "x", value), Obj(map["x" := actual]))
  }

  lemma XResolves(actual: Json)
    ensures ResolvePath(Obj(map["x" := actual]), "x") == Some(actual)
  {
    assert Split("x") == ["x"] && ["x"][1..] == [];
    assert ResolveParts(actual, []) == Some(actual);
  }

  /** It is the same at any other path that does, in any context. */
  lemma TestAnywhere(op: Op, path: string, context: Json, actual: Json, value: Json)
    requires ResolvePath(context, path) == Some(actual)
    ensures Evaluate(Compare(op, path, value), context) == Test(op, actual, value)
  {
    XResolves(actual);
    hide ResolvePath, Compares;
  }

  /** A path that resolves to nothing satisfies no comparison. */
  lemma MissingSatisfiesNothing(op: Op, path: string, context: Json, value: Json)
    requires ResolvePath(context, path) == None
    ensures !Evaluate(Compare(op, path, value), context) && !Evaluate(Exists(path), context)
  {
    hide ResolvePath;
  }

  /** The four orderings of numbers are one order: each negates its opposite, exactly one of
      less, equal and greater holds, and the weak ones add equality. */
  lemma OrderLaws(path: string, context: Json, a: Json, b: Json)
    requires ResolvePath(context, path) == Some(a) && (a.Int? || a.Float?) && (b.Int? || b.Float?)
    ensures Evaluate(Not(Compare(Gt, path, b)), context) == Evaluate(Compare(Lte, path, b), context)
    ensures Evaluate(Not(Compare(Lt, path, b)), context) == Evaluate(Compare(Gte, path, b), context)
    ensures Evaluate(Compare(Gte, path, b), context) ==
      Evaluate(Any([Compare(Gt, path, b), Compare(Equals, path, b)]), context)
    ensures Evaluate(Compare(Lte, path, b), context) ==
      Evaluate(Any([Compare(Lt, path, b), Compare(Equals, path, b)]), context)
    ensures !Evaluate(All([Compare(Gt, path, b), Compare(Lt, path, b)]), context)
    ensures Evaluate(Compare(Equals, path, b), context) ==
      Evaluate(All([Compare(Gte, path, b), Compare(Lte, path, b)]), context)
  {
    hide ResolvePath;
    EvaluateAny(Compare(Gt, path, b), Compare(Equals, path, b), context);
    EvaluateAny(Compare(Lt, path, b), Compare(Equals, path, b), context);
    EvaluateAll(Compare(Gt, path, b), Compare(Lt, path, b), context);
    EvaluateAll(Compare(Gte, path, b), Compare(Lte, path, b), context);
  }

  lemma EvaluateAny(c: Condition, d: Condition, context: Json)
    ensures Evaluate(Any([c, d]), context) == (Evaluate(c, context) || Evaluate(d, context))
  {
    hide ResolvePath, Compares;
    var cs := [c, d];
    assert cs[0] == c && cs[1] == d;
  }

  lemma EvaluateAll(c: Condition, d: Condition, context: Json)
    ensures Evaluate(All([c, d]), context) == (Evaluate(c, context) && Evaluate(d, context))
  {
    hide ResolvePath, Compares;
    var cs := [c, d];
    assert cs[0] == c && cs[1] == d;
  }

  /** Swapping the sides turns the order around, and the order is transitive. */
  lemma OrderDirection(a: Json, b: Json, c: Json)
    requires (a.Int? || a.Float?) && (b.Int? || b.Float?) && (c.Int? || c.Float?)
    ensures Test(Gt, a, b) == Test(Lt, b, a) && Test(Gte, a, b) == Test(Lte, b, a)
    ensures Test(Gt, a, b) && Test(Gte, b, c) ==> Test(Gt, a, c)
    ensures Test(Gte, a, b) && Test(Gt, b, c) ==> Test(Gt, a, c)
    ensures Test(Equals, a, b) == Test(Equals, b, a)
  {
    XResolves(a);
    XResolves(b);
    hide ResolvePath;
  }

  /** And it is the order of the numbers written. */
  lemma OrderIsNumeric(m: int, n: int, r: real, t: real)
    ensures Test(Gt, Int(m), Int(n)) <==> m > n
    ensures Test(Gt, Float(r), Float(t)) <==> r > t
    ensures Test(Gt, Int(m), Float(r)) <==> m as real > r
  {
    XResolves(Int(m));
    XResolves(Float(r));
    hide ResolvePath;
  }

  /** Nothing else is ordered: not texts, not booleans, not null, lists or objects. */
  lemma OnlyNumbersAreOrdered(op: Op, a: Json, b: Json)
    requires op.Gt? || op.Gte? || op.Lt? || op.Lte?
    requires !(a.Int? || a.Float?) || !(b.Int? || b.Float?)
    ensures !Test(op, a, b)
  {
    XResolves(a);
    hide ResolvePath;
  }

  /** What `equals` accepts.  Scalars equal themselves only, except that an integer and a float
      of the same value are equal; in lists and objects of the same type booleans, integers
      and floats count as the numbers they are. */
  lemma EqualsIff(a: Json, b: Json)
    ensures Test(Equals, a, b) <==>
      match (a, b)
      case (Null, Null) => true
      case (Bool(x), Bool(y)) => x == y
      case (Int(x), Int(y)) => x == y
      case (Int(x), Float(y)) => x as real == y
      case (Float(x), Int(y)) => x == y as real
      case (Float(x), Float(y)) => x == y
      case (Str(x), Str(y)) => x == y
      case (List(_), List(_)) => Diff.NormalForm(a) == Diff.NormalForm(b)
      case (Obj(_), Obj(_)) => Diff.NormalForm(a) == Diff.NormalForm(b)
      case _ => false
  {
    XResolves(a);
    Diff.LooseEqualIffSameNormalForm(a, b);
    hide ResolvePath, LooseEqual, Diff.NormalForm;
    assert Test(Equals, a, b) == StrictEqual(a, b);
    StrictEqualCases(a, b);
  }

  lemma StrictEqualCases(a: Json, b: Json)
    ensures a.Str? && b.Str? ==> StrictEqual(a, b) == (a.s == b.s)
    ensures (a.List? && b.List?) || (a.Obj? && b.Obj?) ==> StrictEqual(a, b) == LooseEqual(a, b)
    ensures a.Null? || b.Null? || a.Bool? || b.Bool? ==> StrictEqual(a, b) == (a == b)
    ensures (a.Str? && !b.Str?) || (a.List? && !b.List?) || (a.Obj? && !b.Obj?) ==> !StrictEqual(a, b)
    ensures (b.Str? && !a.Str?) || (b.List? && !a.List?) || (b.Obj? && !a.Obj?) ==> !StrictEqual(a, b)
    ensures IsNumber(a) && IsNumber(b) ==> StrictEqual(a, b) == (NumberOf(a) == NumberOf(b))
  {
  }

  function EachEquals(path: string, items: seq<Json>): (cs: seq<Condition>)
    ensures |cs| == |items| && forall i | 0 <= i < |items| :: cs[i] == Compare(Equals, path, items[i])
  {
    seq(|items|, i requires 0 <= i < |items| => Compare(Equals, path, items[i]))
  }

  /** `in` is the disjunction of `equals` over the list. */
  lemma InIsAnyEquals(path: string, items: seq<Json>, context: Json)
    ensures Evaluate(Compare(In, path, List(items)), context) == Evaluate(Any(EachEquals(path, items)), context)
  {
    hide ResolvePath, StrictEqual;
    var cs := EachEquals(path, items);
    forall i | 0 <= i < |items|
      ensures Evaluate(cs[i], context) ==
        (ResolvePath(context, path).Some? && StrictEqual(ResolvePath(context, path).value, items[i]))
    {
    }
    if Evaluate(Any(cs), context) {
      var i :| 0 <= i < |cs| && Evaluate(cs[i], context);
      assert StrictEqual(ResolvePath(context, path).value, items[i]);
    }
    if Evaluate(Compare(In, path, List(items)), context) {
      var i :| 0 <= i < |items| && StrictEqual(ResolvePath(context, path).value, items[i]);
      assert Evaluate(cs[i], context);
    }
  }

  /** On texts `starts_with` and `contains` look for the value at the beginning and anywhere. */
  lemma TextLaws(a: string, b: string)
    ensures Test(StartsWith, Str(a), Str(b)) <==> exists rest: string :: a == b + rest
    ensures Test(Contains, Str(a), Str(b)) <==> exists before: string, rest: string :: a == before + b + rest
  {
    XResolves(Str(a));
    PrefixIff(a, b);
    SubstringIff(a, b);
    hide ResolvePath, IsPrefix, IsSubstring;
    assert Test(StartsWith, Str(a), Str(b)) == IsPrefix(b, a);
    assert Test(Contains, Str(a), Str(b)) == IsSubstring(b, a);
    hide *;
  }

  lemma PrefixIff(a: string, b: string)
    ensures IsPrefix(b, a) <==> exists rest: string :: a == b + rest
  {
    if IsPrefix(b, a) { assert a == b + a[|b|..]; }
    if rest: string :| a == b + rest { assert a[..|b|] == b; }
  }

  lemma SubstringIff(a: string, b: string)
    ensures IsSubstring(b, a) <==> exists before: string, rest: string :: a == before + b + rest
  {
    if IsSubstring(b, a) {
      var i :| 0 <= i <= |a| && IsPrefix(b, a[i..]);
      assert a[i..] == b + a[i..][|b|..];
      assert a == a[..i] + b + a[i..][|b|..];
    }
    if before: string, rest: string :| a == before + b + rest {
      assert a[|before|..] == b + rest;
      assert IsPrefix(b, a[|before|..]);
    }
  }

  /** What is not a text neither starts with nor contains one, a list aside. */
  lemma OnlyTextsHaveParts(a: Json, b: string)
    requires !a.Str?
    ensures !Test(StartsWith, a, Str(b)) && !Test(MatchesGlob, a, Str(b)) && (!a.List? ==> !Test(Contains, a, Str(b)))
  {
    XResolves(a);
    hide ResolvePath;
  }

  /** The text of a number in decimal. */
  function Decimal(n: nat): (s: string)
    ensures IsDigits(s)
  {
    if n < 10 then [('0' as int + n) as char]
    else Decimal(n / 10) + [('0' as int + n % 10) as char]
  }

  lemma {:induction false} DecimalValue(n: nat)
    ensures DigitsValue(Decimal(n)) == n && '.' !in Decimal(n)
  {
    var s := Decimal(n);
    if n < 10 {
      assert s[..0] == "";
    } else {
      DecimalValue(n / 10);
      assert s[..|s| - 1] == Decimal(n / 10);
    }
  }

  lemma {:induction false} SplitLast(path: string, part: string)
    requires '.' !in part
    ensures Split(path + "." + part) == Split(path) + [part]
  {
    var whole := path + "." + part;
    SplitHead(whole);
    if path == "" {
      assert whole[1..] == part;
      assert Split("") == [""] && Split(part) == [part];
    } else {
      hide Split;
      SplitLast(path[1..], part);
      SplitHead(path);
      assert whole[1..] == path[1..] + "." + part && whole[0] == path[0];
      HeadOfLonger(Split(path[1..]), path[0], part);
    }
  }

  lemma HeadOfLonger(rest: seq<string>, c: char, part: string)
    requires rest != []
    ensures [""] + (rest + [part]) == [""] + rest + [part]
    ensures [[c] + (rest + [part])[0]] + (rest + [part])[1..] == [[c] + rest[0]] + rest[1..] + [part]
  {
  }

  lemma SplitHead(path: string)
    requires path != ""
    ensures Split(path) ==
      if path[0] == '.' then [""] + Split(path[1..])
      else [[path[0]] + Split(path[1..])[0]] + Split(path[1..])[1..]
  {
  }

  lemma {:induction false} ResolveFurther(current: Json, parts: seq<string>, more: seq<string>)
    ensures ResolveParts(current, parts + more) ==
      match ResolveParts(current, parts) case None => None case Some(j) => ResolveParts(j, more)
  {
    if parts == [] {
      assert parts + more == more;
    } else {
      assert (parts + more)[0] == parts[0] && (parts + more)[1..] == parts[1..] + more;
      match current
      case Obj(fields) => if parts[0] in fields { ResolveFurther(fields[parts[0]], parts[1..], more); }
      case List(items) =>
        if IsDigits(parts[0]) && DigitsValue(parts[0]) < |items| {
          ResolveFurther(items[DigitsValue(parts[0])], parts[1..], more);
        }
      case _ =>
    }
  }

  /** What one more segment does: in an object it names a field, and in anything that is no
      list either it names nothing. */
  lemma FieldPath(path: string, context: Json, part: string)
    requires '.' !in part
    ensures ResolvePath(context, path).None? ==> ResolvePath(context, path + "." + part).None?
    ensures ResolvePath(context, path).Some? && ResolvePath(context, path).value.Obj? ==>
      var fields := ResolvePath(context, path).value.fields;
      ResolvePath(context, path + "." + part) == if part in fields then Some(fields[part]) else None
    ensures ResolvePath(context, path).Some? ==>
      var j := ResolvePath(context, path).value;
      !j.Obj? && !j.List? ==> ResolvePath(context, path + "." + part).None?
  {
    SplitLast(path, part);
    ResolveFurther(context, Split(path), [part]);
    hide Split, DigitsValue;
    assert [part][1..] == [];
  }

  predicate Digit(c: char) { '0' <= c <= '9' }

  /** In a list it is a position counted from zero, in decimal. */
  lemma IndexPath(path: string, context: Json, items: seq<Json>, n: nat)
    requires ResolvePath(context, path) == Some(List(items))
    ensures ResolvePath(context, path + "." + Decimal(n)) == if n < |items| then Some(items[n]) else None
  {
    DecimalValue(n);
    SplitLast(path, Decimal(n));
    ResolveFurther(context, Split(path), [Decimal(n)]);
    hide Split, Decimal, DigitsValue, IsDigits;
    assert [Decimal(n)][1..] == [];
  }

  /** Anything but digits finds nothing there. */
  lemma NoIndexPath(path: string, context: Json, items: seq<Json>, part: string)
    requires ResolvePath(context, path) == Some(List(items)) && '.' !in part
    requires part == "" || exists k | 0 <= k < |part| :: !Digit(part[k])
    ensures ResolvePath(context, path + "." + part).None?
  {
    SplitLast(path, part);
    ResolveFurther(context, Split(path), [part]);
    hide Split, DigitsValue;
  }

  /** A path of one segment names a field of the context. */
  lemma FirstSegment(context: Json, part: string)
    requires '.' !in part && context.Obj?
    ensures ResolvePath(context, part) == if part in context.fields then Some(context.fields[part]) else None
  {
    hide Split;
    assert Split(part) == [part] && [part][1..] == [];
    if part in context.fields { assert ResolveParts(context.fields[part], []) == Some(context.fields[part]); }
  }

  /** A list contains a value exactly when the path extended by some position equals it. */
  lemma ContainsIsSomeIndex(path: string, context: Json, items: seq<Json>, value: Json)
    requires ResolvePath(context, path) == Some(List(items))
    ensures Evaluate(Compare(Contains, path, value), context) <==>
      exists n: nat :: Evaluate(Compare(Equals, path + "." + Decimal(n), value), context)
  {
    hide *;
    forall n: nat
      ensures Evaluate(Compare(Equals, path + "." + Decimal(n), value), context) ==
        (n < |items| && StrictEqual(items[n], value))
    {
      ElementEquals(path, context, items, value, n);
    }
    ContainsElement(path, context, items, value);
    if n: nat :| n < |items| && StrictEqual(items[n], value) {
      assert Evaluate(Compare(Equals, path + "." + Decimal(n), value), context);
    }
    if n: nat :| Evaluate(Compare(Equals, path + "." + Decimal(n), value), context) {
      assert n < |items| && StrictEqual(items[n], value);
    }
  }

  lemma ContainsElement(path: string, context: Json, items: seq<Json>, value: Json)
    requires ResolvePath(context, path) == Some(List(items))
    ensures Evaluate(Compare(Contains, path, value), context) <==>
      exists n: nat :: n < |items| && StrictEqual(items[n], value)
  {
    hide ResolvePath, StrictEqual;
  }

  lemma ElementEquals(path: string, context: Json, items: seq<Json>, value: Json, n: nat)
    requires ResolvePath(context, path) == Some(List(items))
    ensures Evaluate(Compare(Equals, path + "." + Decimal(n), value), context) ==
      (n < |items| && StrictEqual(items[n], value))
  {
    IndexPath(path, context, items, n);
    hide ResolvePath, StrictEqual, Decimal;
  }

  /** `exists` asks only whether the path resolves: a null is there. */
  lemma ExistsIff(path: string, context: Json)
    ensures Evaluate(Exists(path), context) <==> ResolvePath(context, path) != None
    ensures Evaluate(Compare(Equals, path, Null), context) ==> Evaluate(Exists(path), context)
  {
    hide ResolvePath;
  }
}
