/** Projection of trigger conditions onto event-name patterns. */
module Projection {
  import opened Wrappers
  import opened Json
  import opened Conditions
  import opened Preview
  import Glob

  /** The patterns of a condition, no constraint on the name, or not representable. */
  datatype Projected = Unconstrained | Patterns(events: set<string>) | Unsupported

  predicate IsName(j: Json) { j.Str? && j.s != "" }

  /** `_patterns_from_condition`. */
  function PatternsOf(c: Condition): Projected
    decreases c, 0
  {
    match c
    case Compare(op, path, value) =>
      if (op.Equals? || op.MatchesGlob?) && path == EVENT_NAME then
        if IsName(value) then Patterns({value.s}) else Unsupported
      else if op.In? && path == EVENT_NAME then
        if value.List? && value.items != [] && (forall i | 0 <= i < |value.items| :: IsName(value.items[i])) then
          Patterns(set i | 0 <= i < |value.items| :: value.items[i].s)
        else Unsupported
      else Unsupported
    case All(cs) =>
      if cs == [] then Unconstrained
      else
        var r := Intersection(cs);
        if r == Patterns({}) then Unsupported else r
    case Any(cs) => if cs == [] then Unsupported else Union(cs)
    case _ => Unsupported
  }

  function Intersection(cs: seq<Condition>): (r: Projected)
    requires cs != []
    ensures !r.Unconstrained?
    decreases cs, 1
  {
    var first := PatternsOf(cs[0]);
    if !first.Patterns? then Unsupported
    else if |cs| == 1 then first
    else
      var rest := Intersection(cs[1..]);
      if rest.Patterns? then Patterns(first.events * rest.events) else Unsupported
  }

  function Union(cs: seq<Condition>): (r: Projected)
    requires cs != []
    ensures !r.Unconstrained?
    decreases cs, 1
  {
    var first := PatternsOf(cs[0]);
    if !first.Patterns? then Unsupported
    else if |cs| == 1 then first
    else
      var rest := Union(cs[1..]);
      if rest.Patterns? then Patterns(first.events + rest.events) else Unsupported
  }

  /** The literals that `equals` and `in` compare the event name with. */
  function Literals(c: Condition): set<string>
    decreases c, 0
  {
    match c
    case Compare(op, path, value) =>
      if op.Equals? && path == EVENT_NAME && value.Str? then {value.s}
      else if op.In? && path == EVENT_NAME && value.List? then
        set i | 0 <= i < |value.items| && value.items[i].Str? :: value.items[i].s
      else {}
    case All(cs) => AllLiterals(cs)
    case Any(cs) => AllLiterals(cs)
    case _ => {}
  }

  function AllLiterals(cs: seq<Condition>): set<string>
    decreases cs, 1
  {
    if cs == [] then {} else Literals(cs[0]) + AllLiterals(cs[1..])
  }

  /** No literal of the condition that became the pattern `p` contains a wildcard. */
  predicate Faithful(c: Condition, p: string) {
    Glob.WildcardFree(p) || p !in Literals(c)
  }

  lemma ComparisonOnName(op: Op, value: Json, name: string, context: Json)
    requires EventNameIs(context, name)
    ensures Evaluate(Compare(op, EVENT_NAME, value), context) == Compares(op, Some(Str(name)), value)
  {
    hide ResolvePath, Compares;
    EventNameResolves(context, name);
  }

  lemma ComparisonImplied(op: Op, value: Json, p: string, name: string)
    requires PatternsOf(Compare(op, EVENT_NAME, value)).Patterns?
    requires p in PatternsOf(Compare(op, EVENT_NAME, value)).events
    requires Faithful(Compare(op, EVENT_NAME, value), p)
    requires Glob.Accepts(p, name)
    ensures Compares(op, Some(Str(name)), value)
  {
    hide Glob.Accepts;
    if op.Equals? || op.In? {
      Glob.WildcardFreeMatchesItselfOnly(p, name);
      if op.In? {
        var i :| 0 <= i < |value.items| && value.items[i].s == p;
        assert StrictEqual(Str(name), value.items[i]);
      }
    }
  }

  /** An event name selected by a pattern that no wildcard literal produced satisfies the
      condition the pattern came from. */
  lemma {:induction false} PatternImpliesCondition(c: Condition, p: string, name: string, context: Json)
    requires PatternsOf(c).Patterns? && p in PatternsOf(c).events && Faithful(c, p)
    requires EventNameIs(context, name) && Glob.Accepts(p, name)
    ensures Evaluate(c, context)
    decreases c, 0
  {
    hide Glob.Accepts, ResolvePath, EventNameIs, Compares, Glob.WildcardFree;
    match c
    case Compare(op, path, value) =>
      ComparisonImplied(op, value, p, name);
      ComparisonOnName(op, value, name, context);
    case All(cs) => AllPatternsImplyConditions(cs, p, name, context);
    case Any(cs) => SomePatternImpliesCondition(cs, p, name, context);
    case _ =>
  }

  lemma {:induction false} AllPatternsImplyConditions(cs: seq<Condition>, p: string, name: string, context: Json)
    requires cs != [] && Intersection(cs).Patterns? && p in Intersection(cs).events
    requires Glob.WildcardFree(p) || p !in AllLiterals(cs)
    requires EventNameIs(context, name) && Glob.Accepts(p, name)
    ensures forall i | 0 <= i < |cs| :: Evaluate(cs[i], context)
    decreases cs, 1
  {
    hide Glob.Accepts, EventNameIs, Evaluate, Glob.WildcardFree, PatternsOf, Literals;
    PatternImpliesCondition(cs[0], p, name, context);
    if |cs| > 1 {
      AllPatternsImplyConditions(cs[1..], p, name, context);
      assert forall i | 1 <= i < |cs| :: cs[i] == cs[1..][i - 1];
    }
  }

  lemma {:induction false} SomePatternImpliesCondition(cs: seq<Condition>, p: string, name: string, context: Json)
    requires cs != [] && Union(cs).Patterns? && p in Union(cs).events
    requires Glob.WildcardFree(p) || p !in AllLiterals(cs)
    requires EventNameIs(context, name) && Glob.Accepts(p, name)
    ensures exists i | 0 <= i < |cs| :: Evaluate(cs[i], context)
    decreases cs, 1
  {
    hide Glob.Accepts, EventNameIs, Evaluate, Glob.WildcardFree, PatternsOf, Literals;
    if p in PatternsOf(cs[0]).events {
      PatternImpliesCondition(cs[0], p, name, context);
    } else {
      SomePatternImpliesCondition(cs[1..], p, name, context);
      var i :| 0 <= i < |cs[1..]| && Evaluate(cs[1..][i], context);
      assert cs[i + 1] == cs[1..][i];
    }
  }

  /** No `all` in the condition has more than one child. */
  predicate SingleConjunctions(c: Condition)
    decreases c, 0
  {
    match c
    case All(cs) => |cs| == 1 && SingleConjunctions(cs[0])
    case Any(cs) => forall i | 0 <= i < |cs| :: SingleConjunctions(cs[i])
    case _ => true
  }

  lemma ComparisonImplies(op: Op, value: Json, name: string)
    requires PatternsOf(Compare(op, EVENT_NAME, value)).Patterns?
    requires Compares(op, Some(Str(name)), value)
    ensures exists p | p in PatternsOf(Compare(op, EVENT_NAME, value)).events :: Glob.Accepts(p, name)
  {
    hide Glob.Accepts;
    var events := PatternsOf(Compare(op, EVENT_NAME, value)).events;
    if op.MatchesGlob? {
      assert value.s in events;
    } else {
      if op.In? {
        var i :| 0 <= i < |value.items| && StrictEqual(Str(name), value.items[i]);
        assert value.items[i] == Str(name);
      }
      assert name in events;
      Glob.EveryPatternMatchesItself(name);
    }
  }

  lemma {:induction false} UnionContains(cs: seq<Condition>, i: nat)
    requires i < |cs| && Union(cs).Patterns?
    ensures PatternsOf(cs[i]).Patterns? && PatternsOf(cs[i]).events <= Union(cs).events
  {
    if i > 0 { UnionContains(cs[1..], i - 1); }
  }

  /** Without conjunctions nothing is lost: an event that satisfies the condition is
      selected by one of its patterns. */
  lemma {:induction false} ConditionImpliesPattern(c: Condition, name: string, context: Json)
    requires PatternsOf(c).Patterns? && SingleConjunctions(c)
    requires EventNameIs(context, name) && Evaluate(c, context)
    ensures exists p | p in PatternsOf(c).events :: Glob.Accepts(p, name)
    decreases c, 0
  {
    hide Glob.Accepts, ResolvePath, EventNameIs, Compares;
    match c
    case Compare(op, path, value) =>
      ComparisonOnName(op, value, name, context);
      ComparisonImplies(op, value, name);
    case All(cs) => ConditionImpliesPattern(cs[0], name, context);
    case Any(cs) =>
      var i :| 0 <= i < |cs| && Evaluate(cs[i], context);
      UnionContains(cs, i);
      ConditionImpliesPattern(cs[i], name, context);
    case _ =>
  }

  /** Some pattern of the projected condition selects the name. */
  ghost predicate Selects(events: set<string>, name: string) {
    exists p | p in events :: Glob.Accepts(p, name)
  }

  /** The promise of the projection: it never selects an event the condition rejects. */
  ghost predicate NeverBroadens(c: Condition) {
    PatternsOf(c).Patterns? ==>
      forall event: Event, consent: map<string, bool>, variables: map<string, Json> |
        Normalized(event) && Selects(PatternsOf(c).events, event.name) ::
        Evaluate(c, ConditionContext(event, consent, variables))
  }

  /** With wildcard-free literals and no conjunctions, the patterns select exactly the
      events that satisfy the condition. */
  lemma ProjectionExact(c: Condition, name: string, context: Json)
    requires PatternsOf(c).Patterns? && SingleConjunctions(c)
    requires forall p | p in Literals(c) :: Glob.WildcardFree(p)
    requires EventNameIs(context, name)
    ensures Selects(PatternsOf(c).events, name) <==> Evaluate(c, context)
  {
    if Selects(PatternsOf(c).events, name) {
      var p :| p in PatternsOf(c).events && Glob.Accepts(p, name);
      PatternImpliesCondition(c, p, name, context);
    }
    if Evaluate(c, context) { ConditionImpliesPattern(c, name, context); }
  }

  lemma FaithfulNeverBroadens(c: Condition)
    requires PatternsOf(c).Patterns? ==> forall p | p in PatternsOf(c).events :: Faithful(c, p)
    ensures NeverBroadens(c)
  {
    if PatternsOf(c).Patterns? {
      forall event: Event, consent: map<string, bool>, variables: map<string, Json> |
        Normalized(event) && Selects(PatternsOf(c).events, event.name)
        ensures Evaluate(c, ConditionContext(event, consent, variables))
      {
        var context := ConditionContext(event, consent, variables);
        ContextNamesEvent(event, consent, variables);
        var p :| p in PatternsOf(c).events && Glob.Accepts(p, event.name);
        hide Glob.Accepts, PatternsOf, Evaluate, EventNameIs, ConditionContext;
        PatternImpliesCondition(c, p, event.name, context);
      }
    }
  }

  /** The condition constrains the event name without `matches_glob`. */
  predicate GlobFree(c: Condition)
    decreases c, 0
  {
    match c
    case Compare(op, _, _) => !op.MatchesGlob?
    case All(cs) => forall i | 0 <= i < |cs| :: GlobFree(cs[i])
    case Any(cs) => forall i | 0 <= i < |cs| :: GlobFree(cs[i])
    case _ => true
  }

  lemma {:induction false} LiteralsContain(cs: seq<Condition>, i: nat)
    requires i < |cs|
    ensures Literals(cs[i]) <= AllLiterals(cs)
  {
    if i > 0 { LiteralsContain(cs[1..], i - 1); }
  }

  /** A projectable condition without globs accepts none but its own literals. */
  lemma {:induction false} GlobFreeAdmitsLiterals(c: Condition, name: string, context: Json)
    requires PatternsOf(c).Patterns? && GlobFree(c)
    requires EventNameIs(context, name) && Evaluate(c, context)
    ensures name in Literals(c)
    decreases c
  {
    hide Glob.Accepts, ResolvePath;
    match c
    case Compare(op, path, value) =>
      ComparisonOnName(op, value, name, context);
      if op.In? {
        var i :| 0 <= i < |value.items| && StrictEqual(Str(name), value.items[i]);
        assert value.items[i] == Str(name);
      }
    case All(cs) =>
      GlobFreeAdmitsLiterals(cs[0], name, context);
      LiteralsContain(cs, 0);
    case Any(cs) =>
      var i :| 0 <= i < |cs| && Evaluate(cs[i], context);
      UnionContains(cs, i);
      GlobFreeAdmitsLiterals(cs[i], name, context);
      LiteralsContain(cs, i);
    case _ =>
  }

  const MAX_CONDITION_BYTES: nat := 65536

  function NamesSize(items: seq<Json>): nat {
    if items == [] then 0 else (if items[0].Str? then |items[0].s| else 0) + NamesSize(items[1..])
  }

  /** The characters a condition spends on its literals; validation bounds the whole
      condition by `MAX_CONDITION_BYTES`. */
  function LiteralsSize(c: Condition): nat
    decreases c, 0
  {
    match c
    case Compare(_, _, value) => if value.Str? then |value.s| else if value.List? then NamesSize(value.items) else 0
    case All(cs) => AllLiteralsSize(cs)
    case Any(cs) => AllLiteralsSize(cs)
    case _ => 0
  }

  function AllLiteralsSize(cs: seq<Condition>): nat
    decreases cs, 1
  {
    if cs == [] then 0 else LiteralsSize(cs[0]) + AllLiteralsSize(cs[1..])
  }

  /** `used` has every character of every word and no more elements than `size`. */
  predicate Covers(used: set<char>, words: set<string>, size: nat) {
    |used| <= size && forall w, k | w in words && 0 <= k < |w| :: w[k] in used
  }

  lemma {:induction false} UsedInWord(w: string) returns (used: set<char>)
    ensures Covers(used, {w}, |w|)
  {
    if w == "" {
      used := {};
    } else {
      var rest := UsedInWord(w[1..]);
      used := {w[0]} + rest;
      forall k | 0 <= k < |w|
        ensures w[k] in used
      {
        if k > 0 { assert w[1..][k - 1] in rest; }
      }
    }
  }

  lemma {:induction false} UsedInNames(items: seq<Json>) returns (used: set<char>)
    ensures Covers(used, set i | 0 <= i < |items| && items[i].Str? :: items[i].s, NamesSize(items))
  {
    if items == [] {
      used := {};
    } else {
      var rest := UsedInNames(items[1..]);
      var first: set<char> := {};
      if items[0].Str? { first := UsedInWord(items[0].s); }
      used := first + rest;
      forall i, k | 0 <= i < |items| && items[i].Str? && 0 <= k < |items[i].s|
        ensures items[i].s[k] in used
      {
        if i > 0 {
          assert items[1..][i - 1] == items[i];
          assert items[i].s in set i | 0 <= i < |items[1..]| && items[1..][i].Str? :: items[1..][i].s;
        }
      }
    }
  }

  lemma {:induction false} UsedInLiterals(c: Condition) returns (used: set<char>)
    ensures Covers(used, Literals(c), LiteralsSize(c))
    decreases c, 0
  {
    used := {};
    match c
    case Compare(op, path, value) =>
      if value.Str? { used := UsedInWord(value.s); }
      else if value.List? { used := UsedInNames(value.items); }
    case All(cs) => used := UsedInAllLiterals(cs);
    case Any(cs) => used := UsedInAllLiterals(cs);
    case _ =>
  }

  lemma {:induction false} UsedInAllLiterals(cs: seq<Condition>) returns (used: set<char>)
    ensures Covers(used, AllLiterals(cs), AllLiteralsSize(cs))
    decreases cs, 1
  {
    if cs == [] {
      used := {};
    } else {
      var first := UsedInLiterals(cs[0]);
      var rest := UsedInAllLiterals(cs[1..]);
      used := first + rest;
    }
  }

  /** The code points beyond the basic plane, all of them characters. */
  const SUPPLEMENTARY: nat := 0x100000

  function Supplementary(k: nat): char
    requires k < SUPPLEMENTARY
  {
    (0x10000 + k) as char
  }

  function SupplementaryChars(n: nat): set<char>
    requires n <= SUPPLEMENTARY
  {
    set k: nat | 0 <= k < n :: Supplementary(k)
  }

  lemma LastIsNew(n: nat)
    requires 0 < n <= SUPPLEMENTARY
    ensures SupplementaryChars(n) == SupplementaryChars(n - 1) + {Supplementary(n - 1)}
    ensures Supplementary(n - 1) !in SupplementaryChars(n - 1)
  {
    forall k: nat | k < n
      ensures Supplementary(k) as int == 0x10000 + k
    {
    }
  }

  lemma {:induction false} CountSupplementaryChars(n: nat)
    requires n <= SUPPLEMENTARY
    ensures |SupplementaryChars(n)| == n
  {
    if n > 0 {
      CountSupplementaryChars(n - 1);
      LastIsNew(n);
    }
  }

  /** Conditions within the size limit leave some character unused, up to fifteen of them
      together. */
  lemma UnusedCharacter(used: set<char>) returns (c: char)
    requires |used| < SUPPLEMENTARY
    ensures c !in used && c != '*'
  {
    CountSupplementaryChars(SUPPLEMENTARY);
    var all := SupplementaryChars(SUPPLEMENTARY);
    assert all == (all * used) + (all - used) && used == (all * used) + (used - all);
    assert |all - used| > 0;
    c :| c in all - used;
  }

  /** An event with this name and type, and nothing else to it. */
  function BareEvent(name: string, etype: string): Event {
    Event(name, etype, map[], Obj(map[]), Obj(map[]), Obj(map[]), map[], map[])
  }

  function NameContext(name: string): Json {
    ConditionContext(BareEvent(name, "custom_event"), map[], map[])
  }

  /** The literal is one of those the condition contributes as patterns: every child of an
      `all` must name it, and some child of an `any`. */
  predicate Contributes(c: Condition, literal: string)
    decreases c
  {
    match c
    case Compare(op, path, value) =>
      path == EVENT_NAME
      && if op.In? then value.List? && Str(literal) in value.items
         else (op.Equals? || op.MatchesGlob?) && value == Str(literal)
    case All(cs) => cs != [] && forall i | 0 <= i < |cs| :: Contributes(cs[i], literal)
    case Any(cs) => exists i | 0 <= i < |cs| :: Contributes(cs[i], literal)
    case _ => false
  }

  lemma {:induction false} PatternsAreContributed(c: Condition, p: string)
    requires PatternsOf(c).Patterns?
    ensures p in PatternsOf(c).events <==> Contributes(c, p)
    decreases c, 0
  {
    match c
    case Compare(op, path, value) =>
      if op.In? { InListed(value.items, p); }
    case All(cs) => IntersectionIsContributed(cs, p);
    case Any(cs) => UnionIsContributed(cs, p);
    case _ =>
  }

  lemma InListed(items: seq<Json>, p: string)
    requires forall i | 0 <= i < |items| :: items[i].Str?
    ensures p in (set i | 0 <= i < |items| :: items[i].s) <==> Str(p) in items
  {
    if Str(p) in items {
      var i :| 0 <= i < |items| && items[i] == Str(p);
      assert items[i].s == p;
    }
  }

  lemma {:induction false} IntersectionIsContributed(cs: seq<Condition>, p: string)
    requires cs != [] && Intersection(cs).Patterns?
    ensures p in Intersection(cs).events <==> forall i | 0 <= i < |cs| :: Contributes(cs[i], p)
    decreases cs, 1
  {
    hide PatternsOf, Contributes;
    PatternsAreContributed(cs[0], p);
    if |cs| > 1 {
      IntersectionIsContributed(cs[1..], p);
      assert forall i | 1 <= i < |cs| :: cs[i] == cs[1..][i - 1];
    }
  }

  lemma {:induction false} UnionIsContributed(cs: seq<Condition>, p: string)
    requires cs != [] && Union(cs).Patterns?
    ensures p in Union(cs).events <==> exists i | 0 <= i < |cs| :: Contributes(cs[i], p)
    decreases cs, 1
  {
    hide PatternsOf, Contributes;
    PatternsAreContributed(cs[0], p);
    if |cs| > 1 {
      UnionIsContributed(cs[1..], p);
      assert forall i | 1 <= i < |cs| :: cs[i] == cs[1..][i - 1];
    }
  }

  /** Without globs, what is contributed is one of the literals. */
  lemma {:induction false} ContributedIsLiteral(c: Condition, p: string)
    requires GlobFree(c) && Contributes(c, p)
    ensures p in Literals(c)
    decreases c
  {
    match c
    case Compare(op, path, value) =>
      if op.In? {
        var i :| 0 <= i < |value.items| && value.items[i] == Str(p);
      }
    case All(cs) =>
      ContributedIsLiteral(cs[0], p);
      LiteralsContain(cs, 0);
    case Any(cs) =>
      var i :| 0 <= i < |cs| && Contributes(cs[i], p);
      ContributedIsLiteral(cs[i], p);
      LiteralsContain(cs, i);
    case _ =>
  }

  /** Exactly when a projection without globs keeps its promise: no literal that it
      contributes contains a wildcard.  Such a literal becomes a pattern unescaped, and then
      some event name it never meant is selected. */
  lemma NeverBroadensIffLiteralsPlain(c: Condition)
    requires PatternsOf(c).Patterns? && GlobFree(c) && LiteralsSize(c) <= MAX_CONDITION_BYTES
    ensures NeverBroadens(c) <==> forall l | l in Literals(c) && Contributes(c, l) :: Glob.WildcardFree(l)
  {
    hide Glob.WildcardFree, PatternsOf, Literals, GlobFree, Contributes;
    forall p
      ensures p in PatternsOf(c).events <==> p in Literals(c) && Contributes(c, p)
    {
      PatternsAreContributed(c, p);
      if Contributes(c, p) { ContributedIsLiteral(c, p); }
    }
    if p :| p in PatternsOf(c).events && !Glob.WildcardFree(p) {
      WildcardBroadens(c, p);
    } else {
      FaithfulNeverBroadens(c);
    }
  }

  /** An event name that the pattern accepts although no literal says so. */
  lemma WildcardBroadens(c: Condition, p: string)
    requires PatternsOf(c).Patterns? && GlobFree(c) && LiteralsSize(c) <= MAX_CONDITION_BYTES
    requires p in PatternsOf(c).events && !Glob.WildcardFree(p)
    ensures !NeverBroadens(c)
  {
    hide Glob.Accepts, Evaluate, PatternsOf, EventNameIs, ConditionContext;
    var used := UsedInLiterals(c);
    var unused := UnusedCharacter(used);
    var name := Glob.Fill(p, unused);
    Glob.PatternMatchesItsFilling(p, unused);
    NameContextNames(name);
    var k :| 0 <= k < |name| && name[k] == unused;
    assert name !in Literals(c);
    if Evaluate(c, NameContext(name)) { GlobFreeAdmitsLiterals(c, name, NameContext(name)); }
    assert Selects(PatternsOf(c).events, BareEvent(name, "custom_event").name);
  }

  lemma NameContextNames(name: string)
    ensures EventNameIs(NameContext(name), name)
  {
    ContextNamesEvent(BareEvent(name, "custom_event"), map[], map[]);
  }

  lemma LetterStar(letter: char, tail: string)
    requires letter != '*' && '*' !in tail
    ensures Glob.Accepts([letter, '*'], [letter] + tail)
  {
    var p, v := [letter, '*'], [letter] + tail;
    assert p[1..] == "*" && v[1..] == tail && "*"[1..] == "";
    StarAccepts(tail);
  }

  lemma {:induction false} StarAccepts(v: string)
    requires '*' !in v
    ensures Glob.Accepts("*", v) && Glob.AcceptsAfterStar("", v)
  {
    assert "*"[1..] == "";
    if v != "" {
      assert v[0] in v && forall c | c in v[1..] :: c in v;
      StarAccepts(v[1..]);
    }
  }

  /** The smallest broadening: `equals "a*"` projects to the pattern `a*`, which selects the
      event `ab` that the condition rejects. */
  lemma WildcardLiteralBroadens()
    ensures var c := Compare(Equals, EVENT_NAME, Str("a*"));
      && PatternsOf(c) == Patterns({"a*"}) && Selects({"a*"}, "ab")
      && !Evaluate(c, NameContext("ab"))
  {
    hide NameContext, Evaluate, Glob.Accepts, EventNameIs;
    assert "ab" == ['a'] + "b" && "a*" == ['a', '*'];
    LetterStar('a', "b");
    assert "a*" in {"a*"};
    NameContextNames("ab");
    ComparisonOnName(Equals, Str("a*"), "ab", NameContext("ab"));
  }

  /** Conjunctions may lose events: both children accept `b`, but their pattern sets only
      share `a`.  Losing is allowed, broadening is not. */
  lemma ConjunctionLosesEvents()
    ensures var c := All([Compare(In, EVENT_NAME, List([Str("a"), Str("b")])),
                          Any([Compare(Equals, EVENT_NAME, Str("a")), Compare(MatchesGlob, EVENT_NAME, Str("b*"))])]);
      && PatternsOf(c) == Patterns({"a"}) && !Selects({"a"}, "b") && Evaluate(c, NameContext("b"))
  {
    var left := Compare(In, EVENT_NAME, List([Str("a"), Str("b")]));
    var right := Any([Compare(Equals, EVENT_NAME, Str("a")), Compare(MatchesGlob, EVENT_NAME, Str("b*"))]);
    var c := All([left, right]);
    LeftPatterns();
    RightPatterns();
    assert PatternsOf(c) == Patterns({"a"}) by {
      hide PatternsOf;
      PairPatterns(left, right, {"a", "b"}, {"a", "b*"}, {"a"});
    }
    Glob.WildcardFreeMatchesItselfOnly("a", "b");
    NameContextNames("b");
    BothAcceptB(NameContext("b"));
  }

  lemma PairPatterns(left: Condition, right: Condition, l: set<string>, r: set<string>, both: set<string>)
    requires PatternsOf(left) == Patterns(l) && PatternsOf(right) == Patterns(r) && both == l * r && both != {}
    ensures PatternsOf(All([left, right])) == Patterns(both)
  {
    var cs := [left, right];
    assert cs[1..] == [right];
    assert Intersection([right]) == Patterns(r);
    assert Intersection(cs) == Patterns(l * r);
  }

  lemma BothAcceptB(context: Json)
    requires EventNameIs(context, "b")
    ensures Evaluate(All([Compare(In, EVENT_NAME, List([Str("a"), Str("b")])),
      Any([Compare(Equals, EVENT_NAME, Str("a")), Compare(MatchesGlob, EVENT_NAME, Str("b*"))])]), context)
  {
    hide EventNameIs, ResolvePath, Glob.Accepts;
    var items := [Str("a"), Str("b")];
    ComparisonOnName(In, List(items), "b", context);
    assert StrictEqual(Str("b"), items[1]);
    assert "b" == ['b'] + "" && "b*" == ['b', '*'];
    LetterStar('b', "");
    ComparisonOnName(MatchesGlob, Str("b*"), "b", context);
    var cs := [Compare(Equals, EVENT_NAME, Str("a")), Compare(MatchesGlob, EVENT_NAME, Str("b*"))];
    assert Evaluate(cs[1], context);
    assert Evaluate(Any(cs), context);
  }

  lemma LeftPatterns()
    ensures PatternsOf(Compare(In, EVENT_NAME, List([Str("a"), Str("b")]))) == Patterns({"a", "b"})
  {
    var items := [Str("a"), Str("b")];
    assert (set i | 0 <= i < |items| :: items[i].s) == {"a", "b"} by {
      assert items[0].s == "a" && items[1].s == "b";
    }
  }

  lemma RightPatterns()
    ensures PatternsOf(Any([Compare(Equals, EVENT_NAME, Str("a")), Compare(MatchesGlob, EVENT_NAME, Str("b*"))])) ==
      Patterns({"a", "b*"})
  {
    var cs := [Compare(Equals, EVENT_NAME, Str("a")), Compare(MatchesGlob, EVENT_NAME, Str("b*"))];
    assert cs[1..] == [cs[1]];
    assert Union([cs[1]]) == Patterns({"b*"});
    assert Union(cs) == Patterns({"a"} + {"b*"});
  }

  /** The condition can be expressed as patterns: it compares the event's name with texts, through
      conjunctions whose parts have a pattern in common and through disjunctions. */
  ghost predicate Expressible(c: Condition)
    decreases c
  {
    match c
    case Compare(op, path, value) =>
      path == "event.name" &&
      if op.In? then value.List? && value.items != [] && forall j | j in value.items :: j.Str? && j.s != ""
      else (op.Equals? || op.MatchesGlob?) && value.Str? && value.s != ""
    case All(cs) =>
      cs != [] && (forall i | 0 <= i < |cs| :: Expressible(cs[i])) && exists l :: Contributes(c, l)
    case Any(cs) => cs != [] && forall i | 0 <= i < |cs| :: Expressible(cs[i])
    case _ => false
  }

  /** Which conditions have patterns, and which leave the name open: only the empty conjunction. */
  lemma {:induction false} ProjectedIff(c: Condition)
    ensures PatternsOf(c).Patterns? <==> Expressible(c)
    ensures PatternsOf(c).Unconstrained? <==> c == All([])
    decreases c, 0
  {
    match c
    case Compare(op, path, value) =>
      if op.In? && value.List? {
        assert forall i | 0 <= i < |value.items| :: value.items[i] in value.items;
      }
    case All(cs) =>
      IntersectionIff(cs);
      if cs != [] {
        if Intersection(cs).Patterns? { CommonPattern(cs); }
        AllProjected(cs);
        AllExpressible(cs);
        hide PatternsOf, Intersection, Contributes, Expressible;
      }
    case Any(cs) => UnionIff(cs);
    case _ =>
  }

  lemma AllProjected(cs: seq<Condition>)
    requires cs != []
    ensures var r := Intersection(cs);
      PatternsOf(All(cs)) == if r.Patterns? && r.events == {} then Unsupported else r
  {
    hide Intersection;
  }

  lemma AllExpressible(cs: seq<Condition>)
    requires cs != []
    ensures Expressible(All(cs)) <==>
      (forall i | 0 <= i < |cs| :: Expressible(cs[i])) && exists l :: Contributes(All(cs), l)
  {
    var c := All(cs);
    if Expressible(c) {
      assert c.conditions == cs;
      var l :| Contributes(c, l);
    }
    if (forall i | 0 <= i < |cs| :: Expressible(cs[i])) && exists l :: Contributes(All(cs), l) {
      var l :| Contributes(All(cs), l);
      assert Contributes(c, l);
    }
  }

  lemma CommonPattern(cs: seq<Condition>)
    requires cs != [] && Intersection(cs).Patterns?
    ensures Intersection(cs).events != {} <==> exists l :: Contributes(All(cs), l)
  {
    hide PatternsOf;
    forall l
      ensures l in Intersection(cs).events <==> Contributes(All(cs), l)
    {
      IntersectionIsContributed(cs, l);
    }
    if l :| l in Intersection(cs).events { assert Contributes(All(cs), l); }
  }

  lemma {:induction false} IntersectionIff(cs: seq<Condition>)
    ensures cs != [] ==> (Intersection(cs).Patterns? <==> forall i | 0 <= i < |cs| :: Expressible(cs[i]))
    decreases cs, 1
  {
    if cs != [] {
      hide PatternsOf, Expressible;
      ProjectedIff(cs[0]);
      IntersectionIff(cs[1..]);
      assert forall i | 1 <= i < |cs| :: cs[i] == cs[1..][i - 1];
    }
  }

  lemma {:induction false} UnionIff(cs: seq<Condition>)
    ensures cs != [] ==> (Union(cs).Patterns? <==> forall i | 0 <= i < |cs| :: Expressible(cs[i]))
    decreases cs, 1
  {
    if cs != [] {
      hide PatternsOf, Expressible;
      ProjectedIff(cs[0]);
      UnionIff(cs[1..]);
      assert forall i | 1 <= i < |cs| :: cs[i] == cs[1..][i - 1];
    }
  }
}
