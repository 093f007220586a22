/** What an exported route delivers, against what the preview would select. */
module Delivery {
  import opened Wrappers
  import opened Json
  import opened Conditions
  import opened Config
  import opened Preview
  import opened Projection
  import opened PyTagShield
  import Glob

  /** The event selects the route of an enabled tag. */
  ghost predicate RouteSelected(route: Route, name: string) {
    route.enabled && Selects(route.events, name)
  }

  /** An enabled trigger the tag names; duplicate ids included. */
  predicate Own(p: Payload, tag: Tag, t: Trigger) {
    t in p.triggers && t.enabled && t.id in tag.triggerIds
  }

  ghost predicate TagFires(p: Payload, tag: Tag, eventType: string, context: Json) {
    exists i :: 0 <= i < |tag.triggerIds| && Fires(p.triggers, tag.triggerIds[i], eventType, context)
  }

  lemma TagFiresIff(p: Payload, tag: Tag, eventType: string, context: Json)
    ensures TagFires(p, tag, eventType, context) <==>
            exists t | t in p.triggers :: Own(p, tag, t) && TriggerOutcome(t, eventType, context).Matched?
  {
    hide Evaluate, TriggerTypeMatches;
    if TagFires(p, tag, eventType, context) {
      var i :| 0 <= i < |tag.triggerIds| && Fires(p.triggers, tag.triggerIds[i], eventType, context);
      var k :| 0 <= k < |p.triggers| && p.triggers[k].id == tag.triggerIds[i]
        && TriggerOutcome(p.triggers[k], eventType, context).Matched?;
      assert Own(p, tag, p.triggers[k]);
    }
    if t :| t in p.triggers && Own(p, tag, t) && TriggerOutcome(t, eventType, context).Matched? {
      var k :| 0 <= k < |p.triggers| && p.triggers[k] == t;
      var i :| 0 <= i < |tag.triggerIds| && tag.triggerIds[i] == t.id;
      assert Fires(p.triggers, tag.triggerIds[i], eventType, context);
    }
  }

  /** Patterns are never empty, nor is a set of them. */
  lemma {:induction false} PatternsNotEmpty(c: Condition)
    requires PatternsOf(c).Patterns?
    ensures PatternsOf(c).events != {} && "" !in PatternsOf(c).events
    decreases c, 0
  {
    match c
    case Compare(op, path, value) =>
      if op.In? { assert value.items[0].s in PatternsOf(c).events; }
    case All(cs) => IntersectionNotEmpty(cs);
    case Any(cs) => UnionNotEmpty(cs);
    case _ =>
  }

  lemma {:induction false} IntersectionNotEmpty(cs: seq<Condition>)
    requires cs != [] && Intersection(cs).Patterns?
    ensures "" !in Intersection(cs).events
    decreases cs, 1
  {
    hide PatternsOf;
    PatternsNotEmpty(cs[0]);
  }

  lemma {:induction false} UnionNotEmpty(cs: seq<Condition>)
    requires cs != [] && Union(cs).Patterns?
    ensures Union(cs).events != {} && "" !in Union(cs).events
    decreases cs, 1
  {
    hide PatternsOf;
    PatternsNotEmpty(cs[0]);
    if |cs| > 1 { UnionNotEmpty(cs[1..]); }
  }

  lemma TriggerPatternsNotEmpty(t: Trigger)
    requires TriggerPatterns(t).Patterns?
    ensures TriggerPatterns(t).events != {} && "" !in TriggerPatterns(t).events
  {
    if PatternsOf(t.conditions).Patterns? { PatternsNotEmpty(t.conditions); }
  }

  /** Whatever event the trigger's patterns select fires the trigger. */
  ghost predicate TriggerNeverBroadens(t: Trigger)
    requires TriggerPatterns(t).Patterns?
  {
    forall event: Event, consent: map<string, bool>, variables: map<string, Json> |
      Normalized(event) && Selects(TriggerPatterns(t).events, event.name) ::
      TriggerOutcome(t, event.etype, ConditionContext(event, consent, variables)).Matched?
  }

  /** An event type that no trigger type expects. */
  const OTHER_TYPE := "other"

  /** Exactly when an enabled trigger's projection keeps the promise: the trigger expects no
      event type, and its condition's projection keeps it.  The patterns do not carry the
      type, so for a trigger that expects one they also select events of every other. */
  lemma TriggerNeverBroadensIff(t: Trigger)
    requires t.enabled && TriggerPatterns(t).Patterns?
    ensures TriggerNeverBroadens(t) <==> ExpectedEventType(t.ttype).None? && NeverBroadens(t.conditions)
  {
    hide Evaluate, ConditionContext, PatternsOf, Glob.Accepts;
    if ExpectedEventType(t.ttype).Some? {
      TriggerPatternsNotEmpty(t);
      var p :| p in TriggerPatterns(t).events;
      var event := BareEvent(Glob.Fill(p, 'x'), OTHER_TYPE);
      Glob.PatternMatchesItsFilling(p, 'x');
      assert event.name != "" && Selects(TriggerPatterns(t).events, event.name);
      assert !TriggerOutcome(t, event.etype, ConditionContext(event, map[], map[])).Matched?;
    } else {
      assert PatternsOf(t.conditions).Patterns?;
    }
  }

  const SIGNUP := "signup"

  /** The smallest failure by type: a click trigger on the event name `signup` also routes a
      custom event of that name, which the preview reports as a type mismatch. */
  lemma ClickTriggerBroadens()
    ensures var c := Compare(Equals, EVENT_NAME, Str(SIGNUP));
      var t := Trigger("t", "t", Click, c, 0, true);
      && NeverBroadens(c) && TriggerPatterns(t) == Patterns({SIGNUP}) && Selects({SIGNUP}, SIGNUP)
      && TriggerOutcome(t, "custom_event", NameContext(SIGNUP)) == EventTypeMismatch
  {
    var c := Compare(Equals, EVENT_NAME, Str(SIGNUP));
    PlainNameProjects(SIGNUP);
    hide *;
    ClickMismatch(Trigger("t", "t", Click, c, 0, true), NameContext(SIGNUP));
  }

  lemma PlainNameProjects(name: string)
    requires name != "" && Glob.WildcardFree(name)
    ensures var c := Compare(Equals, EVENT_NAME, Str(name));
      && PatternsOf(c) == Patterns({name}) && NeverBroadens(c) && Selects({name}, name)
  {
    Glob.EveryPatternMatchesItself(name);
    assert name in {name};
    hide Evaluate, ConditionContext, Glob.Accepts;
    FaithfulNeverBroadens(Compare(Equals, EVENT_NAME, Str(name)));
  }

  lemma ClickMismatch(t: Trigger, context: Json)
    requires t.enabled && t.ttype.Click?
    ensures TriggerOutcome(t, "custom_event", context) == EventTypeMismatch
    ensures PatternsOf(t.conditions).Patterns? ==> TriggerPatterns(t) == PatternsOf(t.conditions)
  {
    hide Evaluate, PatternsOf;
  }

  /** A projectable condition sees nothing of an event but its name. */
  lemma {:induction false} NameDecides(c: Condition, name: string, context: Json, other: Json)
    requires PatternsOf(c).Patterns? && EventNameIs(context, name) && EventNameIs(other, name)
    ensures Evaluate(c, context) == Evaluate(c, other)
    decreases c, 0
  {
    hide ResolvePath, EventNameIs, Compares;
    match c
    case Compare(op, path, value) =>
      ComparisonOnName(op, value, name, context);
      ComparisonOnName(op, value, name, other);
    case All(cs) => NameDecidesAll(cs, name, context, other);
    case Any(cs) =>
      forall i | 0 <= i < |cs|
        ensures Evaluate(cs[i], context) == Evaluate(cs[i], other)
      {
        UnionContains(cs, i);
        NameDecides(cs[i], name, context, other);
      }
    case _ =>
  }

  lemma {:induction false} NameDecidesAll(cs: seq<Condition>, name: string, context: Json, other: Json)
    requires cs != [] && Intersection(cs).Patterns? && EventNameIs(context, name) && EventNameIs(other, name)
    ensures forall i | 0 <= i < |cs| :: Evaluate(cs[i], context) == Evaluate(cs[i], other)
    decreases cs, 1
  {
    hide EventNameIs, Evaluate, PatternsOf;
    NameDecides(cs[0], name, context, other);
    if |cs| > 1 {
      NameDecidesAll(cs[1..], name, context, other);
      assert forall i | 1 <= i < |cs| :: cs[i] == cs[1..][i - 1];
    }
  }

  /** Whatever event selects the route fires one of its tag's triggers. */
  ghost predicate RouteNeverBroadens(p: Payload, tag: Tag, route: Route) {
    forall event: Event, consent: map<string, bool>, variables: map<string, Json> |
      Normalized(event) && RouteSelected(route, event.name) ::
      TagFires(p, tag, event.etype, ConditionContext(event, consent, variables))
  }

  /** One of the tag's own triggers that expect no event type accepts this event name. */
  predicate UntypedAdmits(p: Payload, tag: Tag, name: string) {
    exists t | t in p.triggers :: Own(p, tag, t) && ExpectedEventType(t.ttype).None?
      && Evaluate(t.conditions, NameContext(name))
  }

  /** The tag's untyped triggers constrain the event name. */
  predicate UntypedProjectable(p: Payload, tag: Tag) {
    forall t | t in p.triggers && Own(p, tag, t) && ExpectedEventType(t.ttype).None? ::
      PatternsOf(t.conditions).Patterns?
  }

  /** They do so without globs. */
  predicate UntypedGlobFree(p: Payload, tag: Tag) {
    && UntypedProjectable(p, tag)
    && forall t | t in p.triggers && Own(p, tag, t) && ExpectedEventType(t.ttype).None? :: GlobFree(t.conditions)
  }

  function UntypedLiterals(ts: seq<Trigger>): seq<Condition> {
    if ts == [] then []
    else (if ExpectedEventType(ts[0].ttype).None? then [ts[0].conditions] else []) + UntypedLiterals(ts[1..])
  }

  lemma {:induction false} UntypedLiteralsContain(ts: seq<Trigger>, t: Trigger)
    requires t in ts && ExpectedEventType(t.ttype).None?
    ensures t.conditions in UntypedLiterals(ts)
  {
    if t != ts[0] { UntypedLiteralsContain(ts[1..], t); }
  }

  /** An event of no expected type under this name fires the tag only if an untyped trigger
      admits the name. */
  lemma OtherTypeFires(p: Payload, tag: Tag, name: string)
    requires UntypedProjectable(p, tag)
    requires TagFires(p, tag, OTHER_TYPE, ConditionContext(BareEvent(name, OTHER_TYPE), map[], map[]))
    ensures UntypedAdmits(p, tag, name)
  {
    var context := ConditionContext(BareEvent(name, OTHER_TYPE), map[], map[]);
    ContextNamesEvent(BareEvent(name, OTHER_TYPE), map[], map[]);
    NameContextNames(name);
    hide Evaluate, ConditionContext, PatternsOf, EventNameIs, GlobFree;
    TagFiresIff(p, tag, OTHER_TYPE, context);
    var t :| t in p.triggers && Own(p, tag, t) && TriggerOutcome(t, OTHER_TYPE, context).Matched?;
    assert ExpectedEventType(t.ttype).None?;
    NameDecides(t.conditions, name, context, NameContext(name));
  }

  /** A name the pattern accepts and no untyped trigger of the payload mentions. */
  lemma UnmentionedName(p: Payload, tag: Tag, q: string) returns (name: string)
    requires UntypedGlobFree(p, tag) && AllLiteralsSize(UntypedLiterals(p.triggers)) < SUPPLEMENTARY
    requires !Glob.WildcardFree(q)
    ensures name != "" && Glob.Accepts(q, name) && !UntypedAdmits(p, tag, name)
  {
    hide Glob.Accepts, Evaluate, ConditionContext, PatternsOf, EventNameIs, GlobFree, Literals;
    var used := UsedInAllLiterals(UntypedLiterals(p.triggers));
    var unused := UnusedCharacter(used);
    name := Glob.Fill(q, unused);
    Glob.PatternMatchesItsFilling(q, unused);
    var k :| 0 <= k < |name| && name[k] == unused;
    NameContextNames(name);
    if UntypedAdmits(p, tag, name) {
      var t :| t in p.triggers && Own(p, tag, t) && ExpectedEventType(t.ttype).None?
        && Evaluate(t.conditions, NameContext(name));
      GlobFreeAdmitsLiterals(t.conditions, name, NameContext(name));
      UntypedLiteralsContain(p.triggers, t);
      var i :| 0 <= i < |UntypedLiterals(p.triggers)| && UntypedLiterals(p.triggers)[i] == t.conditions;
      LiteralsContain(UntypedLiterals(p.triggers), i);
    }
  }

  /** Exactly when a route keeps the promise, if the untyped triggers of its tag use no
      globs: the route is disabled, or each of its patterns is free of wildcards and is a
      name that an untyped trigger of the tag accepts. */
  lemma RouteNeverBroadensIff(p: Payload, settings: Settings, out: Output, tag: Tag, route: Route)
    requires RouteFor(DestinationsById(p.destinations), TriggersById(p.triggers), settings, out, tag, route)
    requires UntypedGlobFree(p, tag) && AllLiteralsSize(UntypedLiterals(p.triggers)) < SUPPLEMENTARY
    ensures RouteNeverBroadens(p, tag, route) <==>
            !route.enabled || forall q | q in route.events :: Glob.WildcardFree(q) && UntypedAdmits(p, tag, q)
  {
    RouteEventsNotEmpty(p, settings, out, tag, route);
    hide RouteFor, DestinationsById, TriggersById, UntypedProjectable, GlobFree, Own, UntypedAdmits,
         Glob.WildcardFree, Glob.Accepts, TagFires, ConditionContext;
    if route.enabled && RouteNeverBroadens(p, tag, route) {
      forall q | q in route.events
        ensures Glob.WildcardFree(q) && UntypedAdmits(p, tag, q)
      {
        var name := q;
        if !Glob.WildcardFree(q) { name := UnmentionedName(p, tag, q); } else { Glob.EveryPatternMatchesItself(q); }
        var event := BareEvent(name, OTHER_TYPE);
        assert Normalized(event) && RouteSelected(route, event.name);
        OtherTypeFires(p, tag, name);
      }
    } else if route.enabled && forall q | q in route.events :: Glob.WildcardFree(q) && UntypedAdmits(p, tag, q) {
      forall event: Event, consent: map<string, bool>, variables: map<string, Json> |
        Normalized(event) && RouteSelected(route, event.name)
        ensures TagFires(p, tag, event.etype, ConditionContext(event, consent, variables))
      {
        var q :| q in route.events && Glob.Accepts(q, event.name);
        Glob.WildcardFreeMatchesItselfOnly(q, event.name);
        AdmittedFires(p, tag, event, consent, variables);
      }
    }
  }

  lemma AdmittedFires(p: Payload, tag: Tag, event: Event, consent: map<string, bool>, variables: map<string, Json>)
    requires UntypedProjectable(p, tag) && UntypedAdmits(p, tag, event.name)
    ensures TagFires(p, tag, event.etype, ConditionContext(event, consent, variables))
  {
    var context := ConditionContext(event, consent, variables);
    ContextNamesEvent(event, consent, variables);
    NameContextNames(event.name);
    hide Evaluate, ConditionContext, PatternsOf, EventNameIs, GlobFree;
    var t :| t in p.triggers && Own(p, tag, t) && ExpectedEventType(t.ttype).None?
      && Evaluate(t.conditions, NameContext(event.name));
    NameDecides(t.conditions, event.name, context, NameContext(event.name));
    assert TriggerOutcome(t, event.etype, context).Matched?;
    TagFiresIff(p, tag, event.etype, context);
  }

  lemma RouteEventsNotEmpty(p: Payload, settings: Settings, out: Output, tag: Tag, route: Route)
    requires RouteFor(DestinationsById(p.destinations), TriggersById(p.triggers), settings, out, tag, route)
    ensures "" !in route.events
    ensures forall q | q in route.events :: exists t | t in p.triggers ::
      Own(p, tag, t) && TriggerPatterns(t).Patterns? && q in TriggerPatterns(t).events
  {
    hide TriggerPatterns;
    var ts := TriggersById(p.triggers);
    forall q | q in route.events
      ensures q != "" && exists t | t in p.triggers ::
        Own(p, tag, t) && TriggerPatterns(t).Patterns? && q in TriggerPatterns(t).events
    {
      var i :| 0 <= i < |tag.triggerIds| && tag.triggerIds[i] in ts && ts[tag.triggerIds[i]].enabled
        && TriggerPatterns(ts[tag.triggerIds[i]]).Patterns? && q in TriggerPatterns(ts[tag.triggerIds[i]]).events;
      TriggerPatternsNotEmpty(ts[tag.triggerIds[i]]);
      assert Own(p, tag, ts[tag.triggerIds[i]]);
    }
  }

  /** The trigger contributes a pattern that selects the name and that no wildcard literal
      produced, and expects no other event type. */
  ghost predicate Vouches(t: Trigger, event: Event) {
    && TriggerTypeMatches(t.ttype, event.etype) && TriggerPatterns(t).Patterns?
    && exists q | q in TriggerPatterns(t).events :: FaithfulTrigger(t, q) && Glob.Accepts(q, event.name)
  }

  /** Event by event: a selected route belongs to an enabled tag with triggers, and the tag
      fires as soon as one of its own triggers vouches for the event. */
  lemma SelectedRouteFires(p: Payload, settings: Settings, out: Output, tag: Tag, route: Route, event: Event,
                           context: Json)
    requires RouteFor(DestinationsById(p.destinations), TriggersById(p.triggers), settings, out, tag, route)
    requires RouteSelected(route, event.name) && EventNameIs(context, event.name)
    ensures tag.enabled && tag.triggerIds != []
    ensures (exists t | t in p.triggers :: Own(p, tag, t) && Vouches(t, event)) ==>
      TagFires(p, tag, event.etype, context)
  {
    hide Evaluate, Glob.Accepts, EventNameIs, FaithfulTrigger, TriggerPatterns;
    RouteEventsNotEmpty(p, settings, out, tag, route);
    if t :| t in p.triggers && Own(p, tag, t) && Vouches(t, event) {
      var q :| q in TriggerPatterns(t).events && FaithfulTrigger(t, q) && Glob.Accepts(q, event.name);
      TriggerPatternImpliesCondition(t, q, event.name, context);
      assert TriggerOutcome(t, event.etype, context).Matched?;
      TagFiresIff(p, tag, event.etype, context);
    }
  }

  /** The trigger's condition is empty, or projectable without conjunctions and without
      wildcards in its literals. */
  predicate Plain(t: Trigger) {
    t.conditions == All([])
    || (PatternsOf(t.conditions).Patterns? && SingleConjunctions(t.conditions)
        && forall l | l in Literals(t.conditions) :: Glob.WildcardFree(l))
  }

  /** The trigger expects no other event type and places no constraint on the name or has a
      pattern that selects it. */
  ghost predicate Covers(t: Trigger, event: Event) {
    TriggerTypeMatches(t.ttype, event.etype)
    && (|| t.conditions == All([])
        || (PatternsOf(t.conditions).Patterns? && Selects(PatternsOf(t.conditions).events, event.name)))
  }

  /** Exactly which events fire a tag all of whose triggers are plain: those that one of them
      covers, type included. */
  lemma PlainTagFiresIff(p: Payload, tag: Tag, event: Event, context: Json)
    requires (forall t | t in p.triggers && Own(p, tag, t) :: Plain(t)) && EventNameIs(context, event.name)
    ensures TagFires(p, tag, event.etype, context) <==> exists t | t in p.triggers :: Own(p, tag, t) && Covers(t, event)
  {
    TagFiresIff(p, tag, event.etype, context);
    forall t | t in p.triggers && Own(p, tag, t)
      ensures TriggerOutcome(t, event.etype, context).Matched? <==> Covers(t, event)
    {
      PlainFiresIff(t, event, context);
    }
    hide Covers, Plain, TagFires, TriggerOutcome;
  }

  lemma PlainFiresIff(t: Trigger, event: Event, context: Json)
    requires t.enabled && Plain(t) && EventNameIs(context, event.name)
    ensures TriggerOutcome(t, event.etype, context).Matched? <==> Covers(t, event)
  {
    hide EventNameIs, Selects, Glob.WildcardFree, Literals, SingleConjunctions;
    if t.conditions != All([]) {
      hide Evaluate, PatternsOf;
      ProjectionExact(t.conditions, event.name, context);
    }
  }
}
