/** The promise of the projection, decided. */
module Probing {
  import opened Wrappers
  import opened Json
  import opened Conditions
  import opened Config
  import opened Preview
  import opened Projection
  import opened PyTagShield
  import opened Delivery
  import opened GlobProbes
  import Glob

  /** The literals and globs that the condition compares the event name with. */
  function Words(c: Condition): set<string>
    decreases c, 0
  {
    match c
    case Compare(op, path, value) =>
      if value.Str? then {value.s}
      else if value.List? then set i | 0 <= i < |value.items| && value.items[i].Str? :: value.items[i].s
      else {}
    case All(cs) => AllWords(cs)
    case Any(cs) => AllWords(cs)
    case _ => {}
  }

  function AllWords(cs: seq<Condition>): set<string>
    decreases cs, 1
  {
    if cs == [] then {} else Words(cs[0]) + AllWords(cs[1..])
  }

  lemma {:induction false} WordsContain(cs: seq<Condition>, i: nat)
    requires i < |cs|
    ensures Words(cs[i]) <= AllWords(cs)
  {
    if i > 0 { WordsContain(cs[1..], i - 1); }
  }

  lemma {:induction false} ContributedIsWord(c: Condition, p: string)
    requires Contributes(c, p)
    ensures p in Words(c)
    decreases c
  {
    match c
    case Compare(op, path, value) =>
      if op.In? {
        var i :| 0 <= i < |value.items| && value.items[i] == Str(p);
      }
    case All(cs) =>
      ContributedIsWord(cs[0], p);
      WordsContain(cs, 0);
    case Any(cs) =>
      var i :| 0 <= i < |cs| && Contributes(cs[i], p);
      ContributedIsWord(cs[i], p);
      WordsContain(cs, i);
    case _ =>
  }

  lemma PatternsAreWords(c: Condition)
    requires PatternsOf(c).Patterns?
    ensures PatternsOf(c).events <= Words(c)
  {
    hide PatternsOf, Contributes, Words;
    forall p | p in PatternsOf(c).events
      ensures p in Words(c)
    {
      PatternsAreContributed(c, p);
      ContributedIsWord(c, p);
    }
  }

  lemma ComparesAlike(op: Op, value: Json, words: set<string>, v: string, w: string)
    requires PatternsOf(Compare(op, EVENT_NAME, value)).Patterns?
    requires Words(Compare(op, EVENT_NAME, value)) <= words && Alike(words, v, w)
    ensures Compares(op, Some(Str(v)), value) == Compares(op, Some(Str(w)), value)
  {
    hide Alike, Glob.Accepts;
    if op.In? {
      forall i | 0 <= i < |value.items|
        ensures StrictEqual(Str(v), value.items[i]) == StrictEqual(Str(w), value.items[i])
      {
        assert value.items[i].s in Words(Compare(op, EVENT_NAME, value));
        AlikeToWord(words, value.items[i].s, v, w);
      }
    } else {
      AlikeToWord(words, value.s, v, w);
    }
  }

  /** A projectable condition does not tell names apart that are alike to its words. */
  lemma {:induction false} EvaluateAlike(c: Condition, words: set<string>, v: string, w: string)
    requires PatternsOf(c).Patterns? && Words(c) <= words && Alike(words, v, w)
    ensures Evaluate(c, NameContext(v)) == Evaluate(c, NameContext(w))
    decreases c, 0
  {
    hide ResolvePath, EventNameIs, Compares, NameContext, Alike;
    match c
    case Compare(op, path, value) =>
      NameContextNames(v);
      NameContextNames(w);
      ComparisonOnName(op, value, v, NameContext(v));
      ComparisonOnName(op, value, w, NameContext(w));
      ComparesAlike(op, value, words, v, w);
    case All(cs) => EvaluateAllAlike(cs, words, v, w);
    case Any(cs) =>
      forall i | 0 <= i < |cs|
        ensures Evaluate(cs[i], NameContext(v)) == Evaluate(cs[i], NameContext(w))
      {
        UnionContains(cs, i);
        WordsContain(cs, i);
        EvaluateAlike(cs[i], words, v, w);
      }
    case _ =>
  }

  lemma {:induction false} EvaluateAllAlike(cs: seq<Condition>, words: set<string>, v: string, w: string)
    requires cs != [] && Intersection(cs).Patterns? && AllWords(cs) <= words && Alike(words, v, w)
    ensures forall i | 0 <= i < |cs| :: Evaluate(cs[i], NameContext(v)) == Evaluate(cs[i], NameContext(w))
    decreases cs, 1
  {
    hide Evaluate, PatternsOf, NameContext, Alike, Words;
    EvaluateAlike(cs[0], words, v, w);
    if |cs| > 1 {
      EvaluateAllAlike(cs[1..], words, v, w);
      assert forall i | 1 <= i < |cs| :: cs[i] == cs[1..][i - 1];
    }
  }

  lemma SelectsAlike(events: set<string>, words: set<string>, v: string, w: string)
    requires events <= words && Alike(words, v, w)
    ensures Selects(events, v) == Selects(events, w)
  {
    hide Alike, Glob.Accepts;
    forall p | p in events
      ensures Glob.Accepts(p, v) == Glob.Accepts(p, w)
    {
      AlikeToWord(words, p, v, w);
    }
  }

  predicate SelectedBySome(events: set<string>, name: string) {
    exists p | p in events :: Glob.Accepts(p, name)
  }

  /** None of the names to try is selected and rejected. */
  predicate ProbesPass(c: Condition, other: char)
    requires PatternsOf(c).Patterns?
  {
    forall probe | probe in Probes(Words(c), other) ::
      SelectedBySome(PatternsOf(c).events, probe) ==> Evaluate(c, NameContext(probe))
  }

  /** Whether a projection keeps its promise is decided by finitely many event names: those
      over the condition's own letters and any one other character (`SomeOther`), up to a
      length that its words determine. */
  lemma NeverBroadensIffProbesPass(c: Condition, other: char)
    requires PatternsOf(c).Patterns? && IsOther(Words(c), other)
    ensures NeverBroadens(c) <==> ProbesPass(c, other)
  {
    hide PatternsOf, Words, Letters, Probes, Alike, Evaluate, ConditionContext, EventNameIs, Glob.Accepts;
    var events := PatternsOf(c).events;
    PatternsAreWords(c);
    if NeverBroadens(c) {
      forall probe | probe in Probes(Words(c), other) && SelectedBySome(events, probe)
        ensures Evaluate(c, NameContext(probe))
      {
        ProbesAreNames(Words(c), other, probe);
        assert Normalized(BareEvent(probe, "custom_event")) && Selects(events, probe);
      }
    }
    if ProbesPass(c, other) {
      forall event: Event, consent: map<string, bool>, variables: map<string, Json> |
        Normalized(event) && Selects(events, event.name)
        ensures Evaluate(c, ConditionContext(event, consent, variables))
      {
        var probe := EveryNameHasProbe(Words(c), other, event.name);
        SelectsAlike(events, Words(c), event.name, probe);
        EvaluateAlike(c, Words(c), event.name, probe);
        ContextNamesEvent(event, consent, variables);
        NameContextNames(event.name);
        NameDecides(c, event.name, ConditionContext(event, consent, variables), NameContext(event.name));
      }
    }
  }

  lemma ProbesAreNames(words: set<string>, other: char, probe: string)
    requires probe in Probes(words, other)
    ensures probe != ""
  {
    hide Letters, Limit;
  }

  /** The words of the tag's untyped triggers, and the patterns of its route. */
  function RouteWords(p: Payload, route: Route): set<string> {
    route.events + AllWords(UntypedLiterals(p.triggers))
  }

  predicate RouteProbesPass(p: Payload, tag: Tag, route: Route, other: char) {
    forall probe | probe in Probes(RouteWords(p, route), other) ::
      SelectedBySome(route.events, probe) ==> UntypedAdmits(p, tag, probe)
  }

  lemma AdmitsAlike(p: Payload, tag: Tag, words: set<string>, v: string, w: string)
    requires UntypedProjectable(p, tag) && AllWords(UntypedLiterals(p.triggers)) <= words && Alike(words, v, w)
    ensures UntypedAdmits(p, tag, v) == UntypedAdmits(p, tag, w)
  {
    hide Alike, Evaluate, NameContext, PatternsOf, Words;
    forall t | t in p.triggers && Own(p, tag, t) && ExpectedEventType(t.ttype).None?
      ensures Evaluate(t.conditions, NameContext(v)) == Evaluate(t.conditions, NameContext(w))
    {
      UntypedLiteralsContain(p.triggers, t);
      var i :| 0 <= i < |UntypedLiterals(p.triggers)| && UntypedLiterals(p.triggers)[i] == t.conditions;
      WordsContain(UntypedLiterals(p.triggers), i);
      EvaluateAlike(t.conditions, words, v, w);
    }
  }

  /** The untyped triggers of a tag that gets a route constrain the event name, if trigger ids
      are unique. */
  lemma RoutedIsUntypedProjectable(p: Payload, settings: Settings, tag: Tag)
    requires Projectable(DestinationsById(p.destinations), TriggersById(p.triggers), settings, tag)
    requires forall t, u | t in p.triggers && u in p.triggers && t.id == u.id :: t == u
    ensures UntypedProjectable(p, tag)
  {
    hide PatternsOf, DestinationOk, TagEvents;
    var ts := TriggersById(p.triggers);
    forall t | t in p.triggers && Own(p, tag, t) && ExpectedEventType(t.ttype).None?
      ensures PatternsOf(t.conditions).Patterns?
    {
      var i :| 0 <= i < |tag.triggerIds| && tag.triggerIds[i] == t.id;
      assert TriggerOk(ts, tag.triggerIds[i]);
      assert ts[t.id] == t;
    }
  }

  /** Exactly when a route keeps the promise, globs included: it is disabled, or each of
      finitely many names that its patterns select is accepted by a trigger of the
      tag that expects no event type. */
  lemma RouteNeverBroadensIffProbesPass(p: Payload, tag: Tag, route: Route, other: char)
    requires UntypedProjectable(p, tag) && IsOther(RouteWords(p, route), other)
    ensures RouteNeverBroadens(p, tag, route) <==> !route.enabled || RouteProbesPass(p, tag, route, other)
  {
    hide UntypedProjectable, Own, UntypedAdmits, Glob.Accepts, TagFires,
         ConditionContext, Words, Letters, Probes, Alike, UntypedLiterals;
    var words := RouteWords(p, route);
    if route.enabled && RouteNeverBroadens(p, tag, route) {
      forall probe | probe in Probes(words, other) && SelectedBySome(route.events, probe)
        ensures UntypedAdmits(p, tag, probe)
      {
        ProbesAreNames(words, other, probe);
        var event := BareEvent(probe, OTHER_TYPE);
        assert Normalized(event) && RouteSelected(route, event.name);
        OtherTypeFires(p, tag, probe);
      }
    } else if route.enabled && RouteProbesPass(p, tag, route, other) {
      forall event: Event, consent: map<string, bool>, variables: map<string, Json> |
        Normalized(event) && RouteSelected(route, event.name)
        ensures TagFires(p, tag, event.etype, ConditionContext(event, consent, variables))
      {
        var probe := EveryNameHasProbe(words, other, event.name);
        SelectsAlike(route.events, words, event.name, probe);
        AdmitsAlike(p, tag, words, event.name, probe);
        AdmittedFires(p, tag, event, consent, variables);
      }
    }
  }
}
