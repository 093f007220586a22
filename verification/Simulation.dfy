/** `preview_event`: from the variables of a payload to the verdict on each of its tags. */
module Simulation {
  import opened Wrappers
  import opened Json
  import opened Config
  import opened Preview
  import opened Sorting
  import Variables
  import Expressions
  import Denotation
  import Resolver
  import PyTagShield
  import Delivery

  /** The values that conditions see: those of the variables that have one. */
  function RawVariables(rs: seq<Variables.Resolution>): map<string, Json> {
    if rs == [] then map[]
    else
      var rest, last := RawVariables(rs[..|rs| - 1]), rs[|rs| - 1];
      if last.status.Resolved? || last.status.Default? then rest[last.id := last.value] else rest
  }

  /** A trigger's place in the declaration and its priority. */
  datatype Place = Place(priority: int, index: nat)

  /** Higher priority first, then declaration order. */
  predicate Earlier(a: Place, b: Place) {
    a.priority > b.priority || (a.priority == b.priority && a.index < b.index)
  }

  datatype TriggerTrace = TriggerTrace(place: Place, id: string, reason: TriggerReason)

  function Places(triggers: seq<Trigger>): set<Place> {
    set i | 0 <= i < |triggers| :: Place(triggers[i].priority, i)
  }

  function PlacesOf(traces: seq<TriggerTrace>): (places: seq<Place>)
    ensures |places| == |traces| && forall i | 0 <= i < |traces| :: places[i] == traces[i].place
  {
    seq(|traces|, i requires 0 <= i < |traces| => traces[i].place)
  }

  /** Every trigger once, in order, with the reason it fired or did not. */
  ghost predicate IsTriggerTrace(triggers: seq<Trigger>, eventType: string, context: Json, traces: seq<TriggerTrace>) {
    && Lists(Earlier, PlacesOf(traces), Places(triggers))
    && forall i | 0 <= i < |traces| ::
         var k := traces[i].place.index;
         && k < |triggers| && traces[i].id == triggers[k].id
         && traces[i].reason == TriggerOutcome(triggers[k], eventType, context)
  }

  datatype Trace = Trace(
    consent: map<string, bool>, resolutions: seq<Variables.Resolution>, context: Json,
    triggers: seq<TriggerTrace>, matched: set<string>, tags: seq<TagTrace>)

  function EventWorld(p: Payload, event: Event, consent: map<string, bool>, lib: Expressions.Library): Variables.World {
    Variables.World(Variables.ById(p.variables), ConditionContext(event, consent, map[]), lib)
  }

  /** The records are the variables' meanings on this event. */
  ghost predicate AreMeanings(p: Payload, w: Variables.World, rs: seq<Variables.Resolution>) {
    |rs| == |p.variables| && forall i | 0 <= i < |rs| :: Resolver.IsMeaning(w, p.variables[i].id, rs[i])
  }

  ghost predicate IsPreview(p: Payload, event: Event, defaults: map<string, bool>, override: map<string, bool>,
                            lib: Expressions.Library, t: Trace) {
    && t.consent == ConsentState(event, defaults, override)
    && AreMeanings(p, EventWorld(p, event, t.consent, lib), t.resolutions)
    && t.context == ConditionContext(event, t.consent, RawVariables(t.resolutions))
    && IsTriggerTrace(p.triggers, event.etype, t.context, t.triggers)
    && (forall id :: id in t.matched <==> Fires(p.triggers, id, event.etype, t.context))
    && |t.tags| == |p.tags|
    && forall i | 0 <= i < |t.tags| :: IsVerdict(p, p.tags[i], t.matched, event.etype, t.context, t.consent, t.tags[i])
  }

  lemma PlacesOrdered()
    ensures Total(Earlier)
  {
  }

  method TraceTriggers(triggers: seq<Trigger>, eventType: string, context: Json)
    returns (traces: seq<TriggerTrace>, matched: set<string>)
    ensures IsTriggerTrace(triggers, eventType, context, traces)
    ensures forall id :: id in matched <==> Fires(triggers, id, eventType, context)
  {
    PlacesOrdered();
    var order := SortSet(Earlier, Places(triggers));
    hide Earlier, TriggerOutcome;
    traces, matched := [], {};
    for n := 0 to |order|
      invariant |traces| == n && forall i | 0 <= i < n ::
        traces[i].place == order[i] && order[i].index < |triggers| && traces[i].id == triggers[order[i].index].id
        && traces[i].reason == TriggerOutcome(triggers[order[i].index], eventType, context)
      invariant forall id :: id in matched <==> exists i | 0 <= i < n :: traces[i].id == id && traces[i].reason.Matched?
    {
      assert order[n] in Places(triggers);
      var t := triggers[order[n].index];
      var reason := TriggerOutcome(t, eventType, context);
      if reason.Matched? { matched := matched + {t.id}; }
      traces := traces + [TriggerTrace(order[n], t.id, reason)];
    }
    assert PlacesOf(traces) == order;
    forall id
      ensures id in matched <==> Fires(triggers, id, eventType, context)
    {
      MatchedIffFires(triggers, eventType, context, traces, id);
    }
  }

  lemma MatchedIffFires(triggers: seq<Trigger>, eventType: string, context: Json, traces: seq<TriggerTrace>, id: string)
    requires IsTriggerTrace(triggers, eventType, context, traces)
    ensures (exists i | 0 <= i < |traces| :: traces[i].id == id && traces[i].reason.Matched?) <==>
      Fires(triggers, id, eventType, context)
  {
    hide TriggerOutcome, Earlier;
    if k :| 0 <= k < |triggers| && triggers[k].id == id && TriggerOutcome(triggers[k], eventType, context).Matched? {
      assert Place(triggers[k].priority, k) in PlacesOf(traces);
      var i :| 0 <= i < |traces| && PlacesOf(traces)[i] == Place(triggers[k].priority, k);
      assert traces[i].place.index == k;
    }
  }

  /** `preview_event`, up to the adapters. */
  method PreviewEvent(p: Payload, event: Event, defaults: map<string, bool>, override: map<string, bool>,
                      lib: Expressions.Library)
    returns (t: Trace)
    ensures IsPreview(p, event, defaults, override, lib, t)
  {
    hide ConsentState, ConditionContext, Resolver.IsMeaning, IsTriggerTrace, IsVerdict, Fires, RawVariables,
         Variables.ById;
    var consent := ConsentState(event, defaults, override);
    var resolver := new Resolver.VariableResolver(p.variables, ConditionContext(event, consent, map[]), lib);
    var resolutions := resolver.ResolveAll();
    var context := ConditionContext(event, consent, RawVariables(resolutions));
    var triggers, matched := TraceTriggers(p.triggers, event.etype, context);
    var tags: seq<TagTrace> := [];
    for i := 0 to |p.tags|
      invariant |tags| == i && forall j | 0 <= j < i ::
        IsVerdict(p, p.tags[j], matched, event.etype, context, consent, tags[j])
    {
      var verdict := TraceTag(p, p.tags[i], matched, event.etype, context, consent);
      tags := tags + [verdict];
    }
    t := Trace(consent, resolutions, context, triggers, matched, tags);
  }

  lemma {:induction false} SameRawVariables(p: Payload, w: Variables.World, a: seq<Variables.Resolution>,
                                            b: seq<Variables.Resolution>)
    requires |a| == |b| && forall i | 0 <= i < |a| :: Denotation.SameUpToErrorText(a[i], b[i])
    ensures RawVariables(a) == RawVariables(b)
  {
    if a != [] { SameRawVariables(p, w, a[..|a| - 1], b[..|b| - 1]); }
  }

  lemma MeaningsAgree(p: Payload, w: Variables.World, a: seq<Variables.Resolution>, b: seq<Variables.Resolution>)
    requires AreMeanings(p, w, a) && AreMeanings(p, w, b)
    ensures forall i | 0 <= i < |a| :: Denotation.SameUpToErrorText(a[i], b[i])
  {
    hide Variables.Plain, Variables.Acyclic;
  }

  lemma SameVerdict(p: Payload, tag: Tag, matched: set<string>, eventType: string, context: Json, consent: map<string,
                    bool>, a: TagTrace, b: TagTrace)
    requires IsVerdict(p, tag, matched, eventType, context, consent, a)
    requires IsVerdict(p, tag, matched, eventType, context, consent, b)
    ensures a == b
  {
    hide Hits, Fires, TagSelected;
  }

  lemma SameTriggerTraces(triggers: seq<Trigger>, eventType: string, context: Json, a: seq<TriggerTrace>,
                          b: seq<TriggerTrace>)
    requires IsTriggerTrace(triggers, eventType, context, a) && IsTriggerTrace(triggers, eventType, context, b)
    ensures a == b
  {
    PlacesOrdered();
    ListingUnique(Earlier, PlacesOf(a), PlacesOf(b), Places(triggers));
    hide TriggerOutcome, Earlier;
    forall i | 0 <= i < |a|
      ensures a[i] == b[i]
    {
      assert a[i].place == PlacesOf(a)[i] == PlacesOf(b)[i] == b[i].place;
    }
  }

  /** A preview depends on the payload, the event and the consent only, on cyclic payloads
      too: two previews differ at most in the text of a variable's error. */
  lemma PreviewDetermined(p: Payload, event: Event, defaults: map<string, bool>, override: map<string, bool>,
                          lib: Expressions.Library, s: Trace, t: Trace)
    requires IsPreview(p, event, defaults, override, lib, s) && IsPreview(p, event, defaults, override, lib, t)
    ensures s.(resolutions := []) == t.(resolutions := [])
    ensures |s.resolutions| == |t.resolutions| && forall i | 0 <= i < |s.resolutions| ::
      Denotation.SameUpToErrorText(s.resolutions[i], t.resolutions[i])
  {
    var w := EventWorld(p, event, s.consent, lib);
    MeaningsAgree(p, w, s.resolutions, t.resolutions);
    SameRawVariables(p, w, s.resolutions, t.resolutions);
    hide ConsentState, ConditionContext, AreMeanings, RawVariables, Denotation.SameUpToErrorText;
    SameTriggerTraces(p.triggers, event.etype, s.context, s.triggers, t.triggers);
    hide IsTriggerTrace, Fires, EventWorld;
    assert s.matched == t.matched;
    forall i | 0 <= i < |s.tags|
      ensures s.tags[i] == t.tags[i]
    {
      SameVerdict(p, p.tags[i], s.matched, event.etype, s.context, s.consent, s.tags[i], t.tags[i]);
    }
    assert s.tags == t.tags;
  }

  /** Projection against preview: when an exported route selects an event, of whatever type,
      the preview of that event reports the route's tag as withheld for unmet conditions
      exactly when none of its triggers fires; when one of its own triggers vouches for the
      event, the tag is selected or withheld for lack of consent, and for no other reason. */
  lemma RoutedTagIsPreviewed(p: Payload, settings: PyTagShield.Settings, out: PyTagShield.Output, i: nat,
                             route: PyTagShield.Route, event: Event, defaults: map<string, bool>,
                             override: map<string, bool>, lib: Expressions.Library, t: Trace)
    requires i < |p.tags|
    requires PyTagShield.RouteFor(PyTagShield.DestinationsById(p.destinations), PyTagShield.TriggersById(p.triggers),
                                  settings, out, p.tags[i], route)
    requires Delivery.RouteSelected(route, event.name)
    requires IsPreview(p, event, defaults, override, lib, t)
    ensures t.tags[i].blocked in {None, Some(TagConditionsNotMet), Some(ConsentMissing), Some(ConsentDenied)}
    ensures (exists k | k in p.triggers :: Delivery.Own(p, p.tags[i], k) && Delivery.Vouches(k, event)) ==>
              t.tags[i].blocked != Some(TagConditionsNotMet)
    ensures (forall k | k in p.triggers && Delivery.Own(p, p.tags[i], k) :: Delivery.Plain(k)) ==>
              (t.tags[i].blocked == Some(TagConditionsNotMet) <==>
                 forall k | k in p.triggers && Delivery.Own(p, p.tags[i], k) :: !Delivery.Covers(k, event))
    ensures Normalized(event) && Delivery.RouteNeverBroadens(p, p.tags[i], route) ==>
      t.tags[i].blocked != Some(TagConditionsNotMet)
    ensures var purpose := p.tags[i].consentPurpose;
      t.tags[i].blocked != Some(TagConditionsNotMet) ==>
        (t.tags[i].blocked.None? <==> purpose.None? || (purpose.value in t.consent && t.consent[purpose.value]))
  {
    var tag := p.tags[i];
    ContextNamesEvent(event, t.consent, RawVariables(t.resolutions));
    hide ConditionContext, EventNameIs, PyTagShield.RouteFor, Delivery.Vouches, Delivery.Covers, Delivery.Plain, Fires,
         AreMeanings, IsTriggerTrace;
    hide Delivery.RouteSelected, PyTagShield.DestinationsById, PyTagShield.TriggersById, Delivery.Own;
    Delivery.SelectedRouteFires(p, settings, out, tag, route, event, t.context);
    assert IsVerdict(p, tag, t.matched, event.etype, t.context, t.consent, t.tags[i]);
    VerdictOnFiring(p, tag, t.matched, event.etype, t.context, t.consent, t.tags[i]);
    if forall k | k in p.triggers && Delivery.Own(p, tag, k) :: Delivery.Plain(k) {
      Delivery.PlainTagFiresIff(p, tag, event, t.context);
    }
    hide IsVerdict, Delivery.TagFires;
  }

  lemma VerdictOnFiring(p: Payload, tag: Tag, matched: set<string>, eventType: string, context: Json,
                        consent: map<string, bool>, trace: TagTrace)
    requires IsVerdict(p, tag, matched, eventType, context, consent, trace) && tag.enabled && tag.triggerIds != []
    ensures trace.blocked in {None, Some(TagConditionsNotMet), Some(ConsentMissing), Some(ConsentDenied)}
    ensures trace.blocked == Some(TagConditionsNotMet) <==> !Delivery.TagFires(p, tag, eventType, context)
    ensures Delivery.TagFires(p, tag, eventType, context) ==>
      (trace.blocked.None? <==>
         || tag.consentPurpose.None?
         || (tag.consentPurpose.value in consent && consent[tag.consentPurpose.value]))
  {
    hide Fires;
    assert forall k | 0 <= k < |tag.triggerIds| :: tag.triggerIds[k] in tag.triggerIds;
  }

  /** And what such a route delivers to carries the tag's purpose: every alias it names is
      the name of exactly one destination entry, and that entry is gated by the purpose. */
  lemma AliasesCarryPurpose(p: Payload, settings: PyTagShield.Settings, out: PyTagShield.Output, tag: Tag,
                            route: PyTagShield.Route, k: nat)
    requires out.Valid(PyTagShield.DestinationsById(p.destinations), settings)
    requires PyTagShield.RouteFor(PyTagShield.DestinationsById(p.destinations), PyTagShield.TriggersById(p.triggers),
                                  settings, out, tag, route)
    requires k < |route.destinations|
    ensures exists i | 0 <= i < |out.entries| ::
      out.entries[i].name == route.destinations[k] && out.entries[i].purpose == tag.consentPurpose
    ensures forall i, j | 0 <= i < |out.entries| && 0 <= j < |out.entries| ::
      out.entries[i].name == route.destinations[k] == out.entries[j].name ==> i == j
  {
    var ds := PyTagShield.DestinationsById(p.destinations);
    hide PyTagShield.TagEvents;
    assert out.Delivers(ds, settings, (tag.destinationIds[k], tag.consentPurpose), route.destinations[k]);
    var key := (tag.destinationIds[k], tag.consentPurpose);
    var entry := PyTagShield.EntryOf(ds[key.0], key.1, route.destinations[k], settings(ds[key.0]).value);
    var i :| 0 <= i < |out.entries| && out.entries[i] == entry;
  }
}
