/** Simulating one event: consent, context, triggers, tags. */
module Preview {
  import opened Wrappers
  import opened Json
  import opened Conditions
  import opened Config

  /** A normalized event. */
  datatype Event = Event(
    name: string, etype: string, properties: map<string, Json>, page: Json, dom: Json, dataLayer: Json,
    consent: map<string, bool>, storedConsent: map<string, bool>)

  /** What `normalize_event` asks of an event's name and type. */
  predicate Normalized(event: Event) { event.name != "" && event.etype != "" }

  /** `_consent_state`: the override decides first, then the event, then what was stored, and
      the default last. */
  function ConsentState(event: Event, defaults: map<string, bool>, override: map<string,
                        bool>): (consent: map<string, bool>)
    ensures consent.Keys == override.Keys + event.consent.Keys + event.storedConsent.Keys + defaults.Keys
    ensures forall purpose | purpose in consent ::
      consent[purpose] ==
        (if purpose in override then override[purpose]
         else if purpose in event.consent then event.consent[purpose]
         else if purpose in event.storedConsent then event.storedConsent[purpose]
         else defaults[purpose])
  {
    defaults + event.storedConsent + event.consent + override
  }

  /** `_event_core`: the properties are visible on the event itself, except where they
      would hide its name, type or properties. */
  function EventCore(event: Event): Json {
    Obj(event.properties
        + map["name" := Str(event.name), "type" := Str(event.etype), "properties" := Obj(event.properties)])
  }

  function ConsentJson(consent: map<string, bool>): Json {
    Obj(map purpose | purpose in consent :: Bool(consent[purpose]))
  }

  function ConditionContext(event: Event, consent: map<string, bool>, variables: map<string, Json>): Json {
    Obj(map["event" := EventCore(event), "page" := event.page, "dom" := event.dom, "data_layer" := event.dataLayer,
            "consent" := ConsentJson(consent), "variables" := Obj(variables)])
  }

  const EVENT_NAME := "event.name"

  /** The event in the context has this name. */
  predicate EventNameIs(context: Json, name: string) {
    && context.Obj? && "event" in context.fields
    && context.fields["event"].Obj? && "name" in context.fields["event"].fields
    && context.fields["event"].fields["name"] == Str(name)
  }

  lemma {:induction false} SplitAt(first: string, rest: string)
    requires '.' !in first
    ensures Split(first + "." + rest) == [first] + Split(rest)
  {
    if first == "" {
      assert (first + "." + rest)[1..] == rest;
    } else {
      assert (first + "." + rest)[1..] == first[1..] + "." + rest;
      assert forall c | c in first[1..] :: c in first;
      SplitAt(first[1..], rest);
      assert first == [first[0]] + first[1..];
      assert first[0] in first;
    }
  }

  /** The event's own name is in the context, whatever properties it carries. */
  lemma ContextNamesEvent(event: Event, consent: map<string, bool>, variables: map<string, Json>)
    ensures EventNameIs(ConditionContext(event, consent, variables), event.name)
  {
    var context := ConditionContext(event, consent, variables);
    assert context.fields["event"] == EventCore(event);
  }

  /** It is what the path `event.name` resolves to. */
  lemma EventNameResolves(context: Json, name: string)
    ensures EventNameIs(context, name) <==> ResolvePath(context, EVENT_NAME) == Some(Str(name))
  {
    EventNamePath();
    hide Split;
    var parts := ["event", "name"];
    assert parts[1..] == ["name"] && ["name"][1..] == [];
    if context.Obj? && "event" in context.fields {
      assert ResolveParts(context, parts) == ResolveParts(context.fields["event"], ["name"]);
    } else if context.List? {
      NotDigits("event");
    }
    if EventNameIs(context, name) {
      assert ResolveParts(context.fields["event"].fields["name"], []) == Some(Str(name));
    } else if context.Obj? && "event" in context.fields {
      NotDigits("name");
    }
  }

  lemma NotDigits(s: string)
    requires s != "" && !('0' <= s[0] <= '9')
    ensures !IsDigits(s)
  {
  }

  lemma EventNamePath()
    ensures Split(EVENT_NAME) == ["event", "name"]
  {
    NoDots();
    assert EVENT_NAME == "event" + "." + "name";
    hide Split;
    SplitAt("event", "name");
    SplitWhole("name");
  }

  lemma NoDots()
    ensures '.' !in "event" && '.' !in "name"
  {
  }

  lemma {:induction false} SplitWhole(s: string)
    requires '.' !in s
    ensures Split(s) == [s]
  {
    if s != "" {
      assert s == [s[0]] + s[1..];
      SplitWhole(s[1..]);
    }
  }

  function ExpectedEventType(t: TriggerType): Option<string> {
    match t
    case PageView => Some("page_view")
    case CustomEvent => Some("custom_event")
    case Click => Some("click")
    case LinkClick => Some("link_click")
    case FormSubmit => Some("form_submit")
    case RouteChange => Some("route_change")
    case ConsentChange => Some("consent_change")
    case DomCondition => None
    case VariableCondition => None
  }

  predicate TriggerTypeMatches(t: TriggerType, eventType: string) {
    var expected := ExpectedEventType(t);
    expected.None? || expected.value == eventType
  }

  datatype TriggerReason = TriggerDisabled | EventTypeMismatch | Matched | ConditionsNotMet

  function TriggerOutcome(t: Trigger, eventType: string, context: Json): TriggerReason {
    if !t.enabled then TriggerDisabled
    else if !TriggerTypeMatches(t.ttype, eventType) then EventTypeMismatch
    else if Evaluate(t.conditions, context) then Matched
    else ConditionsNotMet
  }

  predicate Fires(triggers: seq<Trigger>, id: string, eventType: string, context: Json) {
    exists i | 0 <= i < |triggers| :: triggers[i].id == id && TriggerOutcome(triggers[i], eventType, context).Matched?
  }

  datatype BlockedReason = TagDisabled | NoTrigger | TagConditionsNotMet | ConsentMissing | ConsentDenied

  /** One tag of the trace. */
  datatype TagTrace = TagTrace(tagId: string, matchedTriggers: seq<string>, blocked: Option<BlockedReason>)

  /** A tag is selected exactly when it is enabled, one of its triggers fires, and the
      purpose it names, if any, has consent. */
  ghost predicate TagSelected(p: Payload, tag: Tag, eventType: string, context: Json, consent: map<string, bool>) {
    && tag.enabled
    && (exists i | 0 <= i < |tag.triggerIds| :: Fires(p.triggers, tag.triggerIds[i], eventType, context))
    && (tag.consentPurpose.Some? ==> tag.consentPurpose.value in consent && consent[tag.consentPurpose.value])
  }

  method MatchTriggers(p: Payload, eventType: string, context: Json) returns (matched: set<string>)
    ensures forall id :: id in matched <==> Fires(p.triggers, id, eventType, context)
  {
    matched := {};
    for i := 0 to |p.triggers|
      invariant forall id :: id in matched <==>
        exists j | 0 <= j < i :: p.triggers[j].id == id && TriggerOutcome(p.triggers[j], eventType, context).Matched?
    {
      if TriggerOutcome(p.triggers[i], eventType, context).Matched? {
        matched := matched + {p.triggers[i].id};
      }
    }
  }

  /** The ids that are in the set, in order. */
  function Hits(ids: seq<string>, matched: set<string>): (hits: seq<string>)
    ensures forall id :: id in hits <==> id in ids && id in matched
  {
    if ids == [] then []
    else
      var last := ids[|ids| - 1];
      assert ids == ids[..|ids| - 1] + [last];
      Hits(ids[..|ids| - 1], matched) + if last in matched then [last] else []
  }

  /** The verdict on one tag: what it lists, whether it is selected, and otherwise the first
      reason against it. */
  ghost predicate IsVerdict(p: Payload, tag: Tag, matched: set<string>, eventType: string, context: Json,
                            consent: map<string, bool>, trace: TagTrace) {
    && trace.tagId == tag.id && trace.matchedTriggers == Hits(tag.triggerIds, matched)
    && (trace.blocked.None? <==> TagSelected(p, tag, eventType, context, consent))
    && (trace.blocked == Some(TagDisabled) <==> !tag.enabled)
    && (trace.blocked == Some(NoTrigger) <==> tag.enabled && tag.triggerIds == [])
    && (trace.blocked == Some(TagConditionsNotMet) <==>
          tag.enabled && tag.triggerIds != [] && forall id | id in tag.triggerIds ::
            !Fires(p.triggers, id, eventType, context))
    && (trace.blocked.Some? && (trace.blocked.value.ConsentMissing? || trace.blocked.value.ConsentDenied?) ==>
          tag.consentPurpose.Some? && (trace.blocked.value.ConsentMissing? <==> tag.consentPurpose.value !in consent))
  }

  method MatchedTriggers(ids: seq<string>, matched: set<string>) returns (hits: seq<string>)
    ensures hits == Hits(ids, matched)
  {
    hits := [];
    for i := 0 to |ids|
      invariant hits == Hits(ids[..i], matched)
    {
      assert ids[..i + 1][..i] == ids[..i];
      if ids[i] in matched { hits := hits + [ids[i]]; }
    }
    assert ids[..|ids|] == ids;
  }

  /** Nothing is listed exactly when no trigger of the tag fires. */
  lemma NoHits(p: Payload, ids: seq<string>, matched: set<string>, eventType: string, context: Json)
    requires forall id :: id in matched <==> Fires(p.triggers, id, eventType, context)
    ensures Hits(ids, matched) == [] <==> forall id | id in ids :: !Fires(p.triggers, id, eventType, context)
    ensures Hits(ids, matched) != [] <==> exists i | 0 <= i < |ids| :: Fires(p.triggers, ids[i], eventType, context)
  {
    hide Fires;
    var hits := Hits(ids, matched);
    assert hits != [] ==> hits[0] in hits;
    hide Hits;
  }

  method TraceTag(p: Payload, tag: Tag, matched: set<string>, eventType: string, context: Json, consent: map<string,
                  bool>)
    returns (trace: TagTrace)
    requires forall id :: id in matched <==> Fires(p.triggers, id, eventType, context)
    ensures IsVerdict(p, tag, matched, eventType, context, consent, trace)
  {
    hide Hits, Fires;
    var hits := MatchedTriggers(tag.triggerIds, matched);
    NoHits(p, tag.triggerIds, matched, eventType, context);
    var blocked := None;
    if !tag.enabled {
      blocked := Some(TagDisabled);
    } else if tag.triggerIds == [] {
      blocked := Some(NoTrigger);
    } else if hits == [] {
      blocked := Some(TagConditionsNotMet);
    } else if tag.consentPurpose.Some? {
      if tag.consentPurpose.value !in consent {
        blocked := Some(ConsentMissing);
      } else if !consent[tag.consentPurpose.value] {
        blocked := Some(ConsentDenied);
      }
    }
    trace := TagTrace(tag.id, hits, blocked);
  }
}
