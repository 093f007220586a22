/** What conditions see of an event, and what triggers make of it. */
module PreviewLaws {
  import opened Wrappers
  import opened Json
  import opened Conditions
  import opened Config
  import opened Preview
  import opened Simulation
  import opened ConditionLaws
  import opened RecordLaws
  import Sorting
  import Variables
  import Expressions
  import Resolver
  import Redaction

  /** The context of an event, segment by segment. */
  lemma ContextTop(event: Event, consent: map<string, bool>, variables: map<string, Json>)
    ensures var context := ConditionContext(event, consent, variables);
      && context.Obj?
      && ResolvePath(context, "page") == Some(event.page)
      && ResolvePath(context, "dom") == Some(event.dom)
      && ResolvePath(context, "data_layer") == Some(event.dataLayer)
      && ResolvePath(context, "variables") == Some(Obj(variables))
      && ResolvePath(context, "consent") == Some(Obj(map purpose | purpose in consent :: Bool(consent[purpose])))
      && ResolvePath(context, "event") == Some(EventCore(event))
  {
    var context := ConditionContext(event, consent, variables);
    NoDotsInNames();
    FirstSegment(context, "page");
    FirstSegment(context, "dom");
    FirstSegment(context, "data_layer");
    FirstSegment(context, "variables");
    FirstSegment(context, "consent");
    FirstSegment(context, "event");
    hide ResolvePath, EventCore;
  }

  lemma NoDotsInNames()
    ensures '.' !in "page" && '.' !in "dom" && '.' !in "data_layer" && '.' !in "variables" && '.' !in "consent"
    ensures '.' !in "event" && '.' !in "name" && '.' !in "type" && '.' !in "properties"
  {
  }

  /** What paths find in the context: the event's name and type, its properties (on the event
      itself too, unless one of them is called `name`, `type` or `properties`), the consent
      state, and the variables. */
  lemma ContextPaths(event: Event, consent: map<string, bool>, variables: map<string, Json>, part: string)
    requires '.' !in part
    ensures var context := ConditionContext(event, consent, variables);
      && ResolvePath(context, "event.name") == Some(Str(event.name))
      && ResolvePath(context, "event.type") == Some(Str(event.etype))
      && (part !in {"name", "type", "properties"} ==>
            ResolvePath(context, "event." + part) ==
              if part in event.properties then Some(event.properties[part]) else None)
      && ResolvePath(context, "event.properties." + part) ==
           (if part in event.properties then Some(event.properties[part]) else None)
      && ResolvePath(context, "consent." + part) == (if part in consent then Some(Bool(consent[part])) else None)
      && ResolvePath(context, "variables." + part) == (if part in variables then Some(variables[part]) else None)
  {
    hide *;
    var context := ConditionContext(event, consent, variables);
    ContextTop(event, consent, variables);
    NoDotsInNames();
    EventPaths(event, context, part);
    Under("consent", "consent.", context, map purpose | purpose in consent :: Bool(consent[purpose]), part);
    Under("variables", "variables.", context, variables, part);
  }

  /** One segment below a path that finds an object. */
  lemma Under(path: string, dotted: string, context: Json, fields: map<string, Json>, part: string)
    requires ResolvePath(context, path) == Some(Obj(fields)) && '.' !in part && dotted == path + "."
    ensures ResolvePath(context, dotted + part) == if part in fields then Some(fields[part]) else None
  {
    FieldPath(path, context, part);
    hide ResolvePath;
  }

  lemma EventPaths(event: Event, context: Json, part: string)
    requires '.' !in part && ResolvePath(context, "event") == Some(EventCore(event))
    ensures ResolvePath(context, "event.name") == Some(Str(event.name))
    ensures ResolvePath(context, "event.type") == Some(Str(event.etype))
    ensures part !in {"name", "type", "properties"} ==>
      ResolvePath(context, "event." + part) ==
        if part in event.properties then Some(event.properties[part]) else None
    ensures ResolvePath(context, "event.properties." + part) ==
      if part in event.properties then Some(event.properties[part]) else None
  {
    hide ResolvePath;
    var fields := EventCore(event).fields;
    NoDotsInNames();
    Under("event", "event.", context, fields, "name");
    assert "event." + "name" == "event.name";
    Under("event", "event.", context, fields, "type");
    assert "event." + "type" == "event.type";
    Under("event", "event.", context, fields, part);
    Under("event", "event.", context, fields, "properties");
    assert "event." + "properties" == "event.properties";
    Under("event.properties", "event.properties.", context, event.properties, part);
  }

  /** Which events a trigger is for: those of the type of its own name, and any for the two
      types that watch the page and the variables.  A disabled trigger is for none. */
  lemma MatchedIff(t: Trigger, eventType: string, context: Json)
    ensures TriggerOutcome(t, eventType, context).Matched? <==>
      && t.enabled && Evaluate(t.conditions, context)
      && match t.ttype
         case PageView => eventType == "page_view"
         case CustomEvent => eventType == "custom_event"
         case Click => eventType == "click"
         case LinkClick => eventType == "link_click"
         case FormSubmit => eventType == "form_submit"
         case RouteChange => eventType == "route_change"
         case ConsentChange => eventType == "consent_change"
         case DomCondition => true
         case VariableCondition => true
  {
    hide Evaluate;
  }

  /** Of several reasons the trace gives the first: disabled, wrong type, unmet conditions. */
  lemma ReasonOrder(t: Trigger, eventType: string, context: Json)
    ensures TriggerOutcome(t, eventType, context).TriggerDisabled? <==> !t.enabled
    ensures TriggerOutcome(t, eventType, context).ConditionsNotMet? ==> t.enabled && !Evaluate(t.conditions, context)
    ensures t.enabled && Evaluate(t.conditions, context) ==> !TriggerOutcome(t, eventType, context).ConditionsNotMet?
  {
    hide Evaluate;
  }

  /** The trace lists the triggers by priority, the highest first, and those of one priority
      as they are declared. */
  lemma TriggersByPriority(triggers: seq<Trigger>, eventType: string, context: Json, traces: seq<TriggerTrace>, i: nat,
                           j: nat)
    requires IsTriggerTrace(triggers, eventType, context, traces) && i < j < |traces|
    ensures traces[i].place.index < |triggers| && traces[j].place.index < |triggers|
    ensures var first, second := traces[i].place.index, traces[j].place.index;
      triggers[first].priority > triggers[second].priority
      || (triggers[first].priority == triggers[second].priority && first < second)
  {
    var places := PlacesOf(traces);
    hide TriggerOutcome;
    assert places[i] in Places(triggers) && places[j] in Places(triggers);
    assert Earlier(places[i], places[j]);
  }

  /** The last record of an id decides what conditions see of it. */
  lemma {:induction false} RawVariableIff(rs: seq<Variables.Resolution>, i: nat)
    requires i < |rs| && forall j | 0 <= j < |rs| && rs[j].id == rs[i].id :: j == i
    ensures rs[i].id in RawVariables(rs) <==> HasValue(rs[i])
    ensures HasValue(rs[i]) ==> RawVariables(rs)[rs[i].id] == rs[i].value
  {
    var front, last := rs[..|rs| - 1], rs[|rs| - 1];
    if i < |front| {
      assert front[i] == rs[i] && forall j | 0 <= j < |front| && front[j].id == front[i].id :: rs[j] == front[j];
      RawVariableIff(front, i);
    } else {
      NoRecordNoVariable(front, last.id);
    }
  }

  lemma {:induction false} NoRecordNoVariable(rs: seq<Variables.Resolution>, id: string)
    requires forall j | 0 <= j < |rs| :: rs[j].id != id
    ensures id !in RawVariables(rs)
  {
    if rs != [] { NoRecordNoVariable(rs[..|rs| - 1], id); }
  }

  lemma MeaningId(w: Variables.World, id: string, r: Variables.Resolution)
    requires Variables.Known(w) && Resolver.IsMeaning(w, id, r)
    ensures r.id == id
  {
    Redaction.NoValueIsNull(w, id, r);
  }

  /** In a preview, conditions see of a variable the value in its record, which has the declared
      type, and see nothing of a variable without a value. */
  lemma PreviewShowsVariables(p: Payload, event: Event, defaults: map<string, bool>, override: map<string, bool>,
                              lib: Expressions.Library, t: Trace, i: nat)
    requires IsPreview(p, event, defaults, override, lib, t) && i < |p.variables| && '.' !in p.variables[i].id
    requires forall j, k | 0 <= j < k < |p.variables| :: p.variables[j].id != p.variables[k].id
    ensures var r, v := t.resolutions[i], p.variables[i];
      && ResolvePath(t.context, "variables." + v.id) == (if HasValue(r) then Some(r.value) else None)
      && (HasValue(r) ==> v.enabled && OfType(r.value, v.vtype))
  {
    var raw := RawVariables(t.resolutions);
    RecordIds(p, event, defaults, override, lib, t);
    RawVariableIff(t.resolutions, i);
    ContextPaths(event, t.consent, raw, p.variables[i].id);
    RecordHasType(p, event, defaults, override, lib, t, i);
    hide ConsentState, ConditionContext, AreMeanings, IsTriggerTrace, IsVerdict, Fires, RawVariables, OfType, HasValue,
         ResolvePath;
  }

  lemma RecordIds(p: Payload, event: Event, defaults: map<string, bool>, override: map<string, bool>,
                  lib: Expressions.Library, t: Trace)
    requires IsPreview(p, event, defaults, override, lib, t)
    ensures |t.resolutions| == |p.variables|
    ensures forall j | 0 <= j < |p.variables| :: t.resolutions[j].id == p.variables[j].id
  {
    var w := EventWorld(p, event, t.consent, lib);
    hide ConsentState, ConditionContext, Resolver.IsMeaning, IsTriggerTrace, IsVerdict, Fires, RawVariables;
    forall j | 0 <= j < |p.variables|
      ensures t.resolutions[j].id == p.variables[j].id
    {
      MeaningId(w, p.variables[j].id, t.resolutions[j]);
    }
  }

  lemma RecordHasType(p: Payload, event: Event, defaults: map<string, bool>, override: map<string, bool>,
                      lib: Expressions.Library, t: Trace, i: nat)
    requires IsPreview(p, event, defaults, override, lib, t) && i < |p.variables| && i < |t.resolutions|
    requires forall j, k | 0 <= j < k < |p.variables| :: p.variables[j].id != p.variables[k].id
    ensures HasValue(t.resolutions[i]) ==>
      p.variables[i].enabled && OfType(t.resolutions[i].value, p.variables[i].vtype)
  {
    var w := EventWorld(p, event, t.consent, lib);
    hide ConsentState, ConditionContext, Resolver.IsMeaning, IsTriggerTrace, IsVerdict, Fires, RawVariables;
    assert p.variables[i].id in w.vars && w.vars[p.variables[i].id] == p.variables[i];
    if HasValue(t.resolutions[i]) { RecordRespectsType(w, p.variables[i].id, t.resolutions[i]); }
    hide OfType, HasValue;
  }

  /** A trigger of that id matched. */
  predicate Matched(t: Trace, id: string) {
    exists j :: 0 <= j < |t.triggers| && t.triggers[j].id == id && t.triggers[j].reason.Matched?
  }

  lemma FiresIffMatched(p: Payload, event: Event, t: Trace, id: string)
    requires IsTriggerTrace(p.triggers, event.etype, t.context, t.triggers)
    ensures Fires(p.triggers, id, event.etype, t.context) <==> Matched(t, id)
  {
    MatchedIffFires(p.triggers, event.etype, t.context, t.triggers, id);
    hide IsTriggerTrace, Fires;
  }

  /** The verdict on a tag, from the trace itself: it is selected if and only if it is enabled, one
      of its triggers matched, and the purpose it names, if any, has consent; and otherwise
      the reason is the first of these that fails. */
  lemma VerdictIff(p: Payload, event: Event, defaults: map<string, bool>, override: map<string, bool>,
                   lib: Expressions.Library, t: Trace, k: nat)
    requires IsPreview(p, event, defaults, override, lib, t) && k < |p.tags|
    ensures var tag, blocked := p.tags[k], t.tags[k].blocked;
      var fired := exists id | id in tag.triggerIds :: Matched(t, id);
      var purpose := tag.consentPurpose;
      var known := purpose.Some? && purpose.value in t.consent;
      && t.tags[k].tagId == tag.id
      && (blocked == Some(TagDisabled) <==> !tag.enabled)
      && (blocked == Some(NoTrigger) <==> tag.enabled && tag.triggerIds == [])
      && (blocked == Some(TagConditionsNotMet) <==> tag.enabled && tag.triggerIds != [] && !fired)
      && (blocked == Some(ConsentMissing) <==> tag.enabled && fired && purpose.Some? && !known)
      && (blocked == Some(ConsentDenied) <==> tag.enabled && fired && known && !t.consent[purpose.value])
      && (blocked == None <==> tag.enabled && fired && (purpose.None? || (known && t.consent[purpose.value])))
    ensures forall id :: id in t.tags[k].matchedTriggers <==> id in p.tags[k].triggerIds && Matched(t, id)
  {
    var tag := p.tags[k];
    hide ConsentState, ConditionContext, AreMeanings, RawVariables, IsTriggerTrace, Fires, Matched;
    forall id
      ensures Fires(p.triggers, id, event.etype, t.context) <==> Matched(t, id)
    {
      FiresIffMatched(p, event, t, id);
    }
    assert IsVerdict(p, tag, t.matched, event.etype, t.context, t.consent, t.tags[k]);
    hide IsPreview, Hits;
    VerdictCases(p, tag, t.matched, event.etype, t.context, t.consent, t.tags[k]);
  }

  lemma VerdictCases(p: Payload, tag: Tag, matched: set<string>, eventType: string, context: Json,
                     consent: map<string, bool>, trace: TagTrace)
    requires IsVerdict(p, tag, matched, eventType, context, consent, trace)
    requires forall id :: id in matched <==> Fires(p.triggers, id, eventType, context)
    ensures var fired := exists id | id in tag.triggerIds :: Fires(p.triggers, id, eventType, context);
      var purpose := tag.consentPurpose;
      var known := purpose.Some? && purpose.value in consent;
      && (trace.blocked == Some(ConsentMissing) <==> tag.enabled && fired && purpose.Some? && !known)
      && (trace.blocked == Some(ConsentDenied) <==> tag.enabled && fired && known && !consent[purpose.value])
      && (trace.blocked == None <==> tag.enabled && fired && (purpose.None? || (known && consent[purpose.value])))
      && (trace.blocked == Some(TagConditionsNotMet) <==> tag.enabled && tag.triggerIds != [] && !fired)
    ensures forall id :: id in trace.matchedTriggers <==> id in tag.triggerIds && id in matched
  {
    hide Fires;
    assert tag.triggerIds != [] ==> tag.triggerIds[0] in tag.triggerIds;
    if i :| 0 <= i < |tag.triggerIds| && Fires(p.triggers, tag.triggerIds[i], eventType, context) {
      assert tag.triggerIds[i] in tag.triggerIds;
    }
  }

  /** Whose word on consent counts: the override's, else the event's, else what was stored, else
      the default. */
  lemma ConsentPrecedence(p: Payload, event: Event, defaults: map<string, bool>, override: map<string, bool>,
                          lib: Expressions.Library, t: Trace, purpose: string)
    requires IsPreview(p, event, defaults, override, lib, t)
    ensures purpose in override ==> purpose in t.consent && t.consent[purpose] == override[purpose]
    ensures purpose !in override && purpose in event.consent ==>
      purpose in t.consent && t.consent[purpose] == event.consent[purpose]
    ensures purpose !in override && purpose !in event.consent && purpose in event.storedConsent ==>
      purpose in t.consent && t.consent[purpose] == event.storedConsent[purpose]
    ensures purpose !in override && purpose !in event.consent && purpose !in event.storedConsent ==>
      (purpose in t.consent <==> purpose in defaults)
      && (purpose in defaults ==> t.consent[purpose] == defaults[purpose])
  {
    hide ConditionContext, AreMeanings, RawVariables, IsTriggerTrace, Fires, IsVerdict;
  }
}
