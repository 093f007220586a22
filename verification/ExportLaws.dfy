/** What an export to PyTagShield delivers, and to whom. */
module ExportLaws {
  import opened Wrappers
  import opened Json
  import opened Config
  import opened Validation
  import opened Projection
  import opened PyTagShield
  import Conditions
  import Variables
  import Glob

  /** The entry is this destination's, for this tag: enabled like the destination, with the
      kind and settings resolved for it, and gated by the tag's purpose. */
  predicate IsEntryOf(settings: Settings, entry: Entry, d: Destination, tag: Tag) {
    && settings(d).Some? && d.id in tag.destinationIds
    && entry.enabled == d.enabled && entry.kind == settings(d).value.0 && entry.settings == settings(d).value.1
    && entry.purpose == tag.consentPurpose
  }

  /** ... and its name begins with that of the destination and the purpose. */
  predicate NamedAfter(entry: Entry, d: Destination) {
    var purpose := if entry.purpose.Some? && entry.purpose.value != "" then entry.purpose.value else "ungated";
    d.name + " (" + purpose + ")" <= entry.name
  }

  lemma AliasedEntry(ds: map<string, Destination>, settings: Settings, out: Output, key: Key, i: nat)
    requires out.Valid(ds, settings) && key in out.aliases && i < |out.entries|
    requires out.aliases[key] == out.entries[i].name
    ensures key.0 in ds && settings(ds[key.0]).Some?
    ensures var entry, d := out.entries[i], ds[key.0];
      && entry.enabled == d.enabled && entry.kind == settings(d).value.0 && entry.settings == settings(d).value.1
      && entry.purpose == key.1 && NamedAfter(entry, d)
  {
    assert out.Delivers(ds, settings, key, out.aliases[key]);
    var j :| 0 <= j < |out.entries| && out.entries[j] == EntryOf(ds[key.0], key.1, out.aliases[key],
                                                               settings(ds[key.0]).value);
    assert out.entries[i].name == out.entries[j].name;
  }

  /** A trigger without conditions can be expressed only if it is for page views: then it selects
      the events of that name. */
  lemma UnconditionalTrigger(t: Trigger, name: string)
    requires t.conditions == Conditions.All([])
    ensures TriggerPatterns(t).Patterns? <==> t.ttype.PageView?
    ensures t.ttype.PageView? ==> (TriggerSelects(t, name) <==> name == "page_view")
  {
    if t.ttype.PageView? {
      Glob.EveryPatternMatchesItself("page_view");
      Glob.WildcardFreeMatchesItselfOnly("page_view", name);
      assert "page_view" in TriggerPatterns(t).events;
    }
    hide Glob.Accepts;
  }

  /** Every exported entry is that of a destination of the payload, for a tag that names it. */
  lemma EntriesAreDestinations(p: Payload, settings: Settings, e: Export, out: Output, i: nat)
    returns (tag: Tag, d: Destination)
    requires Exported(p, settings, e, out) && i < |e.destinations|
    ensures tag in p.tags && d in p.destinations
    ensures IsEntryOf(settings, e.destinations[i], d, tag) && NamedAfter(e.destinations[i], d)
  {
    var ds := DestinationsById(p.destinations);
    hide RoutesOf, DestinationsById, TriggersById, NamedAfter, DistinctNames;
    assert out.HasAlias(out.entries[i].name);
    var key :| key in out.aliases && out.aliases[key] == out.entries[i].name;
    AliasedEntry(ds, settings, out, key, i);
    tag :| tag in p.tags && Requests(tag, key);
    d := ds[key.0];
  }

  /** Under this export the event name reaches the entry: the entry is enabled, and so is a
      route that names it and whose patterns select the event. */
  ghost predicate Reaches(e: Export, name: string, entry: Entry) {
    && entry in e.destinations && entry.enabled
    && exists k :: 0 <= k < |e.routes| && RouteReaches(e.routes[k], name, entry)
  }

  ghost predicate RouteReaches(route: Route, name: string, entry: Entry) {
    route.enabled && entry.name in route.destinations && Selects(route.events, name)
  }

  /** The trigger contributes a pattern that selects the name. */
  ghost predicate TriggerSelects(t: Trigger, name: string) {
    TriggerPatterns(t).Patterns? && Selects(TriggerPatterns(t).events, name)
  }

  lemma SelectingTrigger(p: Payload, ids: seq<string>, name: string) returns (t: Trigger)
    requires Selects(TagEvents(TriggersById(p.triggers), ids), name)
    ensures t in p.triggers && t.enabled && t.id in ids && TriggerSelects(t, name)
  {
    hide TriggerPatterns, Glob.Accepts;
    var ts := TriggersById(p.triggers);
    var q :| q in TagEvents(ts, ids) && Glob.Accepts(q, name);
    var i :| 0 <= i < |ids| && ids[i] in ts && ts[ids[i]].enabled && TriggerPatterns(ts[ids[i]]).Patterns?
      && q in TriggerPatterns(ts[ids[i]]).events;
    t := ts[ids[i]];
  }

  lemma RouteOf(p: Payload, settings: Settings, e: Export, out: Output, k: nat) returns (tag: Tag)
    requires Exported(p, settings, e, out) && k < |e.routes|
    ensures tag in p.tags && Projectable(DestinationsById(p.destinations), TriggersById(p.triggers), settings, tag)
    ensures RouteFor(DestinationsById(p.destinations), TriggersById(p.triggers), settings, out, tag, e.routes[k])
  {
    hide Output.Valid, Requested, DestinationsById, TriggersById, RouteFor, Projectable;
    tag := ProjectableTags(DestinationsById(p.destinations), TriggersById(p.triggers), settings, p.tags)[k];
    hide ProjectableTags;
  }

  /** The one entry of a pair's alias. */
  lemma DeliveredEntry(ds: map<string, Destination>, settings: Settings, out: Output, tag: Tag, id: string,
                       alias: string)
    returns (entry: Entry)
    requires DistinctNames(out.entries) && out.Delivers(ds, settings, (id, tag.consentPurpose), alias)
    requires id in tag.destinationIds && forall k | k in ds :: ds[k].id == k
    ensures entry in out.entries && entry.name == alias && id in ds && IsEntryOf(settings, entry, ds[id], tag)
    ensures forall other | other in out.entries && other.name == alias :: other == entry
  {
    var i :| 0 <= i < |out.entries|
      && out.entries[i] == EntryOf(ds[id], tag.consentPurpose, alias, settings(ds[id]).value);
    entry := out.entries[i];
  }

  lemma DestinationIds(p: Payload)
    ensures var ds := DestinationsById(p.destinations); forall k | k in ds :: ds[k].id == k && ds[k] in p.destinations
  {
  }

  lemma RouteDelivers(p: Payload, settings: Settings, out: Output, tag: Tag, route: Route, j: nat)
    requires RouteFor(DestinationsById(p.destinations), TriggersById(p.triggers), settings, out, tag, route)
    requires j < |route.destinations|
    ensures j < |tag.destinationIds|
    ensures out.Delivers(DestinationsById(p.destinations), settings, (tag.destinationIds[j], tag.consentPurpose),
                         route.destinations[j])
    ensures route.enabled == tag.enabled && route.events == TagEvents(TriggersById(p.triggers), tag.triggerIds)
  {
    hide DestinationsById, TriggersById, TagEvents;
  }

  lemma ExportedEntries(p: Payload, settings: Settings, e: Export, out: Output)
    requires Exported(p, settings, e, out)
    ensures e.destinations == out.entries && DistinctNames(out.entries)
  {
    hide RoutesOf, Requested, DestinationsById, TriggersById, DistinctNames;
  }

  lemma RouteEntry(p: Payload, settings: Settings, e: Export, out: Output, k: nat, j: nat, entry: Entry)
    returns (tag: Tag, d: Destination)
    requires Exported(p, settings, e, out) && k < |e.routes| && j < |e.routes[k].destinations|
    requires entry in e.destinations && e.routes[k].destinations[j] == entry.name
    ensures tag in p.tags && d in p.destinations && IsEntryOf(settings, entry, d, tag)
    ensures e.routes[k].enabled == tag.enabled
    ensures e.routes[k].events == TagEvents(TriggersById(p.triggers), tag.triggerIds)
  {
    hide *;
    var ds := DestinationsById(p.destinations);
    tag := RouteOf(p, settings, e, out, k);
    RouteDelivers(p, settings, out, tag, e.routes[k], j);
    ExportedEntries(p, settings, e, out);
    DestinationIds(p);
    var found := DeliveredEntry(ds, settings, out, tag, tag.destinationIds[j], entry.name);
    d := ds[tag.destinationIds[j]];
  }

  /** An event reaches a destination only if that destination is enabled, an enabled tag names
      it, and an enabled trigger of the same tag selects the event's name; and then under that
      tag's purpose. */
  lemma ReachedIsEnabled(p: Payload, settings: Settings, e: Export, out: Output, name: string, entry: Entry)
    returns (tag: Tag, d: Destination, t: Trigger)
    requires Exported(p, settings, e, out) && Reaches(e, name, entry)
    ensures tag in p.tags && d in p.destinations && t in p.triggers && IsEntryOf(settings, entry, d, tag)
    ensures tag.enabled && d.enabled && t.enabled && t.id in tag.triggerIds && TriggerSelects(t, name)
  {
    hide Exported, TagEvents, TriggersById, Selects, TriggerSelects, IsEntryOf;
    var k :| 0 <= k < |e.routes| && RouteReaches(e.routes[k], name, entry);
    var j :| 0 <= j < |e.routes[k].destinations| && e.routes[k].destinations[j] == entry.name;
    tag, d := RouteEntry(p, settings, e, out, k, j, entry);
    t := SelectingTrigger(p, tag.triggerIds, name);
    assert entry.enabled == d.enabled by { EntryEnabled(settings, entry, d, tag); }
  }

  lemma EntryEnabled(settings: Settings, entry: Entry, d: Destination, tag: Tag)
    requires IsEntryOf(settings, entry, d, tag)
    ensures entry.enabled == d.enabled
  {
  }

  /** And if so it does reach it: a projectable enabled tag with an enabled destination and an
      enabled trigger that selects the name has a route and an entry for it. */
  lemma EnabledIsReached(p: Payload, settings: Settings, e: Export, out: Output, i: nat, d: Destination, t: Trigger,
                         name: string)
    returns (entry: Entry)
    requires Exported(p, settings, e, out) && i < |p.tags|
    requires Distinct(TriggerIdSeq(p.triggers)) && Distinct(DestinationIdSeq(p.destinations))
    requires Projectable(DestinationsById(p.destinations), TriggersById(p.triggers), settings, p.tags[i])
    requires p.tags[i].enabled && d in p.destinations && d.enabled && d.id in p.tags[i].destinationIds
    requires t in p.triggers && t.enabled && t.id in p.tags[i].triggerIds && TriggerSelects(t, name)
    ensures Reaches(e, name, entry) && IsEntryOf(settings, entry, d, p.tags[i])
  {
    hide *;
    var ds, tag := DestinationsById(p.destinations), p.tags[i];
    var k := RouteOfTag(p, settings, e, out, i);
    ExportedEntries(p, settings, e, out);
    RouteLists(p, settings, out, tag, e.routes[k]);
    var j :| 0 <= j < |tag.destinationIds| && tag.destinationIds[j] == d.id;
    RouteDelivers(p, settings, out, tag, e.routes[k], j);
    DestinationIds(p);
    DestinationFound(p.destinations, d);
    entry := DeliveredEntry(ds, settings, out, tag, tag.destinationIds[j], e.routes[k].destinations[j]);
    EntryEnabled(settings, entry, d, tag);
    TriggerFound(p.triggers, t);
    SelectedByTag(TriggersById(p.triggers), tag.triggerIds, t, name);
    RouteIsReached(e, k, name, entry);
  }

  lemma RouteLists(p: Payload, settings: Settings, out: Output, tag: Tag, route: Route)
    requires RouteFor(DestinationsById(p.destinations), TriggersById(p.triggers), settings, out, tag, route)
    ensures |route.destinations| == |tag.destinationIds|
  {
    hide DestinationsById, TriggersById, TagEvents;
  }

  lemma RouteOfTag(p: Payload, settings: Settings, e: Export, out: Output, i: nat) returns (k: nat)
    requires Exported(p, settings, e, out) && i < |p.tags|
    requires Projectable(DestinationsById(p.destinations), TriggersById(p.triggers), settings, p.tags[i])
    ensures k < |e.routes|
    ensures RouteFor(DestinationsById(p.destinations), TriggersById(p.triggers), settings, out, p.tags[i], e.routes[k])
  {
    hide Output.Valid, Requested, DestinationsById, TriggersById, RouteFor, Projectable;
    var tags := ProjectableTags(DestinationsById(p.destinations), TriggersById(p.triggers), settings, p.tags);
    assert p.tags[i] in tags;
    k :| 0 <= k < |tags| && tags[k] == p.tags[i];
    hide ProjectableTags;
  }

  lemma SelectedByTag(ts: map<string, Trigger>, ids: seq<string>, t: Trigger, name: string)
    requires t.id in ids && t.id in ts && ts[t.id] == t && t.enabled && TriggerSelects(t, name)
    ensures Selects(TagEvents(ts, ids), name)
  {
    hide TriggerPatterns, Glob.Accepts;
    var q :| q in TriggerPatterns(t).events && Glob.Accepts(q, name);
    var n :| 0 <= n < |ids| && ids[n] == t.id;
    assert q in TagEvents(ts, ids);
  }

  lemma RouteIsReached(e: Export, k: nat, name: string, entry: Entry)
    requires k < |e.routes| && entry in e.destinations && entry.enabled
    requires e.routes[k].enabled && entry.name in e.routes[k].destinations && Selects(e.routes[k].events, name)
    ensures Reaches(e, name, entry)
  {
    hide Selects;
    assert RouteReaches(e.routes[k], name, entry);
  }

  lemma TriggerFound(ts: seq<Trigger>, t: Trigger)
    requires t in ts && Distinct(TriggerIdSeq(ts))
    ensures t.id in TriggersById(ts) && TriggersById(ts)[t.id] == t
  {
    var found := TriggersById(ts)[t.id];
    hide TriggersById;
    var i :| 0 <= i < |ts| && ts[i] == t;
    var j :| 0 <= j < |ts| && ts[j] == found;
    SamePlace(TriggerIdSeq(ts), i, j);
  }

  lemma DestinationFound(ds: seq<Destination>, d: Destination)
    requires d in ds && Distinct(DestinationIdSeq(ds))
    ensures d.id in DestinationsById(ds) && DestinationsById(ds)[d.id] == d
  {
    var found := DestinationsById(ds)[d.id];
    hide DestinationsById;
    var i :| 0 <= i < |ds| && ds[i] == d;
    var j :| 0 <= j < |ds| && ds[j] == found;
    SamePlace(DestinationIdSeq(ds), i, j);
  }

  lemma SamePlace(ids: seq<string>, i: nat, j: nat)
    requires Distinct(ids) && i < |ids| && j < |ids| && ids[i] == ids[j]
    ensures i == j
  {
  }

  /** A valid payload has one object per id, and its tags name objects that exist: projecting it
      never reports a missing trigger or destination, and looks up what the tag means. */
  lemma ValidReferencesFound(p: Payload, w: Variables.World, registry: Registry, i: nat)
    requires ValidPayload(p, w, registry) && i < |p.tags|
    ensures Distinct(DestinationIdSeq(p.destinations)) && Distinct(TriggerIdSeq(p.triggers))
    ensures forall id | id in p.tags[i].destinationIds :: id in DestinationsById(p.destinations)
    ensures forall id | id in p.tags[i].triggerIds :: id in TriggersById(p.triggers)
    ensures forall v, u | v in p.variables && u in p.variables && v.id == u.id :: v == u
    ensures forall id | id in p.tags[i].variableIds :: exists v :: v in p.variables && v.id == id
  {
    var tags, triggers := TagIds(p.tags), TriggerIdSeq(p.triggers);
    var variables, destinations := VariableIdSeq(p.variables), DestinationIdSeq(p.destinations);
    DistinctParts(tags, triggers, variables, destinations);
    assert TagSound(p, p.tags[i], registry);
    hide DestinationsById, TriggersById, VariableSound, TriggerRefsKnown;
    forall v, u | v in p.variables && u in p.variables && v.id == u.id
      ensures v == u
    {
      var j :| 0 <= j < |p.variables| && p.variables[j] == v;
      var k :| 0 <= k < |p.variables| && p.variables[k] == u;
      assert variables[j] == variables[k];
    }
  }

  lemma DistinctParts(a: seq<string>, b: seq<string>, c: seq<string>, d: seq<string>)
    requires Distinct(a + b + c + d)
    ensures Distinct(a) && Distinct(b) && Distinct(c) && Distinct(d)
  {
    var whole := a + b + c + d;
    forall i, j | 0 <= i < j < |a|
      ensures a[i] != a[j]
    {
      assert whole[i] == a[i] && whole[j] == a[j];
    }
    forall i, j | 0 <= i < j < |b|
      ensures b[i] != b[j]
    {
      assert whole[|a| + i] == b[i] && whole[|a| + j] == b[j];
    }
    forall i, j | 0 <= i < j < |c|
      ensures c[i] != c[j]
    {
      assert whole[|a + b| + i] == c[i] && whole[|a + b| + j] == c[j];
    }
    forall i, j | 0 <= i < j < |d|
      ensures d[i] != d[j]
    {
      assert whole[|a + b + c| + i] == d[i] && whole[|a + b + c| + j] == d[j];
    }
  }
}
