/** Projection of a payload onto PyTagShield's destinations and routes. */
module PyTagShield {
  import opened Wrappers
  import opened Json
  import opened Conditions
  import opened Config
  import opened Preview
  import opened Projection
  import Glob

  datatype Entry = Entry(name: string, kind: string, enabled: bool, purpose: Option<string>, settings: Json)

  datatype Route = Route(name: string, destinations: seq<string>, enabled: bool, events: set<string>)

  datatype Issue =
    | SaltRequired
    | PolicyInvalid
    | TagWithoutDestination(tagId: string)
    | DestinationMissing(tagId: string, id: string)
    | DestinationNotProjectable(id: string)
    | TriggerMissing(tagId: string, id: string)
    | TriggerNotProjectable(tagId: string, id: string)
    | EventNameUnresolved(tagId: string)
    | NoExportableRoutes

  /** Destination settings with credentials resolved; `None` when that fails. */
  type Settings = Destination -> Option<(string, Json)>

  type Key = (string, Option<string>)

  function DestinationsById(ds: seq<Destination>): (m: map<string, Destination>)
    ensures forall id | id in m :: m[id] in ds && m[id].id == id
    ensures forall d | d in ds :: d.id in m
  {
    if ds == [] then map[]
    else
      var last := ds[|ds| - 1];
      assert ds == ds[..|ds| - 1] + [last];
      DestinationsById(ds[..|ds| - 1])[last.id := last]
  }

  function TriggersById(ts: seq<Trigger>): (m: map<string, Trigger>)
    ensures forall id | id in m :: m[id] in ts && m[id].id == id
    ensures forall t | t in ts :: t.id in m
  {
    if ts == [] then map[]
    else
      var last := ts[|ts| - 1];
      assert ts == ts[..|ts| - 1] + [last];
      TriggersById(ts[..|ts| - 1])[last.id := last]
  }

  /** `_trigger_patterns`. */
  function TriggerPatterns(t: Trigger): Projected {
    var p := PatternsOf(t.conditions);
    if p.Unconstrained? then (if t.ttype.PageView? then Patterns({"page_view"}) else Unsupported) else p
  }

  function EntryOf(d: Destination, purpose: Option<string>, alias: string, settings: (string, Json)): Entry {
    Entry(alias, settings.0, d.enabled, purpose, settings.1)
  }

  ghost predicate DistinctNames(entries: seq<Entry>) {
    forall i, j | 0 <= i < j < |entries| :: entries[i].name != entries[j].name
  }

  /** What the export has accumulated: destination entries, the alias of every
      (destination, purpose) pair projected so far, and the purposes. */
  datatype Output = Output(entries: seq<Entry>, aliases: map<Key, string>, used: set<string>, purposes: set<string>) {
    ghost predicate Valid(ds: map<string, Destination>, settings: Settings) {
      && DistinctNames(entries)
      && used == (set i | 0 <= i < |entries| :: entries[i].name)
      && purposes == (set i | 0 <= i < |entries| && entries[i].purpose.Some? :: entries[i].purpose.value)
      && (forall key | key in aliases :: Delivers(ds, settings, key, aliases[key]))
      && Aliased(ds)
    }

    /** Every alias tells its destination and purpose, and every entry has one. */
    ghost predicate Aliased(ds: map<string, Destination>) {
      && (forall key | key in aliases :: key.0 in ds && AliasBase(ds[key.0], key.1) <= aliases[key])
      && forall i | 0 <= i < |entries| :: HasAlias(entries[i].name)
    }

    ghost predicate HasAlias(name: string) {
      exists key :: key in aliases && aliases[key] == name
    }

    /** The alias names an entry, for this destination and this purpose. */
    ghost predicate Delivers(ds: map<string, Destination>, settings: Settings, key: Key, alias: string) {
      && key.0 in ds && settings(ds[key.0]).Some?
      && exists i | 0 <= i < |entries| :: entries[i] == EntryOf(ds[key.0], key.1, alias, settings(ds[key.0]).value)
    }
  }

  ghost predicate Extends(a: Output, b: Output) {
    a.entries <= b.entries
  }

  lemma DeliversExtends(a: Output, b: Output, ds: map<string, Destination>, settings: Settings, key: Key, alias: string)
    requires Extends(a, b) && a.Delivers(ds, settings, key, alias)
    ensures b.Delivers(ds, settings, key, alias)
  {
    var i :| 0 <= i < |a.entries| && a.entries[i] == EntryOf(ds[key.0], key.1, alias, settings(ds[key.0]).value);
    assert b.entries[i] == a.entries[i];
  }

  function Underscored(start: string, n: nat): (name: string)
    ensures |name| == |start| + n
  {
    if n == 0 then start else Underscored(start, n - 1) + "_"
  }

  /** `start` with the fewest underscores that make it unused. */
  ghost predicate FirstUnused(start: string, used: set<string>, name: string) {
    && name !in used
    && exists n: nat :: name == Underscored(start, n) && forall k: nat | k < n :: Underscored(start, k) in used
  }

  function ShortId(id: string): string { id[..if |id| < 8 then |id| else 8] }

  function AliasBase(d: Destination, purpose: Option<string>): string {
    d.name + " (" + (if purpose.Some? && purpose.value != "" then purpose.value else "ungated") + ")"
  }

  /** `_alias_name`: an alias not used before, telling destination and purpose and, if that is
      taken, the destination's id. */
  method AliasName(d: Destination, purpose: Option<string>, used: set<string>) returns (alias: string)
    ensures AliasBase(d, purpose) <= alias
    ensures if AliasBase(d, purpose) !in used then alias == AliasBase(d, purpose)
            else FirstUnused(AliasBase(d, purpose) + " [" + ShortId(d.id) + "]", used, alias)
  {
    var base := AliasBase(d, purpose);
    if base !in used { return base; }
    alias := UnusedName(base + " [" + ShortId(d.id) + "]", used);
    UnusedExtends(base + " [" + ShortId(d.id) + "]", used, alias);
  }

  lemma {:induction false} UnderscoredExtends(start: string, n: nat)
    ensures start <= Underscored(start, n)
  {
    if n > 0 { UnderscoredExtends(start, n - 1); }
  }

  lemma UnusedExtends(start: string, used: set<string>, name: string)
    requires FirstUnused(start, used, name)
    ensures start <= name
  {
    var n: nat :| name == Underscored(start, n);
    UnderscoredExtends(start, n);
  }

  function AtLeast(used: set<string>, n: nat): set<string> {
    set u | u in used && |u| >= n
  }

  /** Appends underscores until the name is unused. */
  method UnusedName(start: string, used: set<string>) returns (name: string)
    ensures FirstUnused(start, used, name)
  {
    name := start;
    ghost var n: nat := 0;
    while name in used
      invariant name == Underscored(start, n) && forall k: nat | k < n :: Underscored(start, k) in used
      decreases |AtLeast(used, |name|)|
    {
      ghost var before, after := AtLeast(used, |name|), AtLeast(used, |name| + 1);
      assert name in before && name !in after;
      assert before == after + (before - after);
      name := name + "_";
      n := n + 1;
    }
  }

  /** The destination exists and its settings can be expressed. */
  predicate DestinationOk(ds: map<string, Destination>, settings: Settings, id: string) {
    id in ds && settings(ds[id]).Some?
  }

  /** The trigger exists and, if enabled, constrains the event name expressibly. */
  predicate TriggerOk(ts: map<string, Trigger>, id: string) {
    id in ts && (ts[id].enabled ==> TriggerPatterns(ts[id]).Patterns?)
  }

  /** The tag is projectable: every destination and trigger it names exists and can be
      expressed, and some enabled trigger gives an event name. */
  predicate Projectable(ds: map<string, Destination>, ts: map<string, Trigger>, settings: Settings, tag: Tag) {
    && tag.destinationIds != []
    && (forall i | 0 <= i < |tag.destinationIds| :: DestinationOk(ds, settings, tag.destinationIds[i]))
    && (forall i | 0 <= i < |tag.triggerIds| :: TriggerOk(ts, tag.triggerIds[i]))
    && TagEvents(ts, tag.triggerIds) != {}
  }

  /** The patterns of the enabled triggers among `ids`. */
  function TagEvents(ts: map<string, Trigger>, ids: seq<string>): set<string> {
    set i, p | 0 <= i < |ids| && ids[i] in ts && ts[ids[i]].enabled && TriggerPatterns(ts[ids[i]]).Patterns?
             && p in TriggerPatterns(ts[ids[i]]).events :: p
  }

  /** The route a projectable tag gets. */
  ghost predicate RouteFor(ds: map<string, Destination>, ts: map<string, Trigger>, settings: Settings, out: Output,
                           tag: Tag, route: Route) {
    && route.enabled == tag.enabled && route.events == TagEvents(ts, tag.triggerIds)
    && |route.destinations| == |tag.destinationIds|
    && forall i | 0 <= i < |route.destinations| ::
         out.Delivers(ds, settings, (tag.destinationIds[i], tag.consentPurpose), route.destinations[i])
  }

  function ProjectableTags(ds: map<string, Destination>, ts: map<string, Trigger>, settings: Settings,
                           tags: seq<Tag>): (r: seq<Tag>)
    ensures forall t | t in r :: t in tags && Projectable(ds, ts, settings, t)
    ensures forall t | t in tags && Projectable(ds, ts, settings, t) :: t in r
    ensures |r| <= |tags|
  {
    if tags == [] then []
    else
      var last := tags[|tags| - 1];
      assert tags == tags[..|tags| - 1] + [last];
      var rest := ProjectableTags(ds, ts, settings, tags[..|tags| - 1]);
      if Projectable(ds, ts, settings, last) then rest + [last] else rest
  }

  /** The tag names this destination, under this purpose. */
  predicate Requests(tag: Tag, key: Key) { key.0 in tag.destinationIds && key.1 == tag.consentPurpose }

  /** New pairs are those the tag names. */
  ghost predicate RequestedBy(out: Output, out': Output, tag: Tag) {
    forall key | key in out'.aliases :: key in out.aliases || Requests(tag, key)
  }

  ghost predicate Requested(out: Output, tags: seq<Tag>) {
    forall key | key in out.aliases :: exists t | t in tags :: Requests(t, key)
  }

  lemma RequestedStep(out: Output, out': Output, tags: seq<Tag>, tag: Tag)
    requires Requested(out, tags) && RequestedBy(out, out', tag) && tag in tags
    ensures Requested(out', tags)
  {
    hide Requests;
  }

  lemma NothingRequested(out: Output, tag: Tag)
    ensures RequestedBy(out, out, tag)
  {
  }

  lemma RequestedStepBy(out: Output, out': Output, next: Output, tag: Tag, id: string)
    requires RequestedBy(out, out', tag) && id in tag.destinationIds
    requires next.aliases.Keys <= out'.aliases.Keys + {(id, tag.consentPurpose)}
    ensures RequestedBy(out, next, tag)
  {
    forall key | key in next.aliases
      ensures key in out.aliases || Requests(tag, key)
    {
      assert key in next.aliases.Keys;
    }
  }

  /** The destinations of one tag; entries are added for pairs not seen before. */
  method ProjectDestinations(ds: map<string, Destination>, settings: Settings, tag: Tag, out: Output)
    returns (out': Output, selected: seq<string>, errors: seq<Issue>)
    requires out.Valid(ds, settings)
    ensures out'.Valid(ds, settings) && Extends(out, out')
    ensures errors == [] <==>
      && tag.destinationIds != []
      && forall i | 0 <= i < |tag.destinationIds| :: DestinationOk(ds, settings, tag.destinationIds[i])
    ensures errors == [] ==> |selected| == |tag.destinationIds| && forall i | 0 <= i < |selected| ::
      out'.Delivers(ds, settings, (tag.destinationIds[i], tag.consentPurpose), selected[i])
    ensures RequestedBy(out, out', tag)
  {
    hide Output.Aliased, RequestedBy;
    NothingRequested(out, tag);
    out', selected, errors := out, [], [];
    if tag.destinationIds == [] { errors := [TagWithoutDestination(tag.id)]; }
    ghost var none := errors;
    for i := 0 to |tag.destinationIds|
      invariant out'.Valid(ds, settings) && Extends(out, out')
      invariant RequestedBy(out, out', tag)
      invariant errors == [] <==>
        (none == [] && forall j | 0 <= j < i :: DestinationOk(ds, settings, tag.destinationIds[j]))
      invariant errors == [] ==> |selected| == i && forall j | 0 <= j < i ::
        out'.Delivers(ds, settings, (tag.destinationIds[j], tag.consentPurpose), selected[j])
    {
      var id := tag.destinationIds[i];
      if id !in ds {
        errors := errors + [DestinationMissing(tag.id, id)];
      } else {
        var next, alias := ProjectDestination(ds, settings, id, tag.consentPurpose, out');
        forall j | 0 <= j < |selected| && errors == []
          ensures next.Delivers(ds, settings, (tag.destinationIds[j], tag.consentPurpose), selected[j])
        {
          DeliversExtends(out', next, ds, settings, (tag.destinationIds[j], tag.consentPurpose), selected[j]);
        }
        RequestedStepBy(out, out', next, tag, id);
        out' := next;
        if alias.None? {
          errors := errors + [DestinationNotProjectable(id)];
        } else {
          selected := selected + [alias.value];
        }
      }
    }
  }

  /** One (destination, purpose) pair: its alias, known or new. */
  method ProjectDestination(ds: map<string, Destination>, settings: Settings, id: string, purpose: Option<string>,
                            out: Output)
    returns (out': Output, alias: Option<string>)
    requires out.Valid(ds, settings) && id in ds
    ensures out'.Valid(ds, settings) && Extends(out, out')
    ensures alias.Some? <==> settings(ds[id]).Some?
    ensures alias.Some? ==> out'.Delivers(ds, settings, (id, purpose), alias.value)
    ensures out'.aliases.Keys <= out.aliases.Keys + {(id, purpose)}
  {
    var key := (id, purpose);
    out' := out;
    if key in out.aliases { return out, Some(out.aliases[key]); }
    var projected := settings(ds[id]);
    if projected.None? { return out, None; }
    var name := AliasName(ds[id], purpose, out.used);
    var entry := EntryOf(ds[id], purpose, name, projected.value);
    out' := Output(
      out.entries + [entry], out.aliases[key := name], out.used + {name},
      if purpose.Some? then out.purposes + {purpose.value} else out.purposes);
    assert out'.entries[|out.entries|] == entry;
    forall k | k in out'.aliases
      ensures out'.Delivers(ds, settings, k, out'.aliases[k])
    {
      if k != key { DeliversExtends(out, out', ds, settings, k, out.aliases[k]); }
    }
    AddedAlias(ds, out, out', key, entry);
    AddedEntry(out, out', entry);
    alias := Some(name);
  }

  lemma AddedAlias(ds: map<string, Destination>, out: Output, out': Output, key: Key, entry: Entry)
    requires out.Aliased(ds) && key !in out.aliases && key.0 in ds && AliasBase(ds[key.0], key.1) <= entry.name
    requires out'.entries == out.entries + [entry] && out'.aliases == out.aliases[key := entry.name]
    ensures out'.Aliased(ds)
  {
    hide AliasBase;
    assert out'.aliases[key] == entry.name;
    assert out'.HasAlias(entry.name);
    forall i | 0 <= i < |out.entries|
      ensures out'.entries[i] == out.entries[i] && out'.HasAlias(out.entries[i].name)
    {
      assert out.HasAlias(out.entries[i].name);
      var k :| k in out.aliases && out.aliases[k] == out.entries[i].name;
      assert out'.aliases[k] == out.aliases[k];
    }
  }

  lemma AddedEntry(out: Output, out': Output, entry: Entry)
    requires DistinctNames(out.entries)
    requires out.used == (set i | 0 <= i < |out.entries| :: out.entries[i].name)
    requires out.purposes ==
      (set i | 0 <= i < |out.entries| && out.entries[i].purpose.Some? :: out.entries[i].purpose.value)
    requires entry.name !in out.used && out'.entries == out.entries + [entry] && out'.used == out.used + {entry.name}
    requires out'.purposes == if entry.purpose.Some? then out.purposes + {entry.purpose.value} else out.purposes
    ensures DistinctNames(out'.entries)
    ensures out'.used == (set i | 0 <= i < |out'.entries| :: out'.entries[i].name)
    ensures out'.purposes ==
      (set i | 0 <= i < |out'.entries| && out'.entries[i].purpose.Some? :: out'.entries[i].purpose.value)
  {
    forall i | 0 <= i < |out.entries|
      ensures out'.entries[i] == out.entries[i] && out.entries[i].name in out.used
    {
    }
    assert out'.entries[|out.entries|] == entry;
  }

  /** The event patterns of one tag. */
  method ProjectTriggers(ts: map<string, Trigger>, tag: Tag) returns (events: set<string>, errors: seq<Issue>)
    ensures events == TagEvents(ts, tag.triggerIds)
    ensures errors == [] <==> (events != {} && forall i | 0 <= i < |tag.triggerIds| :: TriggerOk(ts, tag.triggerIds[i]))
  {
    events, errors := {}, [];
    for i := 0 to |tag.triggerIds|
      invariant events == TagEvents(ts, tag.triggerIds[..i])
      invariant errors == [] <==> forall j | 0 <= j < i :: TriggerOk(ts, tag.triggerIds[j])
    {
      var id := tag.triggerIds[i];
      TagEventsStep(ts, tag.triggerIds, i);
      if id !in ts {
        errors := errors + [TriggerMissing(tag.id, id)];
      } else if ts[id].enabled {
        var p := TriggerPatterns(ts[id]);
        if p.Patterns? {
          events := events + p.events;
        } else {
          errors := errors + [TriggerNotProjectable(tag.id, id)];
        }
      }
    }
    assert tag.triggerIds[..|tag.triggerIds|] == tag.triggerIds;
    if events == {} { errors := errors + [EventNameUnresolved(tag.id)]; }
  }

  lemma TagEventsStep(ts: map<string, Trigger>, ids: seq<string>, i: nat)
    requires i < |ids|
    ensures TagEvents(ts, ids[..i + 1]) == TagEvents(ts, ids[..i]) +
      if ids[i] in ts && ts[ids[i]].enabled && TriggerPatterns(ts[ids[i]]).Patterns?
      then TriggerPatterns(ts[ids[i]]).events else {}
  {
    hide TriggerPatterns;
    assert forall j | 0 <= j < i :: ids[..i + 1][j] == ids[..i][j];
    assert ids[..i + 1][i] == ids[i];
  }

  /** The exported configuration, its consent purposes and the errors met. */
  datatype Export = Export(salt: string, policy: string, purposes: set<string>, destinations: seq<Entry>,
                           routes: seq<Route>, errors: seq<Issue>)

  ghost predicate DistinctRouteNames(routes: seq<Route>) {
    forall i, j | 0 <= i < j < |routes| :: routes[i].name != routes[j].name
  }

  /** The routes are those of the projectable tags, in order. */
  ghost predicate RoutesOf(ds: map<string, Destination>, ts: map<string, Trigger>, settings: Settings, out: Output,
                           tags: seq<Tag>, routes: seq<Route>) {
    && |routes| == |ProjectableTags(ds, ts, settings, tags)|
    && forall k | 0 <= k < |routes| ::
         RouteFor(ds, ts, settings, out, ProjectableTags(ds, ts, settings, tags)[k], routes[k])
  }

  lemma RoutesExtend(ds: map<string, Destination>, ts: map<string, Trigger>, settings: Settings, a: Output, b: Output,
                     tags: seq<Tag>, routes: seq<Route>)
    requires Extends(a, b) && RoutesOf(ds, ts, settings, a, tags, routes)
    ensures RoutesOf(ds, ts, settings, b, tags, routes)
  {
    hide TagEvents, ProjectableTags;
    forall k | 0 <= k < |routes|
      ensures RouteFor(ds, ts, settings, b, ProjectableTags(ds, ts, settings, tags)[k], routes[k])
    {
      var tag, route := ProjectableTags(ds, ts, settings, tags)[k], routes[k];
      forall i | 0 <= i < |route.destinations|
        ensures b.Delivers(ds, settings, (tag.destinationIds[i], tag.consentPurpose), route.destinations[i])
      {
        DeliversExtends(a, b, ds, settings, (tag.destinationIds[i], tag.consentPurpose), route.destinations[i]);
      }
    }
  }

  /** One tag: a route when it is projectable, errors when it is not. */
  method ProjectTag(ds: map<string, Destination>, ts: map<string, Trigger>, settings: Settings, tag: Tag,
                    used: set<string>, out: Output)
    returns (out': Output, route: Option<Route>, errors: seq<Issue>)
    requires out.Valid(ds, settings)
    ensures out'.Valid(ds, settings) && Extends(out, out')
    ensures route.Some? <==> Projectable(ds, ts, settings, tag)
    ensures errors == [] <==> route.Some?
    ensures route.Some? ==> RouteFor(ds, ts, settings, out', tag, route.value) && route.value.name !in used
    ensures route.Some? ==> FirstUnused(tag.name + " (" + ShortId(tag.id) + ")", used, route.value.name)
    ensures RequestedBy(out, out', tag)
  {
    var selected, destinationErrors, events, triggerErrors;
    out', selected, destinationErrors := ProjectDestinations(ds, settings, tag, out);
    events, triggerErrors := ProjectTriggers(ts, tag);
    errors := destinationErrors + triggerErrors;
    if errors != [] { return out', None, errors; }
    var name := UnusedName(tag.name + " (" + ShortId(tag.id) + ")", used);
    route := Some(Route(name, selected, tag.enabled, events));
  }

  lemma ProjectableTagsStep(ds: map<string, Destination>, ts: map<string, Trigger>, settings: Settings, tags: seq<Tag>,
                            i: nat)
    requires i < |tags|
    ensures ProjectableTags(ds, ts, settings, tags[..i + 1]) == ProjectableTags(ds, ts, settings, tags[..i]) +
      if Projectable(ds, ts, settings, tags[i]) then [tags[i]] else []
  {
    assert tags[..i + 1][..i] == tags[..i];
  }

  /** What the export says of the payload: its entries are those accumulated, for destinations
      and purposes that tags name, and its routes are those of the projectable tags. */
  ghost predicate Exported(p: Payload, settings: Settings, e: Export, out: Output) {
    var ds, ts := DestinationsById(p.destinations), TriggersById(p.triggers);
    && out.Valid(ds, settings) && e.destinations == out.entries
    && Requested(out, p.tags)
    && RoutesOf(ds, ts, settings, out, p.tags, e.routes)
  }

  /** `project_to_pytagshield`.  Every route is that of a projectable tag and every such tag
      gets one; each alias a route names is a unique entry for that destination which carries
      the tag's consent purpose. */
  method Project(p: Payload, salt: string, policy: string, settings: Settings) returns (e: Export, ghost out: Output)
    ensures Exported(p, settings, e, out)
    ensures var ds, ts := DestinationsById(p.destinations), TriggersById(p.triggers);
      && (e.errors == [] <==> (salt != "" && (policy == "deny" || policy == "allow") && p.tags != []
            && forall i | 0 <= i < |p.tags| :: Projectable(ds, ts, settings, p.tags[i])))
    ensures DistinctNames(e.destinations) && DistinctRouteNames(e.routes)
    ensures e.purposes == if out.purposes == {} then {"analytics"} else out.purposes
    ensures e.salt == salt && e.policy == if policy == "deny" || policy == "allow" then policy else "deny"
  {
    var errors: seq<Issue> := [];
    if salt == "" { errors := errors + [SaltRequired]; }
    var chosen := policy;
    if policy != "deny" && policy != "allow" {
      errors := errors + [PolicyInvalid];
      chosen := "deny";
    }
    var ds, ts := DestinationsById(p.destinations), TriggersById(p.triggers);
    var o := Output([], map[], {}, {});
    var usedRoutes: set<string> := {};
    var routes: seq<Route> := [];
    ghost var ok := errors == [];
    hide Projectable, RouteFor, ProjectableTags, DestinationsById, TriggersById, FirstUnused, RequestedBy;
    assert Requested(o, p.tags) && o.Aliased(ds);
    hide Requested, Output.Aliased;
    assert p.tags[..0] == [];
    EmptyTags(ds, ts, settings);
    for i := 0 to |p.tags|
      invariant o.Valid(ds, settings) && RoutesOf(ds, ts, settings, o, p.tags[..i], routes)
      invariant Requested(o, p.tags)
      invariant DistinctRouteNames(routes) && forall k | 0 <= k < |routes| :: routes[k].name in usedRoutes
      invariant errors == [] <==> (ok && forall j | 0 <= j < i :: Projectable(ds, ts, settings, p.tags[j]))
      invariant errors == [] && i > 0 ==> routes != []
    {
      var next, route, more := ProjectTag(ds, ts, settings, p.tags[i], usedRoutes, o);
      RoutesExtend(ds, ts, settings, o, next, p.tags[..i], routes);
      RequestedStep(o, next, p.tags, p.tags[i]);
      ProjectableTagsStep(ds, ts, settings, p.tags, i);
      o, errors := next, errors + more;
      if route.Some? {
        usedRoutes := usedRoutes + {route.value.name};
        routes := routes + [route.value];
      }
    }
    assert p.tags[..|p.tags|] == p.tags;
    if routes == [] { errors := errors + [NoExportableRoutes]; }
    var purposes := if o.purposes == {} then {"analytics"} else o.purposes;
    e, out := Export(salt, chosen, purposes, o.entries, routes, errors), o;
  }

  lemma EmptyTags(ds: map<string, Destination>, ts: map<string, Trigger>, settings: Settings)
    ensures ProjectableTags(ds, ts, settings, []) == []
  {
  }

  /** The trigger's condition contributes the pattern `p` and means it: no wildcard in the
      literal it came from. */
  predicate FaithfulTrigger(t: Trigger, p: string) {
    PatternsOf(t.conditions).Patterns? ==> Faithful(t.conditions, p)
  }

  lemma TriggerPatternImpliesCondition(t: Trigger, p: string, name: string, context: Json)
    requires TriggerPatterns(t).Patterns? && p in TriggerPatterns(t).events && FaithfulTrigger(t, p)
    requires EventNameIs(context, name) && Glob.Accepts(p, name)
    ensures Evaluate(t.conditions, context)
  {
    hide Glob.Accepts, EventNameIs, Faithful;
    if PatternsOf(t.conditions).Unconstrained? {
      assert t.conditions == All([]);
    } else {
      PatternImpliesCondition(t.conditions, p, name, context);
    }
  }
}
