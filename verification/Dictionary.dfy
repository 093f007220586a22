/** The data dictionary: what a crawl observed, with pages, types and times. */
module Dictionary {
  import opened Wrappers
  import opened Sorting

  /** A data-layer value; objects keep their fields in insertion order. */
  datatype Value =
    | NullValue
    | BoolValue(b: bool)
    | NumberValue(r: real, text: string)    // and how it is written
    | TextValue(s: string)
    | ArrayValue(length: nat)
    | ObjectValue(fields: seq<Field>)

  datatype Field = Field(key: string, value: Value)

  /** A cookie or storage entry: its key and the type of its value. */
  datatype Entry = Entry(key: string, valueType: string)

  datatype Snapshot = Snapshot(
    page: string, time: real, cookies: seq<Entry>, localStorage: seq<Entry>, sessionStorage: seq<Entry>,
    dataLayer: seq<Value>)

  /** A path or an event's name; a number that names an event is taken as it is, and as keys
      equal numbers are one, true being 1. */
  datatype Name = TextName(s: string) | NumberName(r: real)

  /** What a dictionary variable is known by. */
  datatype Key = Key(source: string, name: Name)

  datatype Observation = Observation(key: Key, page: string, valueType: string, time: real)

  const MAX_DATALAYER_DEPTH: nat := 6

  function ValueType(v: Value): string {
    match v
    case NullValue => "null"
    case BoolValue(_) => "boolean"
    case NumberValue(_, _) => "number"
    case TextValue(_) => "string"
    case ArrayValue(_) => "array"
    case ObjectValue(_) => "object"
  }

  predicate Truthy(v: Value) {
    match v
    case NullValue => false
    case BoolValue(b) => b
    case NumberValue(r, _) => r != 0.0
    case TextValue(s) => s != ""
    case ArrayValue(length) => length > 0
    case ObjectValue(fields) => fields != []
  }

  function Lookup(fields: seq<Field>, key: string): Option<Value> {
    if fields == [] then None else if fields[0].key == key then Some(fields[0].value) else Lookup(fields[1..], key)
  }

  function Without(fields: seq<Field>, key: string): (rest: seq<Field>)
    ensures |rest| <= |fields|
  {
    if fields == [] then [] else (if fields[0].key == key then [] else [fields[0]]) + Without(fields[1..], key)
  }

  const EVENT := "datalayer_event"
  const UNNAMED := "(unnamed)"

  /** The value that names a data-layer item, if there is one and it is not false. */
  function Naming(fields: seq<Field>): Option<Value> {
    var event := Lookup(fields, "event");
    if event.Some? && Truthy(event.value) then event else None
  }

  /** A list or an object names the item: it cannot be a key. */
  predicate Unhashable(item: Value) {
    item.ObjectValue? && Naming(item.fields).Some?
    && (Naming(item.fields).value.ArrayValue? || Naming(item.fields).value.ObjectValue?)
  }

  /** The event's name as a key. */
  function EventName(fields: seq<Field>): Name {
    match Naming(fields)
    case Some(TextValue(text)) => TextName(text)
    case Some(NumberValue(r, _)) => NumberName(r)
    case Some(BoolValue(_)) => NumberName(1.0)
    case _ => TextName(UNNAMED)
  }

  /** The event's name as the beginning of a path. */
  function EventPrefix(fields: seq<Field>): string {
    match Naming(fields)
    case Some(TextValue(text)) => text
    case Some(NumberValue(_, text)) => text
    case Some(BoolValue(_)) => "True"
    case _ => UNNAMED
  }

  /** The observations of one store, in order. */
  function StoreObservations(source: string, entries: seq<Entry>, page: string, time: real): seq<Observation> {
    if entries == [] then []
    else
      [Observation(Key(source, TextName(entries[0].key)), page, entries[0].valueType, time)]
      + StoreObservations(source, entries[1..], page, time)
  }

  /** `_flatten_datalayer_fields` as the list of what it records. */
  function Flattened(prefix: string, fields: seq<Field>, page: string, time: real, depth: nat): seq<Observation>
    decreases fields, 1
  {
    if fields == [] then []
    else FieldObservations(prefix, fields[0], page, time, depth) + Flattened(prefix, fields[1..], page, time, depth)
  }

  function FieldObservations(prefix: string, field: Field, page: string, time: real, depth: nat): seq<Observation>
    decreases field, 0
  {
    var path := prefix + "." + field.key;
    [Observation(Key("datalayer_field", TextName(path)), page, ValueType(field.value), time)]
    + if field.value.ObjectValue? && depth < MAX_DATALAYER_DEPTH
      then Flattened(path, field.value.fields, page, time, depth + 1) else []
  }

  function ItemObservations(item: Value, page: string, time: real): seq<Observation> {
    if !item.ObjectValue? then []
    else
      [Observation(Key(EVENT, EventName(item.fields)), page, "event", time)]
      + Flattened(EventPrefix(item.fields), Without(item.fields, "event"), page, time, 0)
  }

  function LayerObservations(items: seq<Value>, page: string, time: real): seq<Observation> {
    if items == [] then [] else ItemObservations(items[0], page, time) + LayerObservations(items[1..], page, time)
  }

  function SnapshotObservations(s: Snapshot): seq<Observation> {
    StoreObservations("cookie", s.cookies, s.page, s.time)
    + StoreObservations("local_storage", s.localStorage, s.page, s.time)
    + StoreObservations("session_storage", s.sessionStorage, s.page, s.time)
    + LayerObservations(s.dataLayer, s.page, s.time)
  }

  function Observations(snapshots: seq<Snapshot>): seq<Observation> {
    if snapshots == [] then [] else SnapshotObservations(snapshots[0]) + Observations(snapshots[1..])
  }

  datatype Accumulator = Accumulator(types: set<string>, counts: map<string, nat>, pages: set<string>,
                                     times: Option<(real, real)>)

  const EMPTY: Accumulator := Accumulator({}, map[], {}, None)

  /** `_Accumulator.record`. */
  function Recorded(a: Accumulator, page: string, valueType: string, time: real): Accumulator {
    Accumulator(
      a.types + {valueType},
      a.counts[valueType := (if valueType in a.counts then a.counts[valueType] else 0) + 1],
      a.pages + {page},
      if a.times.None? then Some((time, time))
      else
        var (first, last) := a.times.value;
        Some((if time < first then time else first, if time > last then time else last)))
  }

  /** How many of the observations are of this variable with this type. */
  function CountOf(obs: seq<Observation>, k: Key, valueType: string): nat {
    if obs == [] then 0
    else
      CountOf(obs[..|obs| - 1], k, valueType) + if obs[|obs| - 1].key == k
        && obs[|obs| - 1].valueType == valueType then 1 else 0
  }

  function CountFor(obs: seq<Observation>, k: Key): nat {
    if obs == [] then 0 else CountFor(obs[..|obs| - 1], k) + if obs[|obs| - 1].key == k then 1 else 0
  }

  function KeysOf(obs: seq<Observation>): set<Key> { set o | o in obs :: o.key }

  function TypesOf(obs: seq<Observation>, k: Key): set<string> { set o | o in obs && o.key == k :: o.valueType }

  function PagesOf(obs: seq<Observation>, k: Key): set<string> { set o | o in obs && o.key == k :: o.page }

  /** The earliest and latest times an observed variable was seen. */
  ghost predicate Spans(obs: seq<Observation>, k: Key, first: real, last: real) {
    && (exists o :: o in obs && o.key == k && o.time == first) && (exists o :: o in obs && o.key == k && o.time == last)
    && forall o | o in obs && o.key == k :: first <= o.time <= last
  }

  /** The accumulator holds the declarative summary of its variable's observations. */
  ghost predicate Summarizes(a: Accumulator, obs: seq<Observation>, k: Key) {
    && a.types == TypesOf(obs, k) && a.pages == PagesOf(obs, k) && a.counts.Keys == a.types
    && (forall t | t in a.counts :: a.counts[t] == CountOf(obs, k, t))
    && a.times.Some? && Spans(obs, k, a.times.value.0, a.times.value.1)
  }

  ghost predicate AllSummarized(accumulators: map<Key, Accumulator>, obs: seq<Observation>) {
    accumulators.Keys == KeysOf(obs) && forall k | k in accumulators :: Summarizes(accumulators[k], obs, k)
  }

  lemma CountsElsewhere(obs: seq<Observation>, o: Observation, k: Key, t: string)
    ensures CountOf(obs + [o], k, t) == CountOf(obs, k, t) + if o.key == k && o.valueType == t then 1 else 0
  {
    assert (obs + [o])[..|obs|] == obs;
  }

  lemma {:induction false} UnseenCount(obs: seq<Observation>, k: Key, t: string)
    requires forall o | o in obs :: o.key != k || o.valueType != t
    ensures CountOf(obs, k, t) == 0
  {
    if obs != [] {
      var front := obs[..|obs| - 1];
      assert forall o | o in front :: o in obs;
      UnseenCount(front, k, t);
      assert obs[|obs| - 1] in obs;
    }
  }

  lemma OtherStaysSummarized(a: Accumulator, obs: seq<Observation>, o: Observation, k: Key)
    requires Summarizes(a, obs, k) && o.key != k
    ensures Summarizes(a, obs + [o], k)
  {
    forall t | t in a.counts
      ensures a.counts[t] == CountOf(obs + [o], k, t)
    {
      CountsElsewhere(obs, o, k, t);
    }
    SameFor(obs, o, k);
    SpansSame(obs, o, k, a.times.value.0, a.times.value.1);
  }

  lemma SameFor(obs: seq<Observation>, o: Observation, k: Key)
    requires o.key != k
    ensures TypesOf(obs + [o], k) == TypesOf(obs, k) && PagesOf(obs + [o], k) == PagesOf(obs, k)
  {
    forall x | x in obs
      ensures x in obs + [o]
    {
    }
  }

  lemma SpansSame(obs: seq<Observation>, o: Observation, k: Key, first: real, last: real)
    requires Spans(obs, k, first, last) && o.key != k
    ensures Spans(obs + [o], k, first, last)
  {
    var x :| x in obs && x.key == k && x.time == first;
    var y :| y in obs && y.key == k && y.time == last;
    assert x in obs + [o] && y in obs + [o];
  }

  /** Recording one observation. */
  lemma RecordedSummarizes(a: Accumulator, obs: seq<Observation>, o: Observation)
    requires if o.key in KeysOf(obs) then Summarizes(a, obs, o.key) else a == EMPTY
    ensures Summarizes(Recorded(a, o.page, o.valueType, o.time), obs + [o], o.key)
  {
    var k, b := o.key, Recorded(a, o.page, o.valueType, o.time);
    AddedFor(obs, o);
    if k !in KeysOf(obs) { NothingFor(obs, k); }
    forall t | t in b.counts
      ensures b.counts[t] == CountOf(obs + [o], k, t)
    {
      CountsElsewhere(obs, o, k, t);
      if t !in a.counts { UnseenCount(obs, k, t); }
    }
    SpansMore(a, obs, o);
  }

  lemma AddedFor(obs: seq<Observation>, o: Observation)
    ensures TypesOf(obs + [o], o.key) == TypesOf(obs, o.key) + {o.valueType}
    ensures PagesOf(obs + [o], o.key) == PagesOf(obs, o.key) + {o.page}
  {
    assert o in obs + [o];
    forall x | x in obs
      ensures x in obs + [o]
    {
    }
  }

  lemma NothingFor(obs: seq<Observation>, k: Key)
    requires k !in KeysOf(obs)
    ensures TypesOf(obs, k) == {} && PagesOf(obs, k) == {} && forall o | o in obs :: o.key != k
  {
    forall o | o in obs
      ensures o.key != k
    {
      assert o.key in KeysOf(obs);
    }
  }

  lemma SpansMore(a: Accumulator, obs: seq<Observation>, o: Observation)
    requires if o.key in KeysOf(obs) then Summarizes(a, obs, o.key) else a == EMPTY && forall x | x in obs ::
      x.key != o.key
    ensures var times := Recorded(a, o.page, o.valueType, o.time).times.value; Spans(obs + [o], o.key, times.0, times.1)
  {
    hide CountOf, TypesOf, PagesOf;
    assert o in obs + [o];
    if o.key in KeysOf(obs) {
      var x :| x in obs && x.key == o.key && x.time == a.times.value.0;
      var y :| y in obs && y.key == o.key && y.time == a.times.value.1;
      assert x in obs + [o] && y in obs + [o];
    }
  }

  lemma RecordedAll(accumulators: map<Key, Accumulator>, obs: seq<Observation>, o: Observation)
    requires AllSummarized(accumulators, obs)
    ensures var a := if o.key in accumulators then accumulators[o.key] else EMPTY;
      AllSummarized(accumulators[o.key := Recorded(a, o.page, o.valueType, o.time)], obs + [o])
  {
    hide Summarizes, Recorded;
    var a := if o.key in accumulators then accumulators[o.key] else EMPTY;
    RecordedSummarizes(a, obs, o);
    var next := accumulators[o.key := Recorded(a, o.page, o.valueType, o.time)];
    KeysGrow(obs, o);
    forall k | k in next
      ensures Summarizes(next[k], obs + [o], k)
    {
      if k != o.key { OtherStaysSummarized(accumulators[k], obs, o, k); }
    }
  }

  lemma KeysGrow(obs: seq<Observation>, o: Observation)
    ensures KeysOf(obs + [o]) == KeysOf(obs) + {o.key}
  {
    assert o in obs + [o];
    forall x | x in obs
      ensures x in obs + [o]
    {
    }
  }

  /** The dictionary under construction; `observed` is what it has recorded. */
  class Builder {
    var accumulators: map<Key, Accumulator>
    var pagesSeen: set<string>
    ghost var observed: seq<Observation>

    ghost predicate Valid()
      reads this
    {
      AllSummarized(accumulators, observed)
    }

    constructor ()
      ensures Valid() && observed == [] && pagesSeen == {}
    {
      accumulators, pagesSeen, observed := map[], {}, [];
    }

    method Record(key: Key, page: string, valueType: string, time: real)
      requires Valid()
      modifies this`accumulators, this`observed
      ensures Valid() && observed == old(observed) + [Observation(key, page, valueType, time)]
    {
      hide AllSummarized, Recorded;
      RecordedAll(accumulators, observed, Observation(key, page, valueType, time));
      var a := if key in accumulators then accumulators[key] else EMPTY;
      accumulators := accumulators[key := Recorded(a, page, valueType, time)];
      observed := observed + [Observation(key, page, valueType, time)];
    }

    method RecordStore(source: string, entries: seq<Entry>, page: string, time: real)
      requires Valid()
      modifies this`accumulators, this`observed
      ensures Valid() && observed == old(observed) + StoreObservations(source, entries, page, time)
    {
      hide AllSummarized;
      for i := 0 to |entries|
        invariant Valid()
        invariant observed + StoreObservations(source, entries[i..], page, time) ==
          old(observed) + StoreObservations(source, entries, page, time)
      {
        assert entries[i..][0] == entries[i] && entries[i..][1..] == entries[i + 1..];
        Record(Key(source, TextName(entries[i].key)), page, entries[i].valueType, time);
      }
    }

    /** `_flatten_datalayer_fields`. */
    method Flatten(prefix: string, fields: seq<Field>, page: string, time: real, depth: nat)
      requires Valid()
      modifies this`accumulators, this`observed
      ensures Valid() && observed == old(observed) + Flattened(prefix, fields, page, time, depth)
      decreases fields, 1
    {
      hide AllSummarized, FieldObservations, Flattened;
      FlattenedDone(prefix, page, time, depth);
      for i := 0 to |fields|
        invariant Valid()
        invariant observed + Flattened(prefix, fields[i..], page, time, depth) ==
          old(observed) + Flattened(prefix, fields, page, time, depth)
      {
        FlattenedStep(prefix, fields, page, time, depth, i);
        Regroup(observed, FieldObservations(prefix, fields[i], page, time, depth),
                Flattened(prefix, fields[i + 1..], page, time, depth));
        RecordField(prefix, fields[i], page, time, depth);
      }
      assert fields[|fields|..] == [];
    }

    method RecordField(prefix: string, field: Field, page: string, time: real, depth: nat)
      requires Valid()
      modifies this`accumulators, this`observed
      ensures Valid() && observed == old(observed) + FieldObservations(prefix, field, page, time, depth)
      decreases field, 0
    {
      hide AllSummarized, Flattened;
      var path := prefix + "." + field.key;
      Record(Key("datalayer_field", TextName(path)), page, ValueType(field.value), time);
      if field.value.ObjectValue? && depth < MAX_DATALAYER_DEPTH {
        Flatten(path, field.value.fields, page, time, depth + 1);
      }
    }

    method RecordItem(item: Value, page: string, time: real) returns (ok: bool)
      requires Valid()
      modifies this`accumulators, this`observed
      ensures Valid() && ok == !Unhashable(item)
      ensures ok ==> observed == old(observed) + ItemObservations(item, page, time)
    {
      hide AllSummarized, Flattened, EventName, EventPrefix, Without;
      if Unhashable(item) { return false; }
      if item.ObjectValue? {
        Record(Key(EVENT, EventName(item.fields)), page, "event", time);
        Flatten(EventPrefix(item.fields), Without(item.fields, "event"), page, time, 0);
      }
      return true;
    }

    method RecordLayer(items: seq<Value>, page: string, time: real) returns (ok: bool)
      requires Valid()
      modifies this`accumulators, this`observed
      ensures Valid() && ok == forall i | 0 <= i < |items| :: !Unhashable(items[i])
      ensures ok ==> observed == old(observed) + LayerObservations(items, page, time)
    {
      hide AllSummarized, ItemObservations, Unhashable;
      for i := 0 to |items|
        invariant Valid() && forall j | 0 <= j < i :: !Unhashable(items[j])
        invariant observed + LayerObservations(items[i..], page, time) ==
          old(observed) + LayerObservations(items, page, time)
      {
        assert items[i..][0] == items[i] && items[i..][1..] == items[i + 1..];
        Regroup(observed, ItemObservations(items[i], page, time), LayerObservations(items[i + 1..], page, time));
        ok := RecordItem(items[i], page, time);
        if !ok { return false; }
      }
      assert items[|items|..] == [];
      return true;
    }

    method AddSnapshot(s: Snapshot) returns (ok: bool)
      requires Valid()
      modifies this
      ensures Valid() && ok == forall i | 0 <= i < |s.dataLayer| :: !Unhashable(s.dataLayer[i])
      ensures ok ==> observed == old(observed) + SnapshotObservations(s) && pagesSeen == old(pagesSeen) + {s.page}
    {
      hide AllSummarized, StoreObservations, LayerObservations, Unhashable;
      pagesSeen := pagesSeen + {s.page};
      RecordStore("cookie", s.cookies, s.page, s.time);
      RecordStore("local_storage", s.localStorage, s.page, s.time);
      RecordStore("session_storage", s.sessionStorage, s.page, s.time);
      ok := RecordLayer(s.dataLayer, s.page, s.time);
    }
  }

  lemma Regroup(a: seq<Observation>, b: seq<Observation>, c: seq<Observation>)
    ensures a + (b + c) == (a + b) + c
  {
  }

  lemma FlattenedDone(prefix: string, page: string, time: real, depth: nat)
    ensures Flattened(prefix, [], page, time, depth) == []
  {
  }

  lemma FlattenedStep(prefix: string, fields: seq<Field>, page: string, time: real, depth: nat, i: nat)
    requires i < |fields|
    ensures Flattened(prefix, fields[i..], page, time, depth)
         == FieldObservations(prefix, fields[i], page, time, depth)
            + Flattened(prefix, fields[i + 1..], page, time, depth)
  {
    hide FieldObservations;
    assert fields[i..][0] == fields[i] && fields[i..][1..] == fields[i + 1..];
  }

  /** One line of the dictionary. */
  datatype Variable = Variable(
    key: Key, types: seq<string>, pages: seq<string>, pagesTotal: nat, first: real, last: real,
    counts: seq<(string, nat)>)

  /** Texts by their characters, numbers by value; a number against a text does not come up in
      a list that can be sorted. */
  predicate NameLess(a: Name, b: Name) {
    match (a, b)
    case (TextName(s), TextName(t)) => StringLess(s, t)
    case (NumberName(r), NumberName(q)) => r < q
    case (NumberName(_), TextName(_)) => true
    case _ => false
  }

  predicate KeyLess(a: Key, b: Key) {
    StringLess(a.source, b.source) || (a.source == b.source && NameLess(a.name, b.name))
  }

  lemma NameOrder(a: Name, b: Name, c: Name)
    ensures !NameLess(a, a)
    ensures a == b || NameLess(a, b) || NameLess(b, a)
    ensures NameLess(a, b) && NameLess(b, c) ==> NameLess(a, c)
  {
    var x := if a.TextName? then a.s else "";
    var y := if b.TextName? then b.s else "";
    var z := if c.TextName? then c.s else "";
    StringOrder(x, y, z);
    hide StringLess;
  }

  lemma KeyOrder(a: Key, b: Key, c: Key)
    ensures !KeyLess(a, a)
    ensures a == b || KeyLess(a, b) || KeyLess(b, a)
    ensures KeyLess(a, b) && KeyLess(b, c) ==> KeyLess(a, c)
  {
    StringOrder(a.source, b.source, c.source);
    NameOrder(a.name, b.name, c.name);
    hide StringLess, NameLess;
  }

  /** Sorting compares the names of two keys of one source; a text and a number have no
      order. */
  predicate Sortable(keys: set<Key>) {
    forall j, k | j in keys && k in keys && j.source == k.source :: j.name.TextName? == k.name.TextName?
  }

  lemma KeysTotal()
    ensures Total(KeyLess)
  {
    hide KeyLess;
    forall a, b, c { KeyOrder(a, b, c); }
  }

  /** The line says what was observed, in sorted lists. */
  ghost predicate IsVariable(v: Variable, obs: seq<Observation>, pagesTotal: nat) {
    && Lists(StringLess, v.types, TypesOf(obs, v.key)) && Lists(StringLess, v.pages, PagesOf(obs, v.key))
    && v.pagesTotal == pagesTotal && Spans(obs, v.key, v.first, v.last)
    && |v.counts| == |v.types| && forall i | 0 <= i < |v.types| ::
         v.counts[i] == (v.types[i], CountOf(obs, v.key, v.types[i]))
  }

  function VariableKeys(vs: seq<Variable>): (keys: seq<Key>)
    ensures |keys| == |vs| && forall i | 0 <= i < |vs| :: keys[i] == vs[i].key
  {
    seq(|vs|, i requires 0 <= i < |vs| => vs[i].key)
  }

  ghost predicate IsDictionary(vs: seq<Variable>, obs: seq<Observation>, pagesTotal: nat) {
    Lists(KeyLess, VariableKeys(vs), KeysOf(obs)) && forall i | 0 <= i < |vs| :: IsVariable(vs[i], obs, pagesTotal)
  }

  function PagesSeen(snapshots: seq<Snapshot>): set<string> { set s | s in snapshots :: s.page }

  lemma ObservationsAppend(snapshots: seq<Snapshot>, i: nat)
    requires i < |snapshots|
    ensures Observations(snapshots[i..]) == SnapshotObservations(snapshots[i]) + Observations(snapshots[i + 1..])
  {
    hide SnapshotObservations;
    assert snapshots[i..][0] == snapshots[i] && snapshots[i..][1..] == snapshots[i + 1..];
  }

  function LayerNames(items: seq<Value>): set<Name> {
    if items == [] then {}
    else (if items[0].ObjectValue? then {EventName(items[0].fields)} else {}) + LayerNames(items[1..])
  }

  /** The names of all events observed. */
  function EventNames(snapshots: seq<Snapshot>): set<Name> {
    if snapshots == [] then {} else LayerNames(snapshots[0].dataLayer) + EventNames(snapshots[1..])
  }

  predicate Hashable(s: Snapshot) { forall i | 0 <= i < |s.dataLayer| :: !Unhashable(s.dataLayer[i]) }

  /** When the dictionary can be built: no event is named by a list or an object, and not one
      event by a text and another by a number. */
  predicate Buildable(snapshots: seq<Snapshot>) {
    && (forall i | 0 <= i < |snapshots| :: Hashable(snapshots[i]))
    && forall m, n | m in EventNames(snapshots) && n in EventNames(snapshots) :: m.TextName? == n.TextName?
  }

  /** The observations name these events, and otherwise have texts for names. */
  ghost predicate NamesAre(obs: seq<Observation>, names: set<Name>) {
    && (forall o | o in obs :: o.key.name.TextName? || o.key.source == EVENT)
    && (forall o | o in obs && o.key.source == EVENT :: o.key.name in names)
    && forall n | n in names :: Key(EVENT, n) in KeysOf(obs)
  }

  lemma NamesJoin(a: seq<Observation>, b: seq<Observation>, ns: set<Name>, ms: set<Name>)
    requires NamesAre(a, ns) && NamesAre(b, ms)
    ensures NamesAre(a + b, ns + ms)
  {
    assert KeysOf(a + b) == KeysOf(a) + KeysOf(b) by {
      forall o
        ensures o in a + b <==> o in a || o in b
      {
      }
    }
  }

  lemma {:induction false} StoreNames(source: string, entries: seq<Entry>, page: string, time: real)
    requires source != EVENT
    ensures NamesAre(StoreObservations(source, entries, page, time), {})
  {
    if entries != [] { StoreNames(source, entries[1..], page, time); }
  }

  lemma FieldIsNoEvent()
    ensures "datalayer_field" != EVENT && "cookie" != EVENT && "local_storage" != EVENT && "session_storage" != EVENT
  {
    assert "datalayer_field"[10] == 'f' && EVENT[10] == 'e';
  }

  lemma {:induction false} FlattenedNames(prefix: string, fields: seq<Field>, page: string, time: real, depth: nat)
    ensures NamesAre(Flattened(prefix, fields, page, time, depth), {})
    decreases fields, 1
  {
    if fields != [] {
      hide NamesAre;
      FieldNames(prefix, fields[0], page, time, depth);
      FlattenedNames(prefix, fields[1..], page, time, depth);
      NamesJoin(FieldObservations(prefix, fields[0], page, time, depth),
                Flattened(prefix, fields[1..], page, time, depth), {}, {});
    }
  }

  lemma {:induction false} FieldNames(prefix: string, field: Field, page: string, time: real, depth: nat)
    ensures NamesAre(FieldObservations(prefix, field, page, time, depth), {})
    decreases field, 0
  {
    FieldIsNoEvent();
    var path := prefix + "." + field.key;
    if field.value.ObjectValue? && depth < MAX_DATALAYER_DEPTH {
      FlattenedNames(path, field.value.fields, page, time, depth + 1);
    }
  }

  lemma {:induction false} LayerNamesAre(items: seq<Value>, page: string, time: real)
    ensures NamesAre(LayerObservations(items, page, time), LayerNames(items))
  {
    if items != [] {
      LayerNamesAre(items[1..], page, time);
      ItemNamesAre(items[0], page, time);
      hide NamesAre, ItemObservations, EventName;
      NamesJoin(ItemObservations(items[0], page, time), LayerObservations(items[1..], page, time),
                if items[0].ObjectValue? then {EventName(items[0].fields)} else {}, LayerNames(items[1..]));
    }
  }

  lemma ItemNamesAre(item: Value, page: string, time: real)
    ensures NamesAre(ItemObservations(item, page, time), if item.ObjectValue? then {EventName(item.fields)} else {})
  {
    if item.ObjectValue? {
      var first := [Observation(Key(EVENT, EventName(item.fields)), page, "event", time)];
      var rest := Flattened(EventPrefix(item.fields), Without(item.fields, "event"), page, time, 0);
      hide EventName, EventPrefix, Without, Flattened;
      assert first[0] in first && first[0].key in KeysOf(first);
      assert NamesAre(first, {EventName(item.fields)});
      FlattenedNames(EventPrefix(item.fields), Without(item.fields, "event"), page, time, 0);
      NamesJoin(first, rest, {EventName(item.fields)}, {});
      assert {EventName(item.fields)} + {} == {EventName(item.fields)};
    }
  }

  lemma {:induction false} ObservedNames(snapshots: seq<Snapshot>)
    ensures NamesAre(Observations(snapshots), EventNames(snapshots))
  {
    if snapshots != [] {
      var s := snapshots[0];
      ObservedNames(snapshots[1..]);
      FieldIsNoEvent();
      StoreNames("cookie", s.cookies, s.page, s.time);
      StoreNames("local_storage", s.localStorage, s.page, s.time);
      StoreNames("session_storage", s.sessionStorage, s.page, s.time);
      LayerNamesAre(s.dataLayer, s.page, s.time);
      hide NamesAre, StoreObservations, LayerObservations, LayerNames;
      var a := StoreObservations("cookie", s.cookies, s.page, s.time);
      var b := StoreObservations("local_storage", s.localStorage, s.page, s.time);
      var c := StoreObservations("session_storage", s.sessionStorage, s.page, s.time);
      var d := LayerObservations(s.dataLayer, s.page, s.time);
      NamesJoin(a, b, {}, {});
      NamesJoin(a + b, c, {} + {}, {});
      NamesJoin(a + b + c, d, {} + {} + {}, LayerNames(s.dataLayer));
      assert {} + {} + {} + LayerNames(s.dataLayer) == LayerNames(s.dataLayer);
      NamesJoin(a + b + c + d, Observations(snapshots[1..]), LayerNames(s.dataLayer), EventNames(snapshots[1..]));
    }
  }

  lemma SortableIff(obs: seq<Observation>, names: set<Name>)
    requires NamesAre(obs, names)
    ensures Sortable(KeysOf(obs)) <==> forall m, n | m in names && n in names :: m.TextName? == n.TextName?
  {
    if Sortable(KeysOf(obs)) {
      forall m, n | m in names && n in names
        ensures m.TextName? == n.TextName?
      {
        assert Key(EVENT, m) in KeysOf(obs) && Key(EVENT, n) in KeysOf(obs);
      }
    }
  }

  /** `build_data_dictionary`: it succeeds exactly on buildable snapshots, with one line for
      each variable observed. */
  method BuildDataDictionary(snapshots: seq<Snapshot>) returns (d: Option<seq<Variable>>, pagesTotal: nat)
    ensures d.Some? <==> Buildable(snapshots)
    ensures d.Some? ==>
      pagesTotal == |PagesSeen(snapshots)| && IsDictionary(d.value, Observations(snapshots), pagesTotal)
  {
    var builder := new Builder();
    hide SnapshotObservations, AllSummarized, Hashable, Observations, EventNames;
    NothingObserved();
    for i := 0 to |snapshots|
      invariant builder.Valid() && builder.pagesSeen == PagesSeen(snapshots[..i])
      invariant forall j | 0 <= j < i :: Hashable(snapshots[j])
      invariant builder.observed + Observations(snapshots[i..]) == Observations(snapshots)
    {
      ObservationsAppend(snapshots, i);
      Regroup(builder.observed, SnapshotObservations(snapshots[i]), Observations(snapshots[i + 1..]));
      assert snapshots[i] in snapshots && snapshots[..i + 1] == snapshots[..i] + [snapshots[i]];
      var ok := builder.AddSnapshot(snapshots[i]);
      HashableIff(snapshots[i]);
      if !ok { return None, 0; }
    }
    assert snapshots[..|snapshots|] == snapshots && snapshots[|snapshots|..] == [];
    assert builder.observed == Observations(snapshots);
    pagesTotal := |builder.pagesSeen|;
    ObservedNames(snapshots);
    SortableIff(builder.observed, EventNames(snapshots));
    d := Finish(builder.accumulators, builder.observed, pagesTotal);
  }

  lemma HashableIff(s: Snapshot)
    ensures Hashable(s) <==> forall i | 0 <= i < |s.dataLayer| :: !Unhashable(s.dataLayer[i])
  {
  }

  lemma NothingObserved()
    ensures Observations([]) == []
  {
  }

  method Finish(accumulators: map<Key, Accumulator>, ghost obs: seq<Observation>, pagesTotal: nat)
    returns (d: Option<seq<Variable>>)
    requires AllSummarized(accumulators, obs)
    ensures d.Some? <==> Sortable(KeysOf(obs))
    ensures d.Some? ==> IsDictionary(d.value, obs, pagesTotal)
  {
    if !Sortable(accumulators.Keys) { return None; }
    KeysTotal();
    hide Sortable, KeyLess, StringLess, Total, Summarizes, IsVariable;
    var keys := SortSet(KeyLess, accumulators.Keys);
    var vs: seq<Variable> := [];
    for i := 0 to |keys|
      invariant |vs| == i && forall j | 0 <= j < i :: vs[j].key == keys[j] && IsVariable(vs[j], obs, pagesTotal)
    {
      assert keys[i] in accumulators.Keys;
      var v := FinishOne(keys[i], accumulators[keys[i]], obs, pagesTotal);
      vs := vs + [v];
    }
    assert VariableKeys(vs) == keys;
    d := Some(vs);
  }

  method FinishOne(key: Key, a: Accumulator, ghost obs: seq<Observation>, pagesTotal: nat) returns (v: Variable)
    requires Summarizes(a, obs, key)
    ensures v.key == key && IsVariable(v, obs, pagesTotal)
  {
    StringsTotal();
    hide StringLess, Total, Spans, CountOf, TypesOf, PagesOf;
    var types := SortSet(StringLess, a.types);
    var pages := SortSet(StringLess, a.pages);
    var counts := [];
    for i := 0 to |types|
      invariant |counts| == i && forall j | 0 <= j < i :: counts[j] == (types[j], CountOf(obs, key, types[j]))
    {
      assert types[i] in a.types;
      counts := counts + [(types[i], a.counts[types[i]])];
    }
    v := Variable(key, types, pages, pagesTotal, a.times.value.0, a.times.value.1, counts);
  }

  function SumCounts(counts: seq<(string, nat)>): nat {
    if counts == [] then 0 else counts[0].1 + SumCounts(counts[1..])
  }

  /** The total over some types, counted from the observations. */
  function SumOver(types: seq<string>, obs: seq<Observation>, k: Key): nat {
    if types == [] then 0 else CountOf(obs, k, types[0]) + SumOver(types[1..], obs, k)
  }

  predicate AllDifferent(types: seq<string>) { forall i, j | 0 <= i < j < |types| :: types[i] != types[j] }

  lemma {:induction false} SumOverAppend(types: seq<string>, obs: seq<Observation>, o: Observation, k: Key)
    requires AllDifferent(types)
    ensures SumOver(types, obs + [o], k) == SumOver(types, obs, k) + if o.key == k && o.valueType in types then 1 else 0
  {
    if types != [] {
      SumOverAppend(types[1..], obs, o, k);
      CountsElsewhere(obs, o, k, types[0]);
      assert types == [types[0]] + types[1..];
      if o.valueType == types[0] { assert o.valueType !in types[1..]; }
    }
  }

  lemma {:induction false} SumOverAll(types: seq<string>, obs: seq<Observation>, k: Key)
    requires AllDifferent(types) && forall o | o in obs && o.key == k :: o.valueType in types
    ensures SumOver(types, obs, k) == CountFor(obs, k)
  {
    if obs == [] {
      SumOverNothing(types, k);
    } else {
      var front, last := obs[..|obs| - 1], obs[|obs| - 1];
      assert obs == front + [last];
      forall o | o in front
        ensures o in obs
      {
      }
      SumOverAll(types, front, k);
      SumOverAppend(types, front, last, k);
      assert last in obs;
    }
  }

  lemma {:induction false} SumOverNothing(types: seq<string>, k: Key)
    ensures SumOver(types, [], k) == 0
  {
    if types != [] { SumOverNothing(types[1..], k); }
  }

  lemma {:induction false} SumOfPairs(types: seq<string>, counts: seq<(string, nat)>, obs: seq<Observation>, k: Key)
    requires |counts| == |types| && forall i | 0 <= i < |types| :: counts[i] == (types[i], CountOf(obs, k, types[i]))
    ensures SumCounts(counts) == SumOver(types, obs, k)
  {
    if types != [] { SumOfPairs(types[1..], counts[1..], obs, k); }
  }

  /** The per-type counts of a variable sum to the number of its observations. */
  lemma CountsSumToObservations(v: Variable, obs: seq<Observation>, pagesTotal: nat)
    requires IsVariable(v, obs, pagesTotal)
    ensures SumCounts(v.counts) == CountFor(obs, v.key)
  {
    StringsTotal();
    forall i, j | 0 <= i < j < |v.types|
      ensures v.types[i] != v.types[j]
    {
      StringOrder(v.types[i], v.types[j], "");
      assert StringLess(v.types[i], v.types[j]);
    }
    forall o | o in obs && o.key == v.key
      ensures o.valueType in v.types
    {
      assert o.valueType in TypesOf(obs, v.key);
    }
    SumOverAll(v.types, obs, v.key);
    SumOfPairs(v.types, v.counts, obs, v.key);
  }

  lemma {:induction false} CountWithout(obs: seq<Observation>, i: nat, k: Key, t: string)
    requires i < |obs|
    ensures CountOf(obs, k, t) == CountOf(obs[..i] + obs[i + 1..], k, t) + if obs[i].key == k
      && obs[i].valueType == t then 1 else 0
    decreases |obs|
  {
    var front := obs[..|obs| - 1];
    if i == |obs| - 1 {
      assert obs[..i] + obs[i + 1..] == front;
    } else {
      assert (obs[..i] + obs[i + 1..])[..|obs| - 2] == front[..i] + front[i + 1..];
      assert (obs[..i] + obs[i + 1..])[|obs| - 2] == obs[|obs| - 1];
      CountWithout(front, i, k, t);
    }
  }

  /** Taking one occurrence of `x` out of a permutation of `rest` and `x`. */
  lemma TakeOut<T>(rest: seq<T>, x: T, b: seq<T>) returns (i: nat)
    requires multiset(b) == multiset(rest) + multiset{x}
    ensures i < |b| && b[i] == x && multiset(b[..i] + b[i + 1..]) == multiset(rest)
  {
    assert x in multiset(b);
    i :| 0 <= i < |b| && b[i] == x;
    assert b == b[..i] + [b[i]] + b[i + 1..];
    assert multiset(b) == multiset(b[..i]) + multiset{x} + multiset(b[i + 1..]);
    assert multiset(b) - multiset{x} == multiset(rest);
  }

  lemma {:induction false} CountPermuted(a: seq<Observation>, b: seq<Observation>, k: Key, t: string)
    requires multiset(a) == multiset(b)
    ensures CountOf(a, k, t) == CountOf(b, k, t)
  {
    if a == [] {
      assert |multiset(b)| == 0;
    } else {
      var front, last := a[..|a| - 1], a[|a| - 1];
      assert a == front + [last];
      var i := TakeOut(front, last, b);
      CountPermuted(front, b[..i] + b[i + 1..], k, t);
      CountWithout(b, i, k, t);
    }
  }

  lemma PermutedMembers(a: seq<Observation>, b: seq<Observation>)
    requires multiset(a) == multiset(b)
    ensures forall o :: o in a <==> o in b
  {
    forall o
      ensures o in a <==> o in b
    {
      assert o in a <==> o in multiset(a);
      assert o in b <==> o in multiset(b);
    }
  }

  lemma VariableUnique(v: Variable, w: Variable, a: seq<Observation>, b: seq<Observation>, pagesTotal: nat)
    requires multiset(a) == multiset(b) && IsVariable(v, a, pagesTotal) && IsVariable(w, b, pagesTotal)
    requires v.key == w.key
    ensures v == w
  {
    PermutedMembers(a, b);
    StringsTotal();
    hide StringLess, Total, CountOf;
    assert TypesOf(a, v.key) == TypesOf(b, v.key) && PagesOf(a, v.key) == PagesOf(b, v.key);
    ListingUnique(StringLess, v.types, w.types, TypesOf(a, v.key));
    ListingUnique(StringLess, v.pages, w.pages, PagesOf(a, v.key));
    forall i | 0 <= i < |v.counts|
      ensures v.counts[i] == w.counts[i]
    {
      CountPermuted(a, b, v.key, v.types[i]);
    }
    SpansUnique(a, b, v.key, v.first, v.last, w.first, w.last);
  }

  lemma SpansUnique(a: seq<Observation>, b: seq<Observation>, k: Key, first: real, last: real, first2: real,
                    last2: real)
    requires (forall o :: o in a <==> o in b) && Spans(a, k, first, last) && Spans(b, k, first2, last2)
    ensures first == first2 && last == last2
  {
    var x :| x in a && x.key == k && x.time == first;
    var y :| y in a && y.key == k && y.time == last;
    var z :| z in b && z.key == k && z.time == first2;
    var w :| w in b && w.key == k && w.time == last2;
    assert x in b && y in b && z in a && w in a;
  }

  lemma DictionaryUnique(vs: seq<Variable>, ws: seq<Variable>, a: seq<Observation>, b: seq<Observation>,
                         pagesTotal: nat)
    requires multiset(a) == multiset(b) && IsDictionary(vs, a, pagesTotal) && IsDictionary(ws, b, pagesTotal)
    ensures vs == ws
  {
    PermutedMembers(a, b);
    KeysTotal();
    assert KeysOf(a) == KeysOf(b);
    hide KeyLess, Total, IsVariable;
    ListingUnique(KeyLess, VariableKeys(vs), VariableKeys(ws), KeysOf(a));
    forall i | 0 <= i < |vs|
      ensures vs[i] == ws[i]
    {
      assert vs[i].key == VariableKeys(vs)[i] == VariableKeys(ws)[i] == ws[i].key;
      VariableUnique(vs[i], ws[i], a, b, pagesTotal);
    }
  }

  lemma {:induction false} ObservationsWithout(snapshots: seq<Snapshot>, i: nat)
    requires i < |snapshots|
    ensures multiset(Observations(snapshots))
         == multiset(SnapshotObservations(snapshots[i])) + multiset(Observations(snapshots[..i] + snapshots[i + 1..]))
    decreases |snapshots|
  {
    hide SnapshotObservations;
    var rest := snapshots[..i] + snapshots[i + 1..];
    if i == 0 {
      assert rest == snapshots[1..];
    } else {
      assert rest[0] == snapshots[0] && rest[1..] == snapshots[1..][..i - 1] + snapshots[1..][i..];
      ObservationsWithout(snapshots[1..], i - 1);
    }
  }

  lemma {:induction false} ObservationsPermuted(a: seq<Snapshot>, b: seq<Snapshot>)
    requires multiset(a) == multiset(b)
    ensures multiset(Observations(a)) == multiset(Observations(b))
  {
    hide SnapshotObservations;
    if a == [] {
      assert |multiset(b)| == 0;
    } else {
      assert a == [a[0]] + a[1..];
      var i := TakeOut(a[1..], a[0], b);
      ObservationsPermuted(a[1..], b[..i] + b[i + 1..]);
      ObservationsWithout(b, i);
    }
  }

  /** The dictionary does not depend on the order of the snapshots. */
  lemma OrderDoesNotMatter(a: seq<Snapshot>, b: seq<Snapshot>, vs: seq<Variable>, ws: seq<Variable>)
    requires multiset(a) == multiset(b)
    requires IsDictionary(vs, Observations(a), |PagesSeen(a)|) && IsDictionary(ws, Observations(b), |PagesSeen(b)|)
    ensures vs == ws
  {
    ObservationsPermuted(a, b);
    SamePages(a, b);
    DictionaryUnique(vs, ws, Observations(a), Observations(b), |PagesSeen(a)|);
  }

  lemma {:induction false} EventNamesFrom(snapshots: seq<Snapshot>, n: Name)
    ensures n in EventNames(snapshots) <==> exists s | s in snapshots :: n in LayerNames(s.dataLayer)
  {
    if snapshots != [] {
      EventNamesFrom(snapshots[1..], n);
      assert forall s :: s in snapshots <==> s == snapshots[0] || s in snapshots[1..];
    }
  }

  /** Nor does it matter for whether there is one. */
  lemma OrderDoesNotPrevent(a: seq<Snapshot>, b: seq<Snapshot>)
    requires multiset(a) == multiset(b)
    ensures Buildable(a) <==> Buildable(b)
  {
    forall s
      ensures s in a <==> s in b
    {
      assert s in a <==> s in multiset(a);
      assert s in b <==> s in multiset(b);
    }
    forall n
      ensures n in EventNames(a) <==> n in EventNames(b)
    {
      EventNamesFrom(a, n);
      EventNamesFrom(b, n);
    }
    hide Hashable, EventNames;
    assert (forall i | 0 <= i < |a| :: Hashable(a[i])) <==> forall s | s in a :: Hashable(s);
    assert (forall i | 0 <= i < |b| :: Hashable(b[i])) <==> forall s | s in b :: Hashable(s);
  }

  lemma SamePages(a: seq<Snapshot>, b: seq<Snapshot>)
    requires multiset(a) == multiset(b)
    ensures PagesSeen(a) == PagesSeen(b)
  {
    forall s
      ensures s in a <==> s in b
    {
      assert s in a <==> s in multiset(a);
      assert s in b <==> s in multiset(b);
    }
  }

  /** The smallest snapshots it fails on: an event named by a list, and one event named by a
      text beside one named by a number. */
  lemma NotBuildable(page: string, time: real)
    ensures var byList := ObjectValue([Field("event", ArrayValue(1))]);
      !Buildable([Snapshot(page, time, [], [], [], [byList])])
    ensures var byText, byNumber :=
      ObjectValue([Field("event", TextValue("click"))]), ObjectValue([Field("event", NumberValue(1.0, "1"))]);
      !Buildable([Snapshot(page, time, [], [], [], [byText, byNumber])])
  {
    var byList := ObjectValue([Field("event", ArrayValue(1))]);
    var s := Snapshot(page, time, [], [], [], [byList]);
    assert Unhashable(s.dataLayer[0]) && !Hashable([s][0]);
    var byText, byNumber :=
      ObjectValue([Field("event", TextValue("click"))]), ObjectValue([Field("event", NumberValue(1.0, "1"))]);
    var items := [byText, byNumber];
    assert items[1..] == [byNumber];
    assert EventName(byText.fields) == TextName("click") && EventName(byNumber.fields) == NumberName(1.0);
    assert NumberName(1.0) in LayerNames([byNumber]);
    assert TextName("click") in LayerNames(items) && NumberName(1.0) in LayerNames(items);
    var t := Snapshot(page, time, [], [], [], items);
    assert EventNames([t]) == LayerNames(items) + EventNames([t][1..]);
  }
}
