/** What a snapshot contributes to the data dictionary. */
module DictionaryLaws {
  import opened Wrappers
  import opened Dictionary
  import Sorting

  /** Following the names from the fields leads to the value. */
  predicate IsField(fields: seq<Field>, names: seq<string>, value: Value)
    decreases fields
  {
    names != [] && exists i | 0 <= i < |fields| :: LeadsOn(fields[i], names, value)
  }

  predicate LeadsOn(field: Field, names: seq<string>, value: Value)
    requires names != []
    decreases field
  {
    field.key == names[0] &&
    if |names| == 1 then field.value == value
    else field.value.ObjectValue? && IsField(field.value.fields, names[1..], value)
  }

  function Joined(prefix: string, names: seq<string>): string
    decreases |names|
  {
    if names == [] then prefix else Joined(prefix + "." + names[0], names[1..])
  }

  function TypeOf(value: Value): string {
    match value
    case NullValue => "null"
    case BoolValue(_) => "boolean"
    case NumberValue(_, _) => "number"
    case TextValue(_) => "string"
    case ArrayValue(_) => "array"
    case ObjectValue(_) => "object"
  }

  function FieldSeen(prefix: string, names: seq<string>, value: Value, page: string, time: real): Observation {
    Observation(Key("datalayer_field", TextName(Joined(prefix, names))), page, TypeOf(value), time)
  }

  /** Something at most `levels` deep below the fields is observed as `o`. */
  ghost predicate SeenBelow(prefix: string, fields: seq<Field>, page: string, time: real, levels: int, o: Observation) {
    exists names, value :: |names| <= levels && IsField(fields, names, value)
      && o == FieldSeen(prefix, names, value, page, time)
  }

  ghost predicate SeenAt(prefix: string, field: Field, page: string, time: real, levels: int, o: Observation) {
    exists names, value :: 0 < |names| <= levels && LeadsOn(field, names, value)
      && o == FieldSeen(prefix, names, value, page, time)
  }

  /** The fields of a data-layer item that are recorded are exactly those up to the depth limit,
      each under its dotted path and with its type; lists are not entered. */
  lemma {:induction false} FlattenedIff(prefix: string, fields: seq<Field>, page: string, time: real, depth: nat,
                                        o: Observation)
    requires depth <= 6
    ensures o in Flattened(prefix, fields, page, time, depth) <==>
      SeenBelow(prefix, fields, page, time, 7 - depth, o)
    decreases fields, 1
  {
    if fields == [] {
    } else {
      FieldIff(prefix, fields[0], page, time, depth, o);
      FlattenedIff(prefix, fields[1..], page, time, depth, o);
      SeenBelowSplits(prefix, fields, page, time, 7 - depth, o);
      hide SeenBelow, SeenAt, FieldObservations;
    }
  }

  lemma SeenBelowSplits(prefix: string, fields: seq<Field>, page: string, time: real, levels: int, o: Observation)
    requires fields != []
    ensures SeenBelow(prefix, fields, page, time, levels, o) <==>
      SeenAt(prefix, fields[0], page, time, levels, o) || SeenBelow(prefix, fields[1..], page, time, levels, o)
  {
    forall names, value | names != []
      ensures IsField(fields, names, value) <==>
        LeadsOn(fields[0], names, value) || IsField(fields[1..], names, value)
    {
      FieldSplits(fields, names, value);
    }
    hide FieldSeen, LeadsOn;
  }

  lemma FieldSplits(fields: seq<Field>, names: seq<string>, value: Value)
    requires fields != [] && names != []
    ensures IsField(fields, names, value) <==> LeadsOn(fields[0], names, value) || IsField(fields[1..], names, value)
  {
    hide LeadsOn;
    if i :| 0 <= i < |fields| && LeadsOn(fields[i], names, value) {
      if i > 0 { assert fields[1..][i - 1] == fields[i]; }
    }
    if i :| 0 <= i < |fields[1..]| && LeadsOn(fields[1..][i], names, value) {
      assert fields[i + 1] == fields[1..][i];
    }
  }

  lemma {:induction false} FieldIff(prefix: string, field: Field, page: string, time: real, depth: nat, o: Observation)
    requires depth <= 6
    ensures o in FieldObservations(prefix, field, page, time, depth) <==>
      SeenAt(prefix, field, page, time, 7 - depth, o)
    decreases field, 0
  {
    var path := prefix + "." + field.key;
    OwnObservation(prefix, field, page, time, 7 - depth, o);
    if field.value.ObjectValue? {
      if depth < 6 { FlattenedIff(path, field.value.fields, page, time, depth + 1, o); }
      SeenThroughField(prefix, field, page, time, 7 - depth, o);
    } else if SeenAt(prefix, field, page, time, 7 - depth, o) {
      OnlyOwnObservation(prefix, field, page, time, 7 - depth, o);
    }
    hide SeenAt, SeenBelow, Flattened, FieldSeen;
  }

  lemma OwnObservation(prefix: string, field: Field, page: string, time: real, levels: int, o: Observation)
    requires levels >= 1
    ensures o == Observation(Key("datalayer_field", TextName(prefix + "." + field.key)), page, ValueType(field.value),
                             time) ==>
      SeenAt(prefix, field, page, time, levels, o)
  {
    var names := [field.key];
    assert names[1..] == [] && LeadsOn(field, names, field.value);
    assert Joined(prefix, names) == Joined(prefix + "." + field.key, []);
  }

  lemma OnlyOwnObservation(prefix: string, field: Field, page: string, time: real, levels: int, o: Observation)
    requires !field.value.ObjectValue? && SeenAt(prefix, field, page, time, levels, o)
    ensures o == Observation(Key("datalayer_field", TextName(prefix + "." + field.key)), page, ValueType(field.value),
                             time)
  {
    var names, value :| 0 < |names| <= levels && LeadsOn(field, names, value)
      && o == FieldSeen(prefix, names, value, page, time);
    assert names[1..] == [] && Joined(prefix, names) == Joined(prefix + "." + field.key, []);
  }

  lemma SeenThroughField(prefix: string, field: Field, page: string, time: real, levels: int, o: Observation)
    requires field.value.ObjectValue?
    ensures SeenAt(prefix, field, page, time, levels, o) ==>
      o == Observation(Key("datalayer_field", TextName(prefix + "." + field.key)), page, ValueType(field.value), time)
      || SeenBelow(prefix + "." + field.key, field.value.fields, page, time, levels - 1, o)
    ensures SeenBelow(prefix + "." + field.key, field.value.fields, page, time, levels - 1, o) ==>
      SeenAt(prefix, field, page, time, levels, o)
  {
    var path := prefix + "." + field.key;
    hide IsField;
    if SeenAt(prefix, field, page, time, levels, o) {
      var names, value :| 0 < |names| <= levels && LeadsOn(field, names, value)
        && o == FieldSeen(prefix, names, value, page, time);
      assert Joined(prefix, names) == Joined(path, names[1..]);
      if |names| > 1 { assert o == FieldSeen(path, names[1..], value, page, time); }
    }
    if SeenBelow(path, field.value.fields, page, time, levels - 1, o) {
      var names, value :| |names| <= levels - 1 && IsField(field.value.fields, names, value)
        && o == FieldSeen(path, names, value, page, time);
      FieldHasName(field.value.fields, names, value);
      var longer := [field.key] + names;
      assert longer[1..] == names && Joined(prefix, longer) == Joined(path, names);
      assert LeadsOn(field, longer, value);
    }
  }

  lemma FieldHasName(fields: seq<Field>, names: seq<string>, value: Value)
    requires IsField(fields, names, value)
    ensures names != []
  {
  }

  /** What names an item: a text or a number under `event`, `True` for true; and `(unnamed)`
      where there is none, or it is null, empty, zero or false. */
  lemma EventNamed(fields: seq<Field>, event: Value, i: nat)
    requires i < |fields| && fields[i] == Field("event", event) && forall j | 0 <= j < i :: fields[j].key != "event"
    ensures EventPrefix(fields) ==
      match event
      case TextValue(s) => if s == "" then "(unnamed)" else s
      case NumberValue(r, text) => if r == 0.0 then "(unnamed)" else text
      case BoolValue(b) => if b then "True" else "(unnamed)"
      case _ => "(unnamed)"
    ensures EventName(fields) ==
      match event
      case TextValue(s) => TextName(if s == "" then "(unnamed)" else s)
      case NumberValue(r, _) => if r == 0.0 then TextName("(unnamed)") else NumberName(r)
      case BoolValue(b) => if b then NumberName(1.0) else TextName("(unnamed)")
      case _ => TextName("(unnamed)")
    ensures Unhashable(ObjectValue(fields)) <==>
      (event.ArrayValue? && event.length > 0) || (event.ObjectValue? && event.fields != [])
  {
    LookupAt(fields, i, "event");
  }

  lemma {:induction false} LookupAt(fields: seq<Field>, i: nat, key: string)
    requires i < |fields| && fields[i].key == key && forall j | 0 <= j < i :: fields[j].key != key
    ensures Lookup(fields, key) == Some(fields[i].value)
  {
    if i > 0 {
      assert forall j | 0 <= j < i - 1 :: fields[1..][j] == fields[j + 1];
      LookupAt(fields[1..], i - 1, key);
    }
  }

  /** Without an `event` it is unnamed. */
  lemma {:induction false} EventUnnamed(fields: seq<Field>)
    requires forall i | 0 <= i < |fields| :: fields[i].key != "event"
    ensures EventPrefix(fields) == "(unnamed)" && EventName(fields) == TextName("(unnamed)")
    ensures !Unhashable(ObjectValue(fields))
  {
    NotFound(fields, "event");
  }

  lemma {:induction false} NotFound(fields: seq<Field>, key: string)
    requires forall i | 0 <= i < |fields| :: fields[i].key != key
    ensures Lookup(fields, key) == None
  {
    if fields != [] { NotFound(fields[1..], key); }
  }

  lemma {:induction false} WithoutIff(fields: seq<Field>, key: string, f: Field)
    ensures f in Without(fields, key) <==> f in fields && f.key != key
  {
    if fields != [] { WithoutIff(fields[1..], key, f); }
  }

  /** What an item contributes: the event under its name, and its fields under that name, the
      field `event` itself not among them. */
  lemma ItemIff(fields: seq<Field>, page: string, time: real, o: Observation)
    ensures o in ItemObservations(ObjectValue(fields), page, time) <==>
      || o == Observation(Key("datalayer_event", EventName(fields)), page, "event", time)
      || exists i :: 0 <= i < |fields| && fields[i].key != "event"
           && SeenAt(EventPrefix(fields), fields[i], page, time, 7, o)
  {
    var rest := Without(fields, "event");
    FlattenedIff(EventPrefix(fields), rest, page, time, 0, o);
    BelowIsAtSome(EventPrefix(fields), rest, page, time, 7, o);
    forall f
      ensures f in rest <==> f in fields && f.key != "event"
    {
      WithoutIff(fields, "event", f);
    }
    hide SeenAt, SeenBelow, Flattened, EventPrefix, EventName, Without;
    if i :| 0 <= i < |rest| && SeenAt(EventPrefix(fields), rest[i], page, time, 7, o) {
      assert rest[i] in rest;
      var k :| 0 <= k < |fields| && fields[k] == rest[i];
    }
    if i :| 0 <= i < |fields| && fields[i].key != "event" && SeenAt(EventPrefix(fields), fields[i], page, time, 7, o) {
      assert fields[i] in rest;
      var k :| 0 <= k < |rest| && rest[k] == fields[i];
    }
  }

  lemma BelowIsAtSome(prefix: string, fields: seq<Field>, page: string, time: real, levels: int, o: Observation)
    ensures SeenBelow(prefix, fields, page, time, levels, o) <==>
      exists i :: 0 <= i < |fields| && SeenAt(prefix, fields[i], page, time, levels, o)
  {
    hide LeadsOn, FieldSeen;
    if SeenBelow(prefix, fields, page, time, levels, o) {
      var names, value :| |names| <= levels && IsField(fields, names, value)
        && o == FieldSeen(prefix, names, value, page, time);
      var i :| 0 <= i < |fields| && LeadsOn(fields[i], names, value);
      assert SeenAt(prefix, fields[i], page, time, levels, o);
    }
  }

  /** What is no object contributes nothing. */
  lemma OnlyObjectsCount(item: Value, page: string, time: real)
    requires !item.ObjectValue?
    ensures ItemObservations(item, page, time) == []
  {
  }

  /** A snapshot contributes its cookies, its local and its session storage, each under its own
      source, and the items of its data layer. */
  lemma SnapshotIff(s: Snapshot, o: Observation)
    ensures o in SnapshotObservations(s) <==>
      || (exists e | e in s.cookies :: o == Observation(Key("cookie", TextName(e.key)), s.page, e.valueType, s.time))
      || (exists e | e in s.localStorage ::
            o == Observation(Key("local_storage", TextName(e.key)), s.page, e.valueType, s.time))
      || (exists e | e in s.sessionStorage ::
            o == Observation(Key("session_storage", TextName(e.key)), s.page, e.valueType, s.time))
      || (exists item | item in s.dataLayer :: o in ItemObservations(item, s.page, s.time))
  {
    StoreIff("cookie", s.cookies, s.page, s.time, o);
    StoreIff("local_storage", s.localStorage, s.page, s.time, o);
    StoreIff("session_storage", s.sessionStorage, s.page, s.time, o);
    LayerIff(s.dataLayer, s.page, s.time, o);
    hide StoreObservations, LayerObservations, ItemObservations;
  }

  lemma {:induction false} StoreIff(source: string, entries: seq<Entry>, page: string, time: real, o: Observation)
    ensures o in StoreObservations(source, entries, page, time) <==>
      exists e | e in entries :: o == Observation(Key(source, TextName(e.key)), page, e.valueType, time)
  {
    if entries != [] { StoreIff(source, entries[1..], page, time, o); }
  }

  lemma {:induction false} LayerIff(items: seq<Value>, page: string, time: real, o: Observation)
    ensures o in LayerObservations(items, page, time) <==> exists item | item in items ::
      o in ItemObservations(item, page, time)
  {
    hide ItemObservations;
    if items != [] { LayerIff(items[1..], page, time, o); }
  }

  /** The lines of the dictionary by source, and within a source by name: texts as texts, numbers
      as numbers. */
  lemma LinesInOrder(vs: seq<Variable>, obs: seq<Observation>, pagesTotal: nat, i: nat, j: nat)
    requires IsDictionary(vs, obs, pagesTotal) && i < j < |vs|
    ensures vs[i].key != vs[j].key
    ensures vs[i].key.source == vs[j].key.source || Sorting.StringLess(vs[i].key.source, vs[j].key.source)
    ensures vs[i].key.source == vs[j].key.source ==>
      match (vs[i].key.name, vs[j].key.name)
      case (TextName(s), TextName(t)) => Sorting.StringLess(s, t)
      case (NumberName(r), NumberName(q)) => r < q
      case (NumberName(_), TextName(_)) => true
      case (TextName(_), NumberName(_)) => false
  {
    assert KeyLess(VariableKeys(vs)[i], VariableKeys(vs)[j]);
    KeyOrder(vs[i].key, vs[j].key, vs[j].key);
    Sorting.StringOrder(vs[i].key.source, vs[i].key.source, vs[i].key.source);
    hide Sorting.StringLess;
  }
}
