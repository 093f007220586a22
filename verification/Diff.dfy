/** The object-level difference of two configuration payloads, read as a patch. */
module Diff {
  import opened Wrappers
  import opened Json
  import opened Sorting

  datatype ObjectType = TagObject | TriggerObject | VariableObject | DestinationObject

  datatype Key = Key(kind: ObjectType, id: string)

  /** An object as a dictionary of its fields. */
  type Document = map<string, Json>

  type Objects = map<Key, Document>

  datatype ChangeKind = Added | Removed | Changed

  datatype Change = Change(key: Key, kind: ChangeKind, fields: seq<string>, before: Option<Document>,
                           after: Option<Document>)

  function Rank(kind: ObjectType): nat {
    match kind
    case TagObject => 0
    case TriggerObject => 1
    case VariableObject => 2
    case DestinationObject => 3
  }

  predicate KeyLess(a: Key, b: Key) {
    Rank(a.kind) < Rank(b.kind) || (Rank(a.kind) == Rank(b.kind) && StringLess(a.id, b.id))
  }

  lemma KeysTotal()
    ensures Total(KeyLess)
  {
    forall a: Key, b: Key, c: Key { StringOrder(a.id, b.id, c.id); }
  }

  function Get<K, V>(m: map<K, V>, k: K): Option<V> {
    if k in m then Some(m[k]) else None
  }

  /** `before.get(key) != after.get(key)`: a missing field counts as null, and `==` is
      Python's. */
  predicate FieldDiffers(before: Document, after: Document, field: string) {
    var b, a := Get(before, field), Get(after, field);
    !LooseEqual(if b.Some? then b.value else Null, if a.Some? then a.value else Null)
  }

  function ChangedFieldSet(before: Document, after: Document): set<string> {
    set field | field in before.Keys + after.Keys && FieldDiffers(before, after, field)
  }

  /** The change of one object, if there is one: added, removed, or with other contents. */
  ghost predicate Describes(before: Objects, after: Objects, c: Change) {
    var was, now := Get(before, c.key), Get(after, c.key);
    && c.before == was && c.after == now
    && match c.kind
       case Added => was.None? && now.Some? && c.fields == []
       case Removed => was.Some? && now.None? && c.fields == []
       case Changed =>
         was.Some? && now.Some? && was != now && Lists(StringLess, c.fields, ChangedFieldSet(was.value, now.value))
  }

  function KeysOf(cs: seq<Change>): (keys: seq<Key>)
    ensures |keys| == |cs| && forall i | 0 <= i < |cs| :: keys[i] == cs[i].key
  {
    seq(|cs|, i requires 0 <= i < |cs| => cs[i].key)
  }

  function Differing(before: Objects, after: Objects): set<Key> {
    set k | k in before.Keys + after.Keys && Get(before, k) != Get(after, k)
  }

  /** One change for each object that differs, in key order. */
  ghost predicate IsDiff(before: Objects, after: Objects, cs: seq<Change>) {
    Lists(KeyLess, KeysOf(cs), Differing(before, after)) && forall i | 0 <= i < |cs| :: Describes(before, after, cs[i])
  }

  /** `_objects`: of several objects under one key the last counts. */
  method CollectObjects(items: seq<(Key, Document)>) returns (objects: Objects)
    ensures forall k :: k in objects <==> exists i :: 0 <= i < |items| && items[i].0 == k
    ensures forall i | 0 <= i < |items| && (forall j | i < j < |items| :: items[j].0 != items[i].0) ::
      items[i].0 in objects && objects[items[i].0] == items[i].1
  {
    objects := map[];
    for n := 0 to |items|
      invariant forall k :: k in objects <==> exists i :: 0 <= i < n && items[i].0 == k
      invariant forall i | 0 <= i < n && (forall j | i < j < n :: items[j].0 != items[i].0) ::
        items[i].0 in objects && objects[items[i].0] == items[i].1
    {
      objects := objects[items[n].0 := items[n].1];
    }
  }

  /** The differences among the keys in `done`. */
  ghost predicate PartialDiff(before: Objects, after: Objects, cs: seq<Change>, done: seq<Key>) {
    && Sorted(KeyLess, KeysOf(cs))
    && (forall j | 0 <= j < |cs| :: Describes(before, after, cs[j]))
    && (forall k :: k in KeysOf(cs) <==> k in done && k in Differing(before, after))
  }

  lemma PartialAppend(before: Objects, after: Objects, cs: seq<Change>, done: seq<Key>, c: Change)
    requires PartialDiff(before, after, cs, done) && Describes(before, after, c) && c.key in Differing(before, after)
    requires forall k | k in done :: KeyLess(k, c.key)
    ensures PartialDiff(before, after, cs + [c], done + [c.key])
  {
    hide KeyLess, Describes, Differing;
    assert KeysOf(cs + [c]) == KeysOf(cs) + [c.key];
    forall i, j | 0 <= i < j < |cs| + 1
      ensures KeyLess(KeysOf(cs + [c])[i], KeysOf(cs + [c])[j])
    {
      assert KeysOf(cs + [c])[i] in KeysOf(cs);
    }
  }

  lemma PartialSkip(before: Objects, after: Objects, cs: seq<Change>, done: seq<Key>, k: Key)
    requires PartialDiff(before, after, cs, done) && k !in Differing(before, after)
    ensures PartialDiff(before, after, cs, done + [k])
  {
    hide KeyLess, Describes, Differing;
  }

  lemma PartialDone(before: Objects, after: Objects, cs: seq<Change>, done: seq<Key>)
    requires PartialDiff(before, after, cs, done) && forall k :: k in done <==> k in before.Keys + after.Keys
    ensures IsDiff(before, after, cs)
  {
    hide KeyLess, Describes;
  }

  method ChangeAt(before: Objects, after: Objects, key: Key) returns (c: Option<Change>)
    requires key in before.Keys + after.Keys
    ensures c.Some? <==> key in Differing(before, after)
    ensures c.Some? ==> c.value.key == key && Describes(before, after, c.value)
  {
    if key !in before { return Some(Change(key, Added, [], None, Some(after[key]))); }
    if key !in after { return Some(Change(key, Removed, [], Some(before[key]), None)); }
    if before[key] == after[key] { return None; }
    StringsTotal();
    hide StringLess, Total, LooseEqual;
    var fields := SortSet(StringLess, ChangedFieldSet(before[key], after[key]));
    return Some(Change(key, Changed, fields, Some(before[key]), Some(after[key])));
  }

  /** `diff_payloads`. */
  method DiffPayloads(before: Objects, after: Objects) returns (cs: seq<Change>)
    ensures IsDiff(before, after, cs)
  {
    KeysTotal();
    hide KeyLess, StringLess, Total, LooseEqual, IsDiff, Describes, Differing;
    var keys := SortSet(KeyLess, before.Keys + after.Keys);
    cs := [];
    for i := 0 to |keys|
      invariant PartialDiff(before, after, cs, keys[..i])
    {
      assert keys[i] in before.Keys + after.Keys && keys[..i + 1] == keys[..i] + [keys[i]];
      var c := ChangeAt(before, after, keys[i]);
      if c.Some? {
        PartialAppend(before, after, cs, keys[..i], c.value);
        cs := cs + [c.value];
      } else {
        PartialSkip(before, after, cs, keys[..i], keys[i]);
      }
    }
    assert keys[..|keys|] == keys;
    PartialDone(before, after, cs, keys);
  }

  /** There is only one difference. */
  lemma DiffUnique(before: Objects, after: Objects, cs: seq<Change>, ds: seq<Change>)
    requires IsDiff(before, after, cs) && IsDiff(before, after, ds)
    ensures cs == ds
  {
    KeysTotal();
    StringsTotal();
    ListingUnique(KeyLess, KeysOf(cs), KeysOf(ds), Differing(before, after));
    hide KeyLess, StringLess, Total, LooseEqual;
    forall i | 0 <= i < |cs|
      ensures cs[i] == ds[i]
    {
      assert cs[i].key == KeysOf(cs)[i] == KeysOf(ds)[i] == ds[i].key;
      SameDescription(before, after, cs[i], ds[i]);
    }
  }

  lemma SameDescription(before: Objects, after: Objects, c: Change, d: Change)
    requires Describes(before, after, c) && Describes(before, after, d) && c.key == d.key
    ensures c == d
  {
    StringsTotal();
    hide StringLess, LooseEqual;
    if c.kind.Changed? {
      ListingUnique(StringLess, c.fields, d.fields, ChangedFieldSet(before[c.key], after[c.key]));
    }
  }

  /** Reading a change as an instruction. */
  function ApplyChange(m: Objects, c: Change): Objects {
    match c.after
    case None => m - {c.key}
    case Some(document) => m[c.key := document]
  }

  function Apply(m: Objects, cs: seq<Change>): Objects
    decreases |cs|
  {
    if cs == [] then m else Apply(ApplyChange(m, cs[0]), cs[1..])
  }

  function Inverse(c: Change): Change {
    Change(c.key, match c.kind case Added => Removed case Removed => Added case Changed => Changed, c.fields, c.after,
           c.before)
  }

  function Inverses(cs: seq<Change>): (inverses: seq<Change>)
    ensures |inverses| == |cs| && forall i | 0 <= i < |cs| :: inverses[i] == Inverse(cs[i])
  {
    seq(|cs|, i requires 0 <= i < |cs| => Inverse(cs[i]))
  }

  predicate DistinctKeys(cs: seq<Change>) {
    forall i, j | 0 <= i < j < |cs| :: cs[i].key != cs[j].key
  }

  lemma DiffKeysDistinct(before: Objects, after: Objects, cs: seq<Change>)
    requires IsDiff(before, after, cs)
    ensures DistinctKeys(cs)
  {
    KeysTotal();
    hide KeyLess;
    forall i, j | 0 <= i < j < |cs|
      ensures cs[i].key != cs[j].key
    {
      assert KeyLess(KeysOf(cs)[i], KeysOf(cs)[j]);
    }
  }

  lemma {:induction false} ApplyAt(m: Objects, cs: seq<Change>, k: Key)
    requires DistinctKeys(cs)
    ensures (exists i :: 0 <= i < |cs| && cs[i].key == k && Get(Apply(m, cs), k) == cs[i].after)
         || ((forall i | 0 <= i < |cs| :: cs[i].key != k) && Get(Apply(m, cs), k) == Get(m, k))
    decreases |cs|
  {
    if cs != [] {
      ApplyAt(ApplyChange(m, cs[0]), cs[1..], k);
      if i :| 0 <= i < |cs[1..]| && cs[1..][i].key == k && Get(Apply(m, cs), k) == cs[1..][i].after {
        assert cs[i + 1].key == k;
      } else if cs[0].key == k {
        assert Get(ApplyChange(m, cs[0]), k) == cs[0].after;
      } else {
        assert forall i | 0 <= i < |cs| :: i > 0 ==> cs[i] == cs[1..][i - 1];
      }
    }
  }

  /** The difference is a correct patch: applied to the old objects it gives the new ones. */
  lemma PatchIsCorrect(before: Objects, after: Objects, cs: seq<Change>)
    requires IsDiff(before, after, cs)
    ensures Apply(before, cs) == after
  {
    DiffKeysDistinct(before, after, cs);
    hide KeyLess, Sorted, Apply;
    forall k
      ensures Get(Apply(before, cs), k) == Get(after, k)
    {
      ApplyAt(before, cs, k);
      if forall i | 0 <= i < |cs| :: cs[i].key != k { UnlistedIsSame(before, after, cs, k); }
    }
    SameEverywhere(Apply(before, cs), after);
  }

  lemma UnlistedIsSame(before: Objects, after: Objects, cs: seq<Change>, k: Key)
    requires IsDiff(before, after, cs) && forall i | 0 <= i < |cs| :: cs[i].key != k
    ensures Get(before, k) == Get(after, k)
  {
    assert k !in KeysOf(cs);
  }

  lemma SameEverywhere(a: Objects, b: Objects)
    requires forall k :: Get(a, k) == Get(b, k)
    ensures a == b
  {
    forall k
      ensures k in a <==> k in b
      ensures k in a ==> a[k] == b[k]
    {
      assert Get(a, k) == Get(b, k);
    }
  }

  lemma {:induction false} LooseEqualSymmetric(a: Json, b: Json)
    ensures LooseEqual(a, b) == LooseEqual(b, a)
  {
    match (a, b)
    case (List(xs), List(ys)) =>
      if |xs| == |ys| {
        forall i | 0 <= i < |xs|
          ensures LooseEqual(xs[i], ys[i]) == LooseEqual(ys[i], xs[i])
        {
          LooseEqualSymmetric(xs[i], ys[i]);
        }
      }
    case (Obj(xs), Obj(ys)) =>
      forall k | k in xs && k in ys
        ensures LooseEqual(xs[k], ys[k]) == LooseEqual(ys[k], xs[k])
      {
        LooseEqualSymmetric(xs[k], ys[k]);
      }
    case _ =>
  }

  lemma ChangedFieldsSymmetric(before: Document, after: Document)
    ensures ChangedFieldSet(before, after) == ChangedFieldSet(after, before)
  {
    forall field
      ensures FieldDiffers(before, after, field) == FieldDiffers(after, before, field)
    {
      var b, a := Get(before, field), Get(after, field);
      LooseEqualSymmetric(if b.Some? then b.value else Null, if a.Some? then a.value else Null);
    }
  }

  lemma InverseDescribes(before: Objects, after: Objects, c: Change)
    requires Describes(before, after, c)
    ensures Describes(after, before, Inverse(c))
  {
    hide LooseEqual;
    if c.kind.Changed? { ChangedFieldsSymmetric(before[c.key], after[c.key]); }
  }

  /** The difference in the other direction is the inverse, change by change. */
  lemma ReverseIsInverse(before: Objects, after: Objects, cs: seq<Change>, back: seq<Change>)
    requires IsDiff(before, after, cs) && IsDiff(after, before, back)
    ensures back == Inverses(cs)
  {
    hide KeyLess, LooseEqual, StringLess;
    forall i | 0 <= i < |cs| { InverseDescribes(before, after, cs[i]); }
    assert KeysOf(Inverses(cs)) == KeysOf(cs) && Differing(after, before) == Differing(before, after);
    DiffUnique(after, before, back, Inverses(cs));
  }

  /** `summary`. */
  function CountOf(cs: seq<Change>, kind: ChangeKind): nat {
    if cs == [] then 0 else (if cs[0].kind == kind then 1 else 0) + CountOf(cs[1..], kind)
  }

  /** The change fits the objects it is applied to. */
  predicate Fits(m: Objects, c: Change) {
    && (c.kind.Added? <==> c.key !in m) && (c.kind.Removed? <==> c.after.None?) && !(c.kind.Added? && c.after.None?)
  }

  lemma {:induction false} ApplyCounts(m: Objects, cs: seq<Change>)
    requires DistinctKeys(cs) && forall i | 0 <= i < |cs| :: Fits(m, cs[i])
    ensures |Apply(m, cs)| + CountOf(cs, Removed) == |m| + CountOf(cs, Added)
    decreases |cs|
  {
    if cs != [] {
      var next := ApplyChange(m, cs[0]);
      OneChangeCounts(m, cs[0]);
      forall i | 0 <= i < |cs[1..]|
        ensures Fits(next, cs[1..][i])
      {
        assert cs[i + 1].key != cs[0].key && Fits(m, cs[i + 1]);
      }
      ApplyCounts(next, cs[1..]);
    }
  }

  lemma OneChangeCounts(m: Objects, c: Change)
    requires Fits(m, c)
    ensures |ApplyChange(m, c)| == |m| + (if c.kind.Added? then 1 else 0) - (if c.kind.Removed? then 1 else 0)
  {
    if c.after.None? {
      assert (m - {c.key}).Keys == m.Keys - {c.key};
    } else {
      assert m[c.key := c.after.value].Keys == m.Keys + {c.key};
    }
  }

  /** The number of objects changes by added minus removed, and the summary is all zero
      exactly when the payloads hold the same objects. */
  lemma SummaryAddsUp(before: Objects, after: Objects, cs: seq<Change>)
    requires IsDiff(before, after, cs)
    ensures |after| + CountOf(cs, Removed) == |before| + CountOf(cs, Added)
    ensures |cs| == CountOf(cs, Added) + CountOf(cs, Removed) + CountOf(cs, Changed)
    ensures cs == [] <==> before == after
  {
    PatchIsCorrect(before, after, cs);
    DiffKeysDistinct(before, after, cs);
    forall i | 0 <= i < |cs|
      ensures Fits(before, cs[i])
    {
      assert Describes(before, after, cs[i]);
    }
    ApplyCounts(before, cs);
    KindsPartition(cs);
    EmptyListing(KeyLess, KeysOf(cs), Differing(before, after));
  }

  lemma {:induction false} KindsPartition(cs: seq<Change>)
    ensures |cs| == CountOf(cs, Added) + CountOf(cs, Removed) + CountOf(cs, Changed)
  {
    if cs != [] { KindsPartition(cs[1..]); }
  }

  /** The fields that an object of each type is always written with. */
  function FieldNames(kind: ObjectType): set<string> {
    match kind
    case TagObject =>
      {"tag_id", "name", "description", "type", "parameters", "trigger_ids", "variable_ids", "consent_purpose",
       "destination_ids", "enabled", "adapter_version", "compatibility", "source_evidence"}
    case TriggerObject => {"trigger_id", "name", "type", "conditions", "priority", "enabled"}
    case VariableObject => {"variable_id", "name", "type", "source", "source_ref", "default", "sensitive", "enabled"}
    case DestinationObject => {"destination_id", "name", "kind", "config", "secret_refs", "enabled"}
  }

  /** Every object is written with the fields of its type. */
  predicate WellKeyed(objects: Objects) {
    forall k | k in objects :: objects[k].Keys == FieldNames(k.kind)
  }

  /** Every boolean and integer as the real number it counts as, at every level. */
  function NormalForm(j: Json): Json {
    match j
    case List(items) => List(seq(|items|, i requires 0 <= i < |items| => NormalForm(items[i])))
    case Obj(fields) => Obj(map k | k in fields :: NormalForm(fields[k]))
    case _ => if IsNumeric(j) then Float(NumericOf(j)) else j
  }

  /** Python's equality is equality of normal forms. */
  lemma {:induction false} LooseEqualIffSameNormalForm(a: Json, b: Json)
    ensures LooseEqual(a, b) <==> NormalForm(a) == NormalForm(b)
    decreases a, 1
  {
    match (a, b)
    case (List(xs), List(ys)) =>
      var ns, ms := NormalForm(a).items, NormalForm(b).items;
      if |xs| == |ys| {
        forall i | 0 <= i < |xs|
          ensures LooseEqual(xs[i], ys[i]) <==> ns[i] == ms[i]
        {
          LooseEqualIffSameNormalForm(xs[i], ys[i]);
        }
      } else {
        assert |ns| != |ms|;
      }
    case (Obj(xs), Obj(ys)) => ObjectsLooseEqualIff(xs, ys);
    case _ =>
  }

  lemma {:induction false} ObjectsLooseEqualIff(xs: map<string, Json>, ys: map<string, Json>)
    ensures LooseEqual(Obj(xs), Obj(ys)) <==> NormalForm(Obj(xs)) == NormalForm(Obj(ys))
    decreases Obj(xs), 0
  {
    var ns, ms := NormalForm(Obj(xs)).fields, NormalForm(Obj(ys)).fields;
    assert ns.Keys == xs.Keys && ms.Keys == ys.Keys;
    forall k | k in xs && k in ys
      ensures LooseEqual(xs[k], ys[k]) <==> ns[k] == ms[k]
    {
      LooseEqualIffSameNormalForm(xs[k], ys[k]);
    }
    if ns == ms {
      assert forall k | k in xs :: k in ys && ns[k] == ms[k];
    }
  }

  /** What a changed record names: the fields whose values have different normal forms.  It
      names none exactly when the whole documents have the same one, that is, when they differ
      only in writing a number as a boolean, an integer or a float somewhere. */
  lemma ChangedFieldsIff(before: Objects, after: Objects, c: Change)
    requires WellKeyed(before) && WellKeyed(after) && Describes(before, after, c) && c.kind.Changed?
    ensures forall field :: field in c.fields <==>
      field in FieldNames(c.key.kind) && NormalForm(before[c.key][field]) != NormalForm(after[c.key][field])
    ensures c.fields == [] <==> NormalForm(Obj(before[c.key])) == NormalForm(Obj(after[c.key]))
  {
    var was, now := before[c.key], after[c.key];
    hide StringLess, FieldNames, LooseEqual;
    forall field
      ensures field in c.fields <==> field in was.Keys && NormalForm(was[field]) != NormalForm(now[field])
    {
      assert field in c.fields <==> field in ChangedFieldSet(was, now);
      if field in was { LooseEqualIffSameNormalForm(was[field], now[field]); }
    }
    SameFieldsSameNormalForm(was, now);
    if c.fields != [] {
      assert c.fields[0] in c.fields;
    }
  }

  lemma SameFieldsSameNormalForm(was: Document, now: Document)
    requires was.Keys == now.Keys
    ensures NormalForm(Obj(was)) == NormalForm(Obj(now)) <==>
      forall field | field in was :: NormalForm(was[field]) == NormalForm(now[field])
  {
    var ns, ms := NormalForm(Obj(was)).fields, NormalForm(Obj(now)).fields;
    assert ns.Keys == was.Keys && ms.Keys == now.Keys;
    assert forall k | k in was :: ns[k] == NormalForm(was[k]) && ms[k] == NormalForm(now[k]);
  }

  /** A static variable of type `json` with this default. */
  function StaticJson(id: string, value: Json): Document {
    map["variable_id" := Str(id), "name" := Str("v"), "type" := Str("json"),
        "source" := Str("static"), "source_ref" := Null,
        "default" := value, "sensitive" := Bool(false), "enabled" := Bool(true)]
  }

  /** A change that names no field: a variable's default goes from true to 1. */
  lemma DefaultChangesSilently(id: string)
    ensures var key := Key(VariableObject, id);
      var before, after := map[key := StaticJson(id, Bool(true))], map[key := StaticJson(id, Int(1))];
      && WellKeyed(before) && WellKeyed(after)
      && IsDiff(before, after, [Change(key, Changed, [], Some(before[key]), Some(after[key]))])
  {
    var key := Key(VariableObject, id);
    var was, now := StaticJson(id, Bool(true)), StaticJson(id, Int(1));
    var before, after := map[key := was], map[key := now];
    assert was["default"] != now["default"];
    SilentFields(id, key);
    hide StaticJson, LooseEqual;
    assert KeysOf([Change(key, Changed, [], Some(was), Some(now))]) == [key];
    assert Differing(before, after) == {key};
  }

  lemma SilentFields(id: string, key: Key)
    requires key.kind == VariableObject
    ensures var was, now := StaticJson(id, Bool(true)), StaticJson(id, Int(1));
      was.Keys == now.Keys == FieldNames(key.kind) && ChangedFieldSet(was, now) == {}
  {
    var was, now := StaticJson(id, Bool(true)), StaticJson(id, Int(1));
    assert now == was["default" := Int(1)];
    forall field | field in was
      ensures !FieldDiffers(was, now, field)
    {
      assert field == "default" || was[field] == now[field];
    }
  }

  /** Tags come before triggers, those before variables, and those before destinations. */
  predicate TypeBefore(a: ObjectType, b: ObjectType) {
    || (a.TagObject? && !b.TagObject?)
    || (a.TriggerObject? && (b.VariableObject? || b.DestinationObject?))
    || (a.VariableObject? && b.DestinationObject?)
  }

  /** Changes are listed by object type, and by id within a type. */
  lemma ChangesInOrder(before: Objects, after: Objects, cs: seq<Change>, i: nat, j: nat)
    requires IsDiff(before, after, cs) && i < j < |cs|
    ensures TypeBefore(cs[i].key.kind, cs[j].key.kind)
      || (cs[i].key.kind == cs[j].key.kind && StringLess(cs[i].key.id, cs[j].key.id))
  {
    assert KeyLess(KeysOf(cs)[i], KeysOf(cs)[j]);
    hide StringLess, LooseEqual, Differing, Describes;
  }

  /** What the changes say of one object: added, removed or changed exactly if it is, and nothing
      if it is the same. */
  lemma ChangeIff(before: Objects, after: Objects, cs: seq<Change>, k: Key)
    requires IsDiff(before, after, cs)
    ensures (exists i :: 0 <= i < |cs| && cs[i].key == k && cs[i].kind == Added) <==> k !in before && k in after
    ensures (exists i :: 0 <= i < |cs| && cs[i].key == k && cs[i].kind == Removed) <==> k in before && k !in after
    ensures (exists i :: 0 <= i < |cs| && cs[i].key == k && cs[i].kind == Changed) <==>
      k in before && k in after && before[k] != after[k]
    ensures forall i | 0 <= i < |cs| && cs[i].key == k ::
      && (k in before ==> cs[i].before == Some(before[k])) && (k !in before ==> cs[i].before == None)
      && (k in after ==> cs[i].after == Some(after[k])) && (k !in after ==> cs[i].after == None)
  {
    hide KeyLess, LooseEqual, StringLess;
    assert k in KeysOf(cs) <==> k in Differing(before, after);
    if k in KeysOf(cs) {
      var i :| 0 <= i < |cs| && KeysOf(cs)[i] == k;
      assert Describes(before, after, cs[i]);
    }
  }
}
