/** Container records, and which read back. */
module ContainerRecords {
  import opened Wrappers
  import opened ControlPlane

  const MaxNameLength: nat := 200
  const Suffix: string := " (imported)"

  /** What `str.strip` removes. */
  predicate IsSpace(c: char) {
    || '\U{9}' <= c <= '\U{D}' || '\U{1C}' <= c <= ' ' || c in {'\U{85}', '\U{A0}', '\U{1680}'}
    || '\U{2000}' <= c <= '\U{200A}' || c in {'\U{2028}', '\U{2029}', '\U{202F}', '\U{205F}', '\U{3000}'}
  }

  /** `validate_name`. */
  predicate ValidName(name: string) {
    && 1 <= |name| <= MaxNameLength && !IsSpace(name[0]) && !IsSpace(name[|name| - 1])
    && forall i | 0 <= i < |name| :: ' ' <= name[i] && name[i] != '\U{7F}'
  }

  predicate AlphaNumeric(c: char) { 'A' <= c <= 'Z' || 'a' <= c <= 'z' || '0' <= c <= '9' }

  /** `validate_container_id`. */
  predicate ValidId(id: string) {
    && 1 <= |id| <= 128 && AlphaNumeric(id[0])
    && forall i | 0 <= i < |id| :: AlphaNumeric(id[i]) || id[i] in {'.', '_', ':', '-'}
  }

  /** The names in the records, by folded container id. */
  type Records = map<string, string>

  /** The container record of an export. */
  datatype Header = Header(id: string, name: string)

  /** `parses`: the rest of the document does; `goes`: so do the renaming and the writes;
      `same`: the container already stored under the id has equal fingerprints. */
  datatype Request =
    | Create(id: string, name: Option<string>, goes: bool)
    | Import(header: Header, asId: Option<string>, name: Option<string>, parses: bool, same: bool, goes: bool)
    | Clone(source: string, newId: string, name: Option<string>, goes: bool)

  datatype Answer = Stored | AlreadyPresent | Invalid | Taken | NoSource | Failed

  /** Every record reads back. */
  predicate Readable(records: Records) {
    forall key | key in records :: ValidName(records[key])
  }

  function GivenOr(name: Option<string>, otherwise: string): string {
    if name.Some? then name.value else otherwise
  }

  function NewId(header: Header, asId: Option<string>): string {
    GivenOr(asId, header.id)
  }

  /** A copy under a new id gets a suffix. */
  function DefaultName(name: string, asId: Option<string>): string {
    if asId.Some? then name + Suffix else name
  }

  predicate Fits(name: Option<string>) {
    name.Some? ==> ValidName(name.value)
  }

  function AnswerToImport(records: Records, header: Header, asId: Option<string>, name: Option<string>, parses: bool,
                          same: bool, goes: bool): Answer {
    var key := Fold(NewId(header, asId));
    if !ValidId(header.id) || !ValidName(header.name) || !ValidId(NewId(header, asId)) || !parses then Invalid
    else if key in records && asId.Some? then Taken
    else if key in records && !ValidName(records[key]) then Invalid
    else if key in records then if same then AlreadyPresent else Taken
    else if !Readable(records) || !Fits(name) then Invalid
    else if goes then Stored
    else Failed
  }

  /** What the service answers. */
  function AnswerTo(records: Records, request: Request): Answer {
    match request
    case Create(id, name, goes) =>
      if !ValidId(id) || !Readable(records) then Invalid
      else if Fold(id) in records then Taken
      else if !Fits(name) then Invalid
      else if goes then Stored
      else Failed
    case Import(header, asId, name, parses, same, goes) =>
      AnswerToImport(records, header, asId, name, parses, same, goes)
    case Clone(source, newId, name, goes) =>
      if !ValidId(source) then Invalid
      else if Fold(source) !in records then NoSource
      else AnswerToImport(records, Header(source, records[Fold(source)]), Some(newId), name, true, false, goes)
  }

  /** The key and the name under which a container is stored if it is. */
  function Placed(records: Records, request: Request): (string, string) {
    match request
    case Create(id, name, _) => (Fold(id), GivenOr(name, id))
    case Import(header, asId, name, _, _, _) =>
      (Fold(NewId(header, asId)), GivenOr(name, DefaultName(header.name, asId)))
    case Clone(source, newId, name, _) =>
      (Fold(newId), GivenOr(name, if Fold(source) in records then records[Fold(source)] + Suffix else Suffix))
  }

  function After(records: Records, request: Request): Records {
    if AnswerTo(records, request) == Stored then
      records[Placed(records, request).0 := Placed(records, request).1]
    else records
  }

  class Registry {
    var records: Records

    constructor ()
      ensures records == map[]
    {
      records := map[];
    }

    /** `list_containers` of the store: reads every record. */
    method ListContainers() returns (ok: bool)
      ensures ok <==> Readable(records)
    {
      var left := records.Keys;
      while left != {}
        invariant left <= records.Keys && forall key | key in records.Keys - left :: ValidName(records[key])
        decreases |left|
      {
        var key :| key in left;
        if !ValidName(records[key]) { return false; }
        left := left - {key};
      }
      ok := true;
    }

    /** `create_container`. */
    method CreateContainer(id: string, name: Option<string>, goes: bool) returns (answer: Answer)
      modifies this
      ensures answer == AnswerTo(old(records), Create(id, name, goes))
      ensures records == After(old(records), Create(id, name, goes))
    {
      hide ValidId, ValidName, Fold, Readable;
      if !ValidId(id) { return Invalid; }
      var listed := ListContainers();
      if !listed { return Invalid; }
      if Fold(id) in records { return Taken; }
      if name.Some? && !ValidName(name.value) { return Invalid; }
      if !goes { return Failed; }
      records := records[Fold(id) := GivenOr(name, id)];
      return Stored;
    }

    /** `import_container`. */
    method ImportContainer(header: Header, asId: Option<string>, name: Option<string>, parses: bool, same: bool,
                           goes: bool)
      returns (answer: Answer)
      modifies this
      ensures answer == AnswerTo(old(records), Import(header, asId, name, parses, same, goes))
      ensures records == After(old(records), Import(header, asId, name, parses, same, goes))
    {
      hide ValidId, ValidName, Fold, Readable;
      if !ValidId(header.id) || !ValidName(header.name) { return Invalid; }
      if asId.Some? && !ValidId(asId.value) { return Invalid; }
      if !parses { return Invalid; }
      var id := GivenOr(asId, header.id);
      if Fold(id) in records {
        if asId.Some? { return Taken; }
        if !ValidName(records[Fold(id)]) { return Invalid; }
        return if same then AlreadyPresent else Taken;
      }
      var listed := ListContainers();
      if !listed { return Invalid; }
      if name.Some? && !ValidName(name.value) { return Invalid; }
      if !goes { return Failed; }
      records := records[Fold(id) := GivenOr(name, if asId.None? then header.name else header.name + Suffix)];
      return Stored;
    }

    /** `clone_container`: an export, which reads the source, and an import. */
    method CloneContainer(source: string, newId: string, name: Option<string>, goes: bool) returns (answer: Answer)
      modifies this
      ensures answer == AnswerTo(old(records), Clone(source, newId, name, goes))
      ensures records == After(old(records), Clone(source, newId, name, goes))
    {
      hide ValidId, ValidName, Fold, Readable;
      if !ValidId(source) { return Invalid; }
      if Fold(source) !in records { return NoSource; }
      if !ValidName(records[Fold(source)]) { return Invalid; }
      answer := ImportContainer(Header(source, records[Fold(source)]), Some(newId), name, true, false, goes);
    }
  }

  /** A name with the suffix is valid exactly when the name is and leaves room for it. */
  lemma SuffixedIff(name: string)
    requires ValidName(name)
    ensures ValidName(name + Suffix) <==> |name| + |Suffix| <= MaxNameLength
    ensures ValidName(name + " (imported)") <==> |name| <= 189
  {
    var suffixed := name + Suffix;
    assert forall i | 0 <= i < |name| :: suffixed[i] == name[i];
    assert forall i | |name| <= i < |suffixed| :: suffixed[i] == Suffix[i - |name|];
  }

  lemma IdIsName(id: string)
    requires ValidId(id)
    ensures ValidName(id)
  {
  }

  /** The name of the source of a copy that gets its name by default, if the request is one. */
  function CopiedName(records: Records, request: Request): Option<string> {
    match request
    case Import(header, Some(_), None, _, _, _) => Some(header.name)
    case Clone(source, _, None, _) => if Fold(source) in records then Some(records[Fold(source)]) else None
    case _ => None
  }

  /** A copy is stored, without a name of its own, of a container whose name leaves no room
      for the suffix. */
  predicate Overlong(records: Records, request: Request) {
    && AnswerTo(records, request) == Stored && CopiedName(records, request).Some?
    && |CopiedName(records, request).value| + |Suffix| > MaxNameLength
  }

  lemma PlacedIff(records: Records, request: Request)
    requires AnswerTo(records, request) == Stored
    ensures Placed(records, request).0 !in records && Readable(records)
    ensures ValidName(Placed(records, request).1) <==> !Overlong(records, request)
  {
    hide ValidName, Fold, ValidId;
    match request
    case Create(id, _, _) => IdIsName(id);
    case Import(header, _, _, _, _, _) => SuffixedIff(header.name);
    case Clone(source, _, _, _) => SuffixedIff(records[Fold(source)]);
  }

  /** From records that all read back, a request leads to records that all do unless it
      stores an overlong copy. */
  lemma ReadableIff(records: Records, request: Request)
    requires Readable(records)
    ensures Readable(After(records, request)) <==> !Overlong(records, request)
  {
    hide ValidName, Overlong, Placed, AnswerTo;
    if AnswerTo(records, request) == Stored {
      PlacedIff(records, request);
      var (key, name) := Placed(records, request);
      assert After(records, request)[key] == name;
    } else {
      assert !Overlong(records, request) by { NotStored(records, request); }
    }
  }

  lemma NotStored(records: Records, request: Request)
    requires AnswerTo(records, request) != Stored
    ensures !Overlong(records, request)
  {
  }

  /** With a record that does not read back, nothing is stored any more. */
  lemma NothingStored(records: Records, request: Request)
    requires !Readable(records)
    ensures After(records, request) == records
  {
    hide Readable, ValidName, Fold, ValidId;
  }

  /** When a container is created: the id is valid, all records read back, the id is not taken in
      any spelling, and the name given, if any, is valid; otherwise the id is its name. */
  lemma CreateStoredIff(records: Records, id: string, name: Option<string>, goes: bool)
    ensures AnswerTo(records, Create(id, name, goes)) == Stored <==>
      ValidId(id) && Readable(records) && Fold(id) !in records && (name.Some? ==> ValidName(name.value)) && goes
    ensures AnswerTo(records, Create(id, name, goes)) == Stored ==>
      After(records, Create(id, name, goes)) == records[Fold(id) := if name.Some? then name.value else id]
  {
    hide ValidName, ValidId, Fold, Readable;
  }

  /** When a clone is stored, as long as all records read back, and under which name. */
  lemma CloneStoredIff(records: Records, source: string, newId: string, name: Option<string>, goes: bool)
    requires Readable(records)
    ensures AnswerTo(records, Clone(source, newId, name, goes)) == Stored <==>
      && ValidId(source) && Fold(source) in records && ValidId(newId) && Fold(newId) !in records
      && (name.Some? ==> ValidName(name.value)) && goes
    ensures AnswerTo(records, Clone(source, newId, name, goes)) == Stored ==>
      && Fold(source) in records
      && After(records, Clone(source, newId, name, goes)) ==
           records[Fold(newId) := if name.Some? then name.value else records[Fold(source)] + " (imported)"]
  {
    hide ValidName, ValidId, Fold;
  }

  datatype Run = Run(requests: seq<Request>, states: seq<Records>)

  ghost predicate IsRun(r: Run) {
    && |r.states| == |r.requests| + 1 && r.states[0] == map[]
    && forall i | 0 <= i < |r.requests| :: r.states[i + 1] == After(r.states[i], r.requests[i])
  }

  /** In every state all records read back, if and only if no overlong copy was stored. */
  lemma {:induction false} RunReadableIff(r: Run, n: nat)
    requires IsRun(r) && n <= |r.requests|
    ensures Readable(r.states[n]) <==> forall i | 0 <= i < n :: !Overlong(r.states[i], r.requests[i])
  {
    hide Overlong, After, Readable;
    if n > 0 {
      RunReadableIff(r, n - 1);
      if Readable(r.states[n - 1]) {
        ReadableIff(r.states[n - 1], r.requests[n - 1]);
      } else {
        NothingStored(r.states[n - 1], r.requests[n - 1]);
      }
    } else {
      assert Readable(r.states[0]) by { EmptyIsReadable(); }
    }
  }

  lemma EmptyIsReadable()
    ensures Readable(map[])
  {
  }

  /** After an overlong copy no container is ever created, imported or cloned again. */
  lemma {:induction false} FrozenAfterOverlong(r: Run, i: nat, n: nat)
    requires IsRun(r) && i < n <= |r.requests| && Overlong(r.states[i], r.requests[i])
    ensures r.states[n] == r.states[i + 1] && !Readable(r.states[n])
  {
    hide Overlong, After, Readable;
    if n == i + 1 {
      RunReadableIff(r, n);
    } else {
      FrozenAfterOverlong(r, i, n - 1);
      NothingStored(r.states[n - 1], r.requests[n - 1]);
    }
  }

  /** The name of a copy of a copy of ..., `n` times over. */
  function Generation(name: string, n: nat): (g: string)
    ensures |g| == |name| + n * |Suffix|
  {
    if n == 0 then name else Generation(name, n - 1) + Suffix
  }

  /** How often copies can be copied: as long as every suffix fits. */
  lemma {:induction false} GenerationIff(name: string, n: nat)
    requires ValidName(name)
    ensures ValidName(Generation(name, n)) <==> |name| + n * |Suffix| <= MaxNameLength
  {
    hide ValidName;
    if |Generation(name, n)| > MaxNameLength {
      TooLong(Generation(name, n));
    } else if n > 0 {
      GenerationIff(name, n - 1);
      SuffixedIff(Generation(name, n - 1));
    } else {
      assert Generation(name, 0) == name;
    }
  }

  lemma TooLong(name: string)
    requires |name| > MaxNameLength
    ensures !ValidName(name)
  {
  }

  /** One clone of a container with a long name is enough. */
  lemma OneCloneFreezes(name: string)
    requires ValidName(name) && |name| + |Suffix| > MaxNameLength
    ensures var one := After(map[], Create("a", Some(name), true));
      var two := After(one, Clone("a", "b", None, true));
      && AnswerTo(one, Clone("a", "b", None, true)) == Stored && !Readable(two)
      && forall request :: After(two, request) == two
  {
    hide ValidName;
    var one := After(map[], Create("a", Some(name), true));
    assert ValidId("a") && ValidId("b") && Fold("a") == "a" && Fold("b") == "b";
    hide ValidId, Fold;
    assert one == map["a" := name];
    CloneStoredIff(one, "a", "b", None, true);
    ReadableIff(one, Clone("a", "b", None, true));
    var two := After(one, Clone("a", "b", None, true));
    hide After, Readable, Overlong;
    assert !Readable(two) by { assert Overlong(one, Clone("a", "b", None, true)) by { OverlongClone(one, "a", "b"); } }
    forall request
      ensures After(two, request) == two
    {
      NothingStored(two, request);
    }
  }

  lemma OverlongClone(records: Records, source: string, newId: string)
    requires Fold(source) in records && |records[Fold(source)]| + |Suffix| > MaxNameLength
    requires AnswerTo(records, Clone(source, newId, None, true)) == Stored
    ensures Overlong(records, Clone(source, newId, None, true))
  {
    hide AnswerTo, Fold;
  }

  /** A name has no white space at its ends and no control characters. */
  lemma ValidNameMeans(name: string)
    requires ValidName(name)
    ensures name[0] !in {' ', '\t', '\n', '\r', '\U{A0}', '\U{3000}'}
    ensures name[|name| - 1] !in {' ', '\t', '\n', '\r', '\U{A0}', '\U{3000}'}
    ensures forall i | 0 <= i < |name| :: name[i] !in {'\0', '\t', '\n', '\r', '\U{1F}', '\U{7F}'}
  {
  }

  /** Ids that look like those of other products are admitted, and paths are not. */
  lemma IdsAdmitted()
    ensures ValidId("GTM-ABC1234") && ValidId("a") && !ValidId("") && !ValidId("../escape") && !ValidId("a/b")
    ensures !ValidId("-a") && ValidId("a.b:c_d-e")
  {
    assert "a/b"[1] == '/';
  }
}
