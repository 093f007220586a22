/** What the record of a variable holds. */
module RecordLaws {
  import opened Wrappers
  import opened Json
  import opened Expressions
  import opened Variables
  import opened Denotation
  import opened Resolver
  import opened Conditions
  import opened ConditionLaws
  import Preview
  import Redaction

  /** The record has a value. */
  predicate HasValue(r: Resolution) { r.status.Resolved? || r.status.Default? }

  /** A value is of a type. */
  predicate OfType(j: Json, t: VariableType) {
    match t
    case StringType => j.Str?
    case NumberType => j.Int? || j.Float?
    case BooleanType => j.Bool?
    case ListType => j.List?
    case NullType => j.Null?
    case JsonType => true
  }

  lemma StepRespectsType(w: World, v: VariableDef, env: Env)
    ensures HasValue(Step(w, v, env)) ==> OfType(Step(w, v, env).value, v.vtype)
  {
    hide Eval, ReadSource, Tainted;
  }

  /** Type soundness: on any payload, a record that has a value has one of its variable's
      declared type. */
  lemma RecordRespectsType(w: World, id: string, r: Resolution)
    requires Known(w) && IsMeaning(w, id, r) && HasValue(r)
    ensures id in w.vars && w.vars[id].enabled && OfType(r.value, w.vars[id].vtype)
  {
    NoValueOtherwise(w, id);
    PlainUnfolds(w, id, {});
    StepRespectsType(w, w.vars[id], PlainEnv(w, {} + {id}));
    hide Plain, Step, Acyclic;
  }

  lemma NoValueOtherwise(w: World, id: string)
    ensures HasValue(Plain(w, id, {})) ==> id in w.vars && w.vars[id].enabled
  {
    hide Step, Tainted;
  }

  /** The record of an enabled variable that is not computed, from what it reads: a value of its
      type as it is, a value of another type as an error that names the declared type; and
      where there is nothing to read its default, if it has one, in the same way. */
  lemma RecordOfReading(w: World, id: string, r: Resolution)
    requires Known(w) && IsMeaning(w, id, r) && id in w.vars && w.vars[id].enabled && !w.vars[id].source.Computed?
    ensures var v := w.vars[id];
      match ReadSource(v, w.context)
      case Got(value) =>
        if OfType(value, v.vtype) then r.status == Resolved && r.value == value && r.error.None?
        else r.status == Failed && r.value == Null && r.error.Some?
      case Missing =>
        if v.default == Null then r.status == Absent && r.value == Null && r.error.None?
        else if OfType(v.default, v.vtype) then r.status == Default && r.value == v.default && r.error.None?
        else r.status == Failed && r.value == Null && r.error.Some?
      case Raised(_) => false
  {
    PlainUnfolds(w, id, {});
    ReadingRecord(w, w.vars[id], PlainEnv(w, {} + {id}));
    hide Plain, Step, Acyclic, ReadSource;
  }

  lemma ReadingRecord(w: World, v: VariableDef, env: Env)
    requires !v.source.Computed?
    ensures var r := Step(w, v, env);
      match ReadSource(v, w.context)
      case Got(value) =>
        if OfType(value, v.vtype) then r.status == Resolved && r.value == value && r.error.None?
        else r.status == Failed && r.value == Null && r.error == Some(WrongType(TypeName(v.vtype)))
      case Missing =>
        if v.default == Null then r.status == Absent && r.value == Null && r.error.None?
        else if OfType(v.default, v.vtype) then r.status == Default && r.value == v.default && r.error.None?
        else r.status == Failed && r.value == Null && r.error == Some(WrongType(TypeName(v.vtype)))
      case Raised(_) => false
  {
    hide Tainted;
    assert TypeMatches(v.default, v.vtype) == OfType(v.default, v.vtype);
    ReadsWithoutError(v, w.context);
    hide ReadSource, TypeName;
  }

  lemma ReadsWithoutError(v: VariableDef, context: Json)
    requires !v.source.Computed?
    ensures !ReadSource(v, context).Raised?
  {
  }

  /** The error names the declared type. */
  lemma WrongTypeIsNamed(w: World, id: string)
    requires Known(w) && id in w.vars && w.vars[id].enabled && !w.vars[id].source.Computed?
    requires var read := ReadSource(w.vars[id], w.context); read.Got? && !OfType(read.value, w.vars[id].vtype)
    ensures Plain(w, id, {}).error == Some(WrongType(
      match w.vars[id].vtype
      case StringType => "string" case NumberType => "number" case BooleanType => "boolean"
      case ListType => "list" case NullType => "null" case JsonType => "json"))
  {
    PlainUnfolds(w, id, {});
    ReadingRecord(w, w.vars[id], PlainEnv(w, {} + {id}));
    hide Plain, Step, ReadSource;
  }

  /** What a variable reads from the page, the data layer, the event or the consent state is
      what the condition path of that name resolves to. */
  lemma ReadsAsConditionsDo(v: VariableDef, context: Json)
    requires context.Obj?
    ensures v.source.Namespace? && '.' !in v.source.name ==>
      ReadSource(v, context) == OrMissing(ResolvePath(context, v.source.name + "." + v.source.path))
    ensures v.source.Page? && '.' !in v.source.key && "page" in context.fields && context.fields["page"].Obj? ==>
      ReadSource(v, context) == OrMissing(ResolvePath(context, "page." + v.source.key))
  {
    if v.source.Namespace? && '.' !in v.source.name { NamespacePath(context, v.source.name, v.source.path); }
    if v.source.Page? && '.' !in v.source.key && "page" in context.fields && context.fields["page"].Obj? {
      FirstSegment(context, "page");
      FieldPath("page", context, v.source.key);
      assert "page" + "." + v.source.key == "page." + v.source.key;
    }
    hide ResolvePath;
  }

  lemma NamespacePath(context: Json, name: string, path: string)
    requires context.Obj? && '.' !in name
    ensures ResolvePath(context, name + "." + path) ==
      if name in context.fields then ResolvePath(context.fields[name], path) else None
  {
    Preview.SplitAt(name, path);
    hide Split;
    var parts := [name] + Split(path);
    assert parts[0] == name && parts[1..] == Split(path);
  }

  /** A static variable reads its own default, be it null. */
  lemma StaticReadsDefault(v: VariableDef, context: Json)
    requires v.source.Static?
    ensures ReadSource(v, context) == Got(v.default)
  {
  }

  /** The node that the context has for a selector, if there is one and it is not null. */
  function NodeAt(context: Json, selector: string): Option<Json> {
    if context.Obj? && "dom" in context.fields && context.fields["dom"].Obj? && selector in context.fields["dom"].fields
       && context.fields["dom"].fields[selector] != Null
    then Some(context.fields["dom"].fields[selector])
    else None
  }

  /** A selector alone reads the node's text: `text` if it has one, else `textContent`, else
      `innerText`; a node that is no object is read itself. */
  lemma DomTextReads(v: VariableDef, context: Json)
    requires v.source.DomText?
    ensures var node := NodeAt(context, v.source.selector);
      ReadSource(v, context) ==
        if node.None? then Missing
        else if !node.value.Obj? then Got(node.value)
        else
          var fields := node.value.fields;
          if "text" in fields then Got(fields["text"])
          else if "textContent" in fields then Got(fields["textContent"])
          else if "innerText" in fields then Got(fields["innerText"])
          else Missing
  {
    var node := NodeAt(context, v.source.selector);
    if node.Some? && node.value.Obj? { FirstTextField(node.value); }
    hide FirstField;
  }

  lemma FirstTextField(node: Json)
    requires node.Obj?
    ensures FirstField(node, TEXT_KEYS) ==
      if "text" in node.fields then Got(node.fields["text"])
      else if "textContent" in node.fields then Got(node.fields["textContent"])
      else if "innerText" in node.fields then Got(node.fields["innerText"])
      else Missing
  {
    assert TEXT_KEYS[1..] == ["textContent", "innerText"] && ["textContent", "innerText"][1..] == ["innerText"];
    assert ["innerText"][1..] == [];
    assert FirstField(node, []) == Missing;
    assert FirstField(node, ["innerText"]) == OrMissing(Field(node, "innerText"));
    assert TEXT_KEYS[0] == "text" && ["textContent", "innerText"][0] == "textContent";
    assert FirstField(node, TEXT_KEYS) ==
      if Field(node, "text").Some? then OrMissing(Field(node, "text"))
      else FirstField(node, ["textContent", "innerText"]);
  }

  /** With an attribute it reads that, one of the three texts from the node itself and any
      other among the node's attributes; `text` is the attribute if none is named. */
  lemma DomAttributeReads(v: VariableDef, context: Json)
    requires v.source.DomAttribute?
    ensures var node, name := NodeAt(context, v.source.selector), v.source.attribute;
      var attribute := if name.Some? then name.value else "text";
      ReadSource(v, context) ==
        if node.None? then Missing
        else if !node.value.Obj? then Got(node.value)
        else
          var fields := node.value.fields;
          if attribute in {"text", "textContent", "innerText"} then
            if attribute in fields then Got(fields[attribute]) else Missing
          else if "attributes" in fields && fields["attributes"].Obj? && attribute in fields["attributes"].fields then
            Got(fields["attributes"].fields[attribute])
          else Missing
  {
    assert TEXT_KEYS == ["text", "textContent", "innerText"];
  }

  /** A path's last segment. */
  lemma LastSegmentIs(path: string, key: string)
    requires '.' !in key && (path == key || exists before: string :: path == before + "." + key)
    ensures LastSegment(path) == key
  {
    if path != key {
      var before: string :| path == before + "." + key;
      SplitLast(before, key);
    }
  }

  /** Which variables are sensitive in themselves: those declared so, those that read a sensitive
      key from the data layer, the event or the consent state (the last segment of their path),
      and those that read a node or an attribute by a sensitive name. */
  lemma DirectlySensitiveIff(v: VariableDef, lib: Library, key: string)
    requires v.source.Namespace? ==>
      '.' !in key && (v.source.path == key || exists before: string :: v.source.path == before + "." + key)
    ensures DirectlySensitive(v, lib) <==>
      v.sensitive ||
      match v.source
      case Namespace(_, _) => lib.isSensitiveKey(key)
      case DomText(selector) => lib.isSensitiveKey(selector)
      case DomAttribute(_, Some(attribute)) => lib.isSensitiveKey(attribute)
      case DomAttribute(_, None) => false
      case Static => false
      case Page(_) => false
      case Computed(_) => false
  {
    if v.source.Namespace? { LastSegmentIs(v.source.path, key); }
  }

  /** A secret is never shown: the trace of a variable that is declared sensitive or reads a
      sensitive key has no value but the placeholder, and neither has that of any variable
      computed from it. */
  lemma SensitiveIsRedacted(w: World, id: string, r: Resolution, b: string)
    requires Known(w) && IsMeaning(w, id, r) && HasValue(r)
    requires b in w.vars && DirectlySensitive(w.vars[b], w.lib) && (b == id || Reaches(w, id, b))
    ensures Redaction.Trace(w, r).sensitive && Redaction.Trace(w, r).value == Str("[REDACTED]")
  {
    Redaction.NoValueIsNull(w, id, r);
    NoValueOtherwise(w, id);
    hide DirectlySensitive, Reaches, Plain, Acyclic, Redaction.ErrorText;
  }

  /** Nothing else is hidden: the trace of a record that is not flagged has its value. */
  lemma OthersAreShown(w: World, r: Resolution)
    requires !r.sensitive
    ensures Redaction.Trace(w, r).value == r.value && !Redaction.Trace(w, r).sensitive
  {
    hide Redaction.ErrorText;
  }

  /** The records of a variable that is switched off, and of one that does not exist. */
  lemma RecordOfOthers(w: World, id: string, r: Resolution)
    requires Known(w) && IsMeaning(w, id, r)
    ensures id in w.vars && !w.vars[id].enabled ==> r.status == Disabled && r.value == Null && r.error.None?
    ensures id !in w.vars ==> r.status == Failed && r.value == Null && r.error.Some? && !r.sensitive
  {
    hide Tainted, Acyclic, Step;
  }

  /** What an expression sees of a record: its value, or that there is none, or an error. */
  lemma ReferenceSees(r: Resolution, value: Json)
    ensures Reference(r) == Got(value) <==> HasValue(r) && r.value == value
    ensures Reference(r) == Missing <==> r.status == Absent
    ensures Reference(r).Raised? <==> r.status == Disabled || r.status == Failed
  {
  }
}
