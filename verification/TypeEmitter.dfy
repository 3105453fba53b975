/**
  From JSON Schema to TypeScript types (scripts/generate-client-types.ts): which values the two sides
  describe, and that the emitter keeps the meaning. A `$ref` may be followed any number of times, so
  both sides count the references they follow; a value belongs to a side when some count suffices.
 */
module TypeEmitter {
  import opened Options

  datatype Json =
    | JNull | JBool(b: bool) | JNum(n: real) | JStr(s: string)
    | JArr(elements: seq<Json>) | JObj(fields: map<string, Json>)

  /** The `type` keyword. */
  datatype TypeKey = NoType | One(name: string) | Many(names: seq<string>)

  datatype Property = Property(key: string, schema: Schema)

  /** A keyword whose value is a list of schemas, and `properties`. */
  datatype Schemas = NoSchemas | Schemas(list: seq<Schema>)
  datatype Properties = NoProperties | Properties(list: seq<Property>)

  datatype Additional = Unsaid | Allowed(b: bool) | Of(schema: Schema)

  /** The keywords that the emitter looks at; any other can only accept fewer values. */
  datatype Schema = Schema(
    ref: Option<string>,
    anyOf: Schemas,
    oneOf: Schemas,
    allOf: Schemas,
    constant: Option<Json>,
    enum: Option<seq<Json>>,
    openEnum: Option<seq<Json>>,  // x-extensible-enum
    typ: TypeKey,
    items: Option<Schema>,
    properties: Properties,
    required: seq<string>,
    additional: Additional)

  type Components = map<string, Schema>

  datatype TsField = TsField(key: string, optional: bool, typ: TsType)

  datatype TsType =
    | TRef(name: string)
    | TUnion(parts: seq<TsType>)
    | TLiteral(value: Json)
    | TString | TNumber | TBoolean | TNull | TUnknown | TNever
    | TOpenString               // string & Record<never, never>
    | TArray(element: TsType)
    | TRecord(element: TsType)  // Record<string, element>
    | TObject(fields: seq<TsField>)

  datatype Result<+T> = Ok(value: T) | Throws(message: string)

  const PREFIX := "#/components/schemas/"

  // ---- the emitter --------------------------------------------------------------------------

  function RefName(env: Components, ref: string): Result<string> {
    if !(PREFIX <= ref) then Throws("unsupported $ref")
    else if ref[|PREFIX|..] !in env then Throws("$ref points at an unknown schema")
    else Ok(ref[|PREFIX|..])
  }

  /** new Set(parts): the first of equal types stays. */
  function Dedup(parts: seq<TsType>): seq<TsType> {
    if parts == [] then []
    else
      var init, last := parts[..|parts| - 1], parts[|parts| - 1];
      if last in init then Dedup(init) else Dedup(init) + [last]
  }

  function Literals(values: seq<Json>): seq<TsType> {
    seq(|values|, i requires 0 <= i < |values| => TLiteral(values[i]))
  }

  function ToType(env: Components, s: Schema): Result<TsType>
    decreases s, 4, 0
  {
    ToTypeAs(env, s, s.typ)
  }

  /** toType of the schema with its `type` keyword replaced, as the type-array case calls it on the same schema. */
  function ToTypeAs(env: Components, s: Schema, typ: TypeKey): Result<TsType>
    decreases s, if typ.Many? then 3 else 1, 0
  {
    if s.ref.Some? then
      var name := RefName(env, s.ref.value);
      if name.Throws? then Throws(name.message) else Ok(TRef(name.value))
    else if s.anyOf.Schemas? then Union(ToTypes(env, s, s.anyOf.list))
    else if s.oneOf.Schemas? then Union(ToTypes(env, s, s.oneOf.list))
    else if s.constant.Some? then Ok(TLiteral(s.constant.value))
    else if s.enum.Some? then Ok(TUnion(Literals(s.enum.value)))
    else if s.openEnum.Some? then Ok(TUnion(Literals(s.openEnum.value) + [TOpenString]))
    else match typ
      case Many(names) => Union(TypesNamed(env, s, names))
      case One(name) =>
        if name == "string" then Ok(TString)
        else if name == "number" || name == "integer" then Ok(TNumber)
        else if name == "boolean" then Ok(TBoolean)
        else if name == "null" then Ok(TNull)
        else if name == "array" then
          if s.items.None? then Throws("array without items")
          else
            var inner := ToType(env, s.items.value);
            if inner.Throws? then inner else Ok(TArray(inner.value))
        else if name == "object" then
          if s.properties.NoProperties? || s.properties.list == [] then
            match s.additional
            case Of(element) =>
              var inner := ToType(env, element);
              if inner.Throws? then inner else Ok(TRecord(inner.value))
            case Allowed(b) => Ok(TRecord(if b then TUnknown else TNever))
            case Unsaid => Ok(TRecord(TUnknown))
          else
            var fields := Fields(env, s, s.properties.list);
            if fields.Throws? then Throws(fields.message) else Ok(TObject(fields.value))
        else Throws("unsupported schema")
      case NoType =>
        if s.allOf.NoSchemas? && s.properties.NoProperties? && s.items.None? && s.additional.Unsaid? then Ok(TUnknown)
        else Throws("unsupported schema")
  }

  function Union(parts: Result<seq<TsType>>): Result<TsType> {
    if parts.Throws? then Throws(parts.message) else Ok(TUnion(Dedup(parts.value)))
  }

  function ToTypes(env: Components, ghost parent: Schema, ss: seq<Schema>): Result<seq<TsType>>
    requires forall i :: 0 <= i < |ss| ==> ss[i] < parent
    decreases parent, 0, |ss|
  {
    if ss == [] then Ok([])
    else
      var init := ToTypes(env, parent, ss[..|ss| - 1]);
      if init.Throws? then init
      else
        var last := ToType(env, ss[|ss| - 1]);
        if last.Throws? then Throws(last.message) else Ok(init.value + [last.value])
  }

  function TypesNamed(env: Components, s: Schema, names: seq<string>): Result<seq<TsType>>
    decreases s, 2, |names|
  {
    if names == [] then Ok([])
    else
      var init := TypesNamed(env, s, names[..|names| - 1]);
      if init.Throws? then init
      else
        var last := ToTypeAs(env, s, One(names[|names| - 1]));
        if last.Throws? then Throws(last.message) else Ok(init.value + [last.value])
  }

  function Fields(env: Components, s: Schema, props: seq<Property>): Result<seq<TsField>>
    requires forall i :: 0 <= i < |props| ==> props[i].schema < s
    decreases s, 0, |props|
  {
    if props == [] then Ok([])
    else
      var init := Fields(env, s, props[..|props| - 1]);
      if init.Throws? then init
      else
        var p := props[|props| - 1];
        var last := ToType(env, p.schema);
        if last.Throws? then Throws(last.message)
        else Ok(init.value + [TsField(p.key, p.key !in s.required, last.value)])
  }

  /** The object branch: one pushed line per property. */
  method EmitFields(env: Components, s: Schema, props: seq<Property>) returns (r: Result<seq<TsField>>)
    requires forall i :: 0 <= i < |props| ==> props[i].schema < s
    ensures r == Fields(env, s, props)
  {
    var lines: seq<TsField> := [];
    for i := 0 to |props|
      invariant Fields(env, s, props[..i]) == Ok(lines)
    {
      assert props[..i + 1][..i] == props[..i];
      var t := ToType(env, props[i].schema);
      if t.Throws? {
        FirstThrow(env, s, props, i + 1);
        return Throws(t.message);
      }
      lines := lines + [TsField(props[i].key, props[i].key !in s.required, t.value)];
    }
    assert props[..|props|] == props;
    return Ok(lines);
  }

  lemma {:induction false} FirstThrow(env: Components, s: Schema, props: seq<Property>, n: nat)
    requires n <= |props| && forall i :: 0 <= i < |props| ==> props[i].schema < s
    requires Fields(env, s, props[..n]).Throws?
    ensures Fields(env, s, props) == Fields(env, s, props[..n])
  {
    if n < |props| {
      var init := props[..|props| - 1];
      assert init[..n] == props[..n];
      FirstThrow(env, s, init, n);
    } else {
      assert props[..n] == props;
    }
  }

  // ---- what the two sides mean ------------------------------------------------------------------

  /**
    How the keywords are read: strictly, as the standards say, or loosely, as far as a TypeScript type
    can say them. Loosely, one keyword decides and those beside it are left out, "integer" is any
    number, an object, a literal one too, may have more properties than are named, and only a property
    that is named is required.
   */
  datatype Reading = Strict | Loose

  datatype Keyword = RefWord | AnyOfWord | OneOfWord | ConstWord | EnumWord | OpenEnumWord | TypeWord

  /** The keyword that decides, in the order in which a loose reader looks for one. */
  function Decider(s: Schema): Keyword {
    if s.ref.Some? then RefWord
    else if s.anyOf.Schemas? then AnyOfWord
    else if s.oneOf.Schemas? then OneOfWord
    else if s.constant.Some? then ConstWord
    else if s.enum.Some? then EnumWord
    else if s.openEnum.Some? then OpenEnumWord
    else TypeWord
  }

  predicate Counts(rd: Reading, s: Schema, word: Keyword) {
    rd == Strict || Decider(s) == word
  }

  predicate IsTypeName(name: string) {
    name in ["string", "number", "integer", "boolean", "null", "array", "object"]
  }

  /** Section 6.1.1 of JSON Schema Validation 2020-12. */
  predicate HasType(rd: Reading, name: string, v: Json) {
    match v
    case JNull => name == "null"
    case JBool(_) => name == "boolean"
    case JNum(n) => name == "number" || (name == "integer" && (rd == Loose || n.Floor as real == n))
    case JStr(_) => name == "string"
    case JArr(_) => name == "array"
    case JObj(_) => name == "object"
  }

  predicate TypeAccepts(rd: Reading, typ: TypeKey, v: Json) {
    match typ
    case NoType => true
    case One(name) => HasType(rd, name, v)
    case Many(names) => exists i :: 0 <= i < |names| && HasType(rd, names[i], v)
  }

  /** All keywords together (sections 10.2 and 10.3 of JSON Schema Core 2020-12); oneOf read as at least one. */
  ghost predicate Accepts(rd: Reading, env: Components, n: nat, s: Schema, v: Json)
    decreases n, s, 2
  {
    AcceptsAs(rd, env, n, s, s.typ, v)
  }

  ghost predicate AcceptsAs(rd: Reading, env: Components, n: nat, s: Schema, typ: TypeKey, v: Json)
    decreases n, s, 1
  {
    && (s.ref.Some? && Counts(rd, s, RefWord) ==>
          && RefName(env, s.ref.value).Ok? && n > 0
          && Accepts(rd, env, n - 1, env[RefName(env, s.ref.value).value], v))
    && (s.anyOf.Schemas? && Counts(rd, s, AnyOfWord) ==>
          exists i :: 0 <= i < |s.anyOf.list| && Accepts(rd, env, n, s.anyOf.list[i], v))
    && (s.oneOf.Schemas? && Counts(rd, s, OneOfWord) ==>
          exists i :: 0 <= i < |s.oneOf.list| && Accepts(rd, env, n, s.oneOf.list[i], v))
    && (s.allOf.Schemas? && rd == Strict ==>
          forall i :: 0 <= i < |s.allOf.list| ==> Accepts(rd, env, n, s.allOf.list[i], v))
    && (s.constant.Some? && Counts(rd, s, ConstWord) ==> IsLiteral(rd, s.constant.value, v))
    && (s.enum.Some? && Counts(rd, s, EnumWord) ==>
        exists i :: 0 <= i < |s.enum.value| && IsLiteral(rd, s.enum.value[i], v))
    && (Counts(rd, s, TypeWord) || Counts(rd, s, OpenEnumWord) ==> TypeAccepts(rd, typ, v))
    && (v.JArr? && Counts(rd, s, TypeWord) ==> AcceptsElements(rd, env, n, s, v))
    && (v.JObj? && Counts(rd, s, TypeWord) ==> AcceptsMembers(rd, env, n, s, v))
  }

  ghost predicate AcceptsElements(rd: Reading, env: Components, n: nat, s: Schema, v: Json)
    requires v.JArr?
    decreases n, s, 0
  {
    s.items.Some? ==> forall i :: 0 <= i < |v.elements| ==> Accepts(rd, env, n, s.items.value, v.elements[i])
  }

  predicate IsProperty(s: Schema, key: string) {
    s.properties.Properties? && exists i :: 0 <= i < |s.properties.list| && s.properties.list[i].key == key
  }

  predicate NamesProperties(s: Schema) {
    s.properties.Properties? && s.properties.list != []
  }

  ghost predicate AcceptsMembers(rd: Reading, env: Components, n: nat, s: Schema, v: Json)
    requires v.JObj?
    decreases n, s, 0
  {
    && (s.properties.Properties? ==>
          forall i :: 0 <= i < |s.properties.list| && s.properties.list[i].key in v.fields ==>
            Accepts(rd, env, n, s.properties.list[i].schema, v.fields[s.properties.list[i].key]))
    && (forall i :: 0 <= i < |s.required| && (rd == Loose ==> IsProperty(s, s.required[i])) ==>
          s.required[i] in v.fields)
    && (match s.additional
        case Unsaid => true
        case Allowed(b) =>
          b || (rd == Loose && NamesProperties(s)) || forall k :: k in v.fields ==> IsProperty(s, k)
        case Of(element) =>
          || (rd == Loose && NamesProperties(s))
          || forall k :: k in v.fields && !IsProperty(s, k) ==> Accepts(rd, env, n, element, v.fields[k]))
  }

  /**
    The values of a literal, which the emitter prints as JSON and TypeScript reads as a type: an object
    becomes an open object type, the empty one everything but null, an array a tuple type.
   */
  predicate Fits(literal: Json, v: Json)
    decreases literal
  {
    match literal
    case JObj(fields) =>
      if fields == map[] then v != JNull
      else v.JObj? && forall k :: k in fields ==> k in v.fields && Fits(fields[k], v.fields[k])
    case JArr(elements) =>
      v.JArr? && |v.elements| == |elements| && forall i :: 0 <= i < |elements| ==> Fits(elements[i], v.elements[i])
    case _ => v == literal
  }

  predicate IsLiteral(rd: Reading, literal: Json, v: Json) {
    if rd == Strict then v == literal else Fits(literal, v)
  }

  /** Literals without an object, which have one value only. */
  predicate IsClosed(literal: Json) {
    match literal
    case JObj(_) => false
    case JArr(elements) => forall i :: 0 <= i < |elements| ==> IsClosed(elements[i])
    case _ => true
  }

  /** The values of a TypeScript type, among JSON values; an object type is open. */
  ghost predicate Member(types: map<string, TsType>, n: nat, t: TsType, v: Json)
    decreases n, t
  {
    match t
    case TRef(name) => n > 0 && name in types && Member(types, n - 1, types[name], v)
    case TUnion(parts) => exists i :: 0 <= i < |parts| && Member(types, n, parts[i], v)
    case TLiteral(value) => Fits(value, v)
    case TString => v.JStr?
    case TOpenString => v.JStr?
    case TNumber => v.JNum?
    case TBoolean => v.JBool?
    case TNull => v.JNull?
    case TUnknown => true
    case TNever => false
    case TArray(element) => v.JArr? && forall i :: 0 <= i < |v.elements| ==> Member(types, n, element, v.elements[i])
    case TRecord(element) => v.JObj? && forall k :: k in v.fields ==> Member(types, n, element, v.fields[k])
    case TObject(fields) =>
      v.JObj? && forall i :: 0 <= i < |fields| ==>
        if fields[i].key in v.fields then Member(types, n, fields[i].typ, v.fields[fields[i].key])
        else fields[i].optional
  }

  /** The emitted file: one exported type per component. */
  function Exported(env: Components): map<string, TsType>
    requires Emits(env)
  {
    map name | name in env :: ToType(env, env[name]).value
  }

  predicate Emits(env: Components) {
    forall name :: name in env ==> ToType(env, env[name]).Ok?
  }

  // ---- lists of types -------------------------------------------------------------------------

  lemma {:induction false} DedupKeeps(parts: seq<TsType>, t: TsType)
    ensures t in Dedup(parts) <==> t in parts
  {
    if parts != [] {
      var init, last := parts[..|parts| - 1], parts[|parts| - 1];
      assert parts == init + [last];
      DedupKeeps(init, t);
      DedupKeeps(init, last);
    }
  }

  /** A union of the distinct parts has the members of all parts. */
  lemma UnionMember(types: map<string, TsType>, n: nat, parts: seq<TsType>, v: Json)
    ensures Member(types, n, TUnion(Dedup(parts)), v) <==> exists i :: 0 <= i < |parts| && Member(types, n, parts[i], v)
  {
    var u := TUnion(Dedup(parts));
    if Member(types, n, u, v) {
      var i :| 0 <= i < |u.parts| && Member(types, n, u.parts[i], v);
      DedupKeeps(parts, u.parts[i]);
      assert u.parts[i] in parts;
    }
    if i :| 0 <= i < |parts| && Member(types, n, parts[i], v) {
      DedupKeeps(parts, parts[i]);
      var j :| 0 <= j < |u.parts| && u.parts[j] == parts[i];
    }
  }

  lemma {:induction false} TypesAt(env: Components, parent: Schema, ss: seq<Schema>, i: nat)
    requires forall k :: 0 <= k < |ss| ==> ss[k] < parent
    requires ToTypes(env, parent, ss).Ok? && i < |ss|
    ensures |ToTypes(env, parent, ss).value| == |ss|
    ensures ToType(env, ss[i]) == Ok(ToTypes(env, parent, ss).value[i])
  {
    hide ToType;
    var init := ss[..|ss| - 1];
    if i < |ss| - 1 {
      TypesAt(env, parent, init, i);
    } else if init != [] {
      TypesAt(env, parent, init, 0);
    }
  }

  lemma {:induction false} NamedAt(env: Components, s: Schema, names: seq<string>, i: nat)
    requires TypesNamed(env, s, names).Ok? && i < |names|
    ensures |TypesNamed(env, s, names).value| == |names|
    ensures ToTypeAs(env, s, One(names[i])) == Ok(TypesNamed(env, s, names).value[i])
  {
    hide ToTypeAs;
    var init := names[..|names| - 1];
    if i < |names| - 1 {
      NamedAt(env, s, init, i);
    } else if init != [] {
      NamedAt(env, s, init, 0);
    }
  }

  lemma {:induction false} FieldsAt(env: Components, s: Schema, props: seq<Property>, i: nat)
    requires forall k :: 0 <= k < |props| ==> props[k].schema < s
    requires Fields(env, s, props).Ok? && i < |props|
    ensures |Fields(env, s, props).value| == |props|
    ensures ToType(env, props[i].schema).Ok?
    ensures Fields(env, s, props).value[i]
              == TsField(props[i].key, props[i].key !in s.required, ToType(env, props[i].schema).value)
  {
    hide ToType;
    var init := props[..|props| - 1];
    if i < |props| - 1 {
      FieldsAt(env, s, init, i);
    } else if init != [] {
      FieldsAt(env, s, init, 0);
    }
  }

  // ---- literals -----------------------------------------------------------------------------

  lemma {:induction false} FitsItself(v: Json)
    ensures Fits(v, v)
    decreases v
  {
    match v
    case JObj(fields) => forall k | k in fields ensures Fits(fields[k], fields[k]) { FitsItself(fields[k]); }
    case JArr(elements) =>
        forall i | 0 <= i < |elements| ensures Fits(elements[i], elements[i]) { FitsItself(elements[i]); }
    case _ =>
  }

  lemma {:induction false} ClosedFitsOnlyItself(literal: Json, v: Json)
    requires IsClosed(literal) && Fits(literal, v)
    ensures v == literal
    decreases literal
  {
    if literal.JArr? {
      forall i | 0 <= i < |literal.elements| ensures v.elements[i] == literal.elements[i] {
        ClosedFitsOnlyItself(literal.elements[i], v.elements[i]);
      }
      assert v.elements == literal.elements;
    }
  }

  // ---- sound: no accepted value is outside the emitted type ----------------------------------------

  const EMPTY_OBJECT := JObj(map[])

  /**
    A type name all of whose values are strings or fit a listed literal. Of the listed literals, only
    `{}` has all values of a type that has infinitely many: it has everything but null.
   */
  predicate NameIsOpen(name: string, listed: seq<Json>) {
    || name == "string"
    || !IsTypeName(name)
    || (name == "null" && JNull in listed)
    || (name == "boolean" && JBool(true) in listed && JBool(false) in listed)
    || (name != "null" && EMPTY_OBJECT in listed)
  }

  predicate TypeIsOpen(typ: TypeKey, listed: seq<Json>) {
    match typ
    case NoType => JNull in listed && EMPTY_OBJECT in listed
    case One(name) => NameIsOpen(name, listed)
    case Many(names) => forall i :: 0 <= i < |names| ==> NameIsOpen(names[i], listed)
  }

  /** Wherever the emitter writes an open set, the schema's own `type` says that it is one of strings. */
  ghost predicate OpenSetsAreStrings(s: Schema)
    decreases s
  {
    if s.ref.Some? then true
    else if s.anyOf.Schemas? then forall i :: 0 <= i < |s.anyOf.list| ==> OpenSetsAreStrings(s.anyOf.list[i])
    else if s.oneOf.Schemas? then forall i :: 0 <= i < |s.oneOf.list| ==> OpenSetsAreStrings(s.oneOf.list[i])
    else if s.constant.Some? || s.enum.Some? then true
    else if s.openEnum.Some? then TypeIsOpen(s.typ, s.openEnum.value)
    else
      && (s.items.Some? ==> OpenSetsAreStrings(s.items.value))
      && (s.properties.Properties? ==> forall i :: 0 <= i < |s.properties.list| ==>
          OpenSetsAreStrings(s.properties.list[i].schema))
      && (s.additional.Of? ==> OpenSetsAreStrings(s.additional.schema))
  }

  ghost predicate GoodComponents(env: Components) {
    Emits(env) && forall name :: name in env ==> OpenSetsAreStrings(env[name])
  }

  predicate IsTypeOf(typ: TypeKey, s: Schema) {
    typ == s.typ || (s.openEnum.None? && !typ.Many?)
  }

  lemma LiteralMember(types: map<string, TsType>, n: nat, values: seq<Json>, more: seq<TsType>, v: Json)
    requires v in values
    ensures Member(types, n, TUnion(Literals(values) + more), v)
  {
    LiteralFits(types, n, values, more, v, v);
    FitsItself(v);
  }

  lemma LiteralFits(types: map<string, TsType>, n: nat, values: seq<Json>, more: seq<TsType>, literal: Json, v: Json)
    requires literal in values
    ensures Fits(literal, v) ==> Member(types, n, TUnion(Literals(values) + more), v)
  {
    var i :| 0 <= i < |values| && values[i] == literal;
    assert (Literals(values) + more)[i] == TLiteral(literal);
  }

  lemma OpenSetSound(rd: Reading, env: Components, n: nat, s: Schema, v: Json)
    requires Emits(env) && s.openEnum.Some? && TypeIsOpen(s.typ, s.openEnum.value) && TypeAccepts(rd, s.typ, v)
    ensures Member(Exported(env), n, TUnion(Literals(s.openEnum.value) + [TOpenString]), v)
  {
    hide Member;
    var listed := s.openEnum.value;
    if v.JStr? {
      OpenStringIsMember(Exported(env), n, Literals(listed), v);
    } else if v in listed {
      LiteralMember(Exported(env), n, listed, [TOpenString], v);
    } else {
      assert EMPTY_OBJECT in listed && v != JNull;
      LiteralFits(Exported(env), n, listed, [TOpenString], EMPTY_OBJECT, v);
    }
  }

  lemma OpenStringIsMember(types: map<string, TsType>, n: nat, parts: seq<TsType>, v: Json)
    requires v.JStr?
    ensures Member(types, n, TUnion(parts + [TOpenString]), v)
  {
    assert (parts + [TOpenString])[|parts|] == TOpenString;
  }

  lemma {:induction false} Sound(rd: Reading, env: Components, n: nat, s: Schema, typ: TypeKey, v: Json)
    requires GoodComponents(env) && OpenSetsAreStrings(s) && IsTypeOf(typ, s)
    requires ToTypeAs(env, s, typ).Ok? && AcceptsAs(rd, env, n, s, typ, v)
    ensures Member(Exported(env), n, ToTypeAs(env, s, typ).value, v)
    decreases n, s, if typ.Many? then 5 else 3
  {
    hide Dedup, TypeAccepts, TypeIsOpen, AcceptsElements, AcceptsMembers, Member, Literals;
    var types := Exported(env);
    if s.ref.Some? {
      var name := RefName(env, s.ref.value).value;
      Sound(rd, env, n - 1, env[name], env[name].typ, v);
      RefMember(types, n, name, v);
    } else if s.anyOf.Schemas? {
      SoundUnion(rd, env, n, s, s.anyOf.list, v);
    } else if s.oneOf.Schemas? {
      SoundUnion(rd, env, n, s, s.oneOf.list, v);
    } else if s.constant.Some? {
      LiteralIsMember(types, n, s.constant.value, v);
      FitsItself(v);
    } else if s.enum.Some? {
      EnumSound(rd, types, n, s.enum.value, v);
    } else if s.openEnum.Some? {
      OpenSetSound(rd, env, n, s, v);
    } else {
      match typ
      case NoType => UnknownHasAll(types, n, v);
      case Many(names) => SoundNamed(rd, env, n, s, names, v);
      case One(name) => SoundOne(rd, env, n, s, name, v);
    }
  }

  lemma RefMember(types: map<string, TsType>, n: nat, name: string, v: Json)
    ensures Member(types, n, TRef(name), v) <==> n > 0 && name in types && Member(types, n - 1, types[name], v)
  {}

  lemma LiteralIsMember(types: map<string, TsType>, n: nat, literal: Json, v: Json)
    ensures Member(types, n, TLiteral(literal), v) <==> Fits(literal, v)
  {}

  lemma EnumSound(rd: Reading, types: map<string, TsType>, n: nat, values: seq<Json>, v: Json)
    requires exists i :: 0 <= i < |values| && IsLiteral(rd, values[i], v)
    ensures Member(types, n, TUnion(Literals(values)), v)
  {
    var i :| 0 <= i < |values| && IsLiteral(rd, values[i], v);
    FitsItself(v);
    LiteralFits(types, n, values, [], values[i], v);
    assert Literals(values) + [] == Literals(values);
  }

  lemma UnknownHasAll(types: map<string, TsType>, n: nat, v: Json)
    ensures Member(types, n, TUnknown, v)
  {}

  lemma {:induction false} SoundUnion(rd: Reading, env: Components, n: nat, s: Schema, ss: seq<Schema>, v: Json)
    requires GoodComponents(env) && forall i :: 0 <= i < |ss| ==> ss[i] < s && OpenSetsAreStrings(ss[i])
    requires ToTypes(env, s, ss).Ok? && exists i :: 0 <= i < |ss| && Accepts(rd, env, n, ss[i], v)
    ensures Member(Exported(env), n, Union(ToTypes(env, s, ss)).value, v)
    decreases n, s, 2
  {
    hide AcceptsAs, ToTypeAs, ToTypes, Member, OpenSetsAreStrings, Dedup;
    var i :| 0 <= i < |ss| && Accepts(rd, env, n, ss[i], v);
    TypesAt(env, s, ss, i);
    Sound(rd, env, n, ss[i], ss[i].typ, v);
    UnionMember(Exported(env), n, ToTypes(env, s, ss).value, v);
  }

  lemma {:induction false} SoundNamed(rd: Reading, env: Components, n: nat, s: Schema, names: seq<string>, v: Json)
    requires GoodComponents(env) && OpenSetsAreStrings(s) && Decider(s) == TypeWord
    requires TypesNamed(env, s, names).Ok? && AcceptsAs(rd, env, n, s, Many(names), v)
    ensures Member(Exported(env), n, Union(TypesNamed(env, s, names)).value, v)
    decreases n, s, 4
  {
    hide ToTypeAs, TypesNamed, Member, OpenSetsAreStrings, Dedup, AcceptsElements, AcceptsMembers;
    var i :| 0 <= i < |names| && HasType(rd, names[i], v);
    NamedAt(env, s, names, i);
    Sound(rd, env, n, s, One(names[i]), v);
    UnionMember(Exported(env), n, TypesNamed(env, s, names).value, v);
  }

  lemma {:induction false} SoundOne(rd: Reading, env: Components, n: nat, s: Schema, name: string, v: Json)
    requires GoodComponents(env) && OpenSetsAreStrings(s)
    requires s.ref.None? && s.anyOf.NoSchemas? && s.oneOf.NoSchemas? && s.constant.None? && s.enum.None?
    requires s.openEnum.None?
    requires ToTypeAs(env, s, One(name)).Ok? && AcceptsAs(rd, env, n, s, One(name), v)
    ensures Member(Exported(env), n, ToTypeAs(env, s, One(name)).value, v)
    decreases n, s, 2
  {
    hide Dedup, Accepts, AcceptsElements, AcceptsMembers, Fields, ToType, Exported, Emits;
    assert HasType(rd, name, v);
    if name == "array" {
      SoundArray(rd, env, n, s, v);
    } else if name == "object" {
      if s.properties.NoProperties? || s.properties.list == [] {
        SoundRecord(rd, env, n, s, v);
      } else {
        SoundObject(rd, env, n, s, v);
      }
    }
  }

  lemma {:induction false} SoundArray(rd: Reading, env: Components, n: nat, s: Schema, v: Json)
    requires GoodComponents(env) && v.JArr? && s.items.Some? && OpenSetsAreStrings(s.items.value)
    requires ToType(env, s.items.value).Ok? && AcceptsElements(rd, env, n, s, v)
    ensures Member(Exported(env), n, TArray(ToType(env, s.items.value).value), v)
    decreases n, s, 1
  {
    hide Accepts, ToType, OpenSetsAreStrings, Exported, Emits;
    var element := ToType(env, s.items.value).value;
    forall i | 0 <= i < |v.elements| ensures Member(Exported(env), n, element, v.elements[i]) {
      SoundIn(rd, env, n, s, s.items.value, v.elements[i]);
    }
  }

  lemma {:induction false} SoundRecord(rd: Reading, env: Components, n: nat, s: Schema, v: Json)
    requires GoodComponents(env) && v.JObj? && (s.properties.NoProperties? || s.properties.list == [])
    requires AcceptsMembers(rd, env, n, s, v)
    requires s.additional.Of? ==> ToType(env, s.additional.schema).Ok? && OpenSetsAreStrings(s.additional.schema)
    ensures s.additional.Of? ==> Member(Exported(env), n, TRecord(ToType(env, s.additional.schema).value), v)
    ensures s.additional.Allowed? && !s.additional.b ==> Member(Exported(env), n, TRecord(TNever), v)
    ensures Member(Exported(env), n, TRecord(TUnknown), v)
    decreases n, s, 1
  {
    hide Accepts, ToType, OpenSetsAreStrings, Exported, Emits;
    if s.additional.Of? {
      forall k | k in v.fields ensures Member(Exported(env), n, ToType(env, s.additional.schema).value, v.fields[k]) {
        SoundIn(rd, env, n, s, s.additional.schema, v.fields[k]);
      }
    }
  }

  lemma {:induction false} SoundIn(rd: Reading, env: Components, n: nat, s: Schema, sub: Schema, v: Json)
    requires GoodComponents(env) && sub < s && OpenSetsAreStrings(sub)
    requires ToType(env, sub).Ok? && Accepts(rd, env, n, sub, v)
    ensures Member(Exported(env), n, ToType(env, sub).value, v)
    decreases n, s, 0
  {
    hide AcceptsAs, ToTypeAs, Member, OpenSetsAreStrings;
    Sound(rd, env, n, sub, sub.typ, v);
  }

  lemma PropertyAt(s: Schema, i: nat)
    requires s.properties.Properties? && i < |s.properties.list|
    ensures IsProperty(s, s.properties.list[i].key)
  {}

  lemma {:induction false} SoundObject(rd: Reading, env: Components, n: nat, s: Schema, v: Json)
    requires GoodComponents(env) && s.properties.Properties? && s.properties.list != [] && v.JObj?
    requires forall i :: 0 <= i < |s.properties.list| ==> OpenSetsAreStrings(s.properties.list[i].schema)
    requires Fields(env, s, s.properties.list).Ok? && AcceptsMembers(rd, env, n, s, v)
    ensures Member(Exported(env), n, TObject(Fields(env, s, s.properties.list).value), v)
    decreases n, s, 1
  {
    hide Accepts, ToType, Fields, OpenSetsAreStrings, IsProperty, Exported, Emits;
    var types, props, fields := Exported(env), s.properties.list, Fields(env, s, s.properties.list).value;
    FieldsAt(env, s, props, 0);
    forall i | 0 <= i < |fields|
      ensures if fields[i].key in v.fields then Member(types, n, fields[i].typ, v.fields[fields[i].key])
              else fields[i].optional
    {
      FieldsAt(env, s, props, i);
      if fields[i].key in v.fields {
        assert Accepts(rd, env, n, props[i].schema, v.fields[props[i].key]);
        SoundIn(rd, env, n, s, props[i].schema, v.fields[props[i].key]);
      } else if props[i].key in s.required {
        var k :| 0 <= k < |s.required| && s.required[k] == props[i].key;
        PropertyAt(s, i);
        assert false;
      }
    }
  }

  /**
    The emitter is sound: a value that a component's schema accepts, through any references, belongs
    to the component's exported type.
   */
  lemma EmittedTypeIsSound(rd: Reading, env: Components, n: nat, s: Schema, v: Json)
    requires GoodComponents(env) && OpenSetsAreStrings(s) && ToType(env, s).Ok? && Accepts(rd, env, n, s, v)
    ensures Member(Exported(env), n, ToType(env, s).value, v)
  {
    Sound(rd, env, n, s, s.typ, v);
  }

  // ---- exactly when an open set is sound ---------------------------------------------------------

  const BLANK := Schema(None, NoSchemas, NoSchemas, NoSchemas, None, None, None, NoType, None, NoProperties, [], Unsaid)

  /** A number read off a value, and the value of each type it can be read off again. */
  function Mark(v: Json): int {
    match v
    case JNum(n) => n.Floor
    case JArr(elements) => |elements|
    case _ => 0
  }

  function Above(values: seq<Json>): (r: nat)
    ensures forall i :: 0 <= i < |values| ==> Mark(values[i]) < r
  {
    if values == [] then 0
    else
      var r, last := Above(values[..|values| - 1]), Mark(values[|values| - 1]);
      if last < r then r else last + 1
  }

  predicate FitsNone(listed: seq<Json>, v: Json) {
    forall i :: 0 <= i < |listed| ==> !Fits(listed[i], v)
  }

  /** For a name that is not open, a value of that type which is neither a string nor fits a listed literal. */
  function Stranger(rd: Reading, name: string, listed: seq<Json>): (v: Json)
    requires !NameIsOpen(name, listed)
    ensures HasType(rd, name, v) && !v.JStr? && FitsNone(listed, v)
  {
    if name == "null" then JNull
    else if name == "boolean" then (if JBool(true) in listed then JBool(false) else JBool(true))
    else if name == "object" then EMPTY_OBJECT
    else
      var mark := Above(listed);
      var v := if name == "array" then JArr(seq(mark, i => JNull)) else JNum(mark as real);
      assert Mark(v) == mark;
      v
  }

  lemma OpenSetOnlyHas(types: map<string, TsType>, n: nat, listed: seq<Json>, v: Json)
    requires Member(types, n, TUnion(Literals(listed) + [TOpenString]), v)
    ensures v.JStr? || !FitsNone(listed, v)
  {
    hide Fits;
    var parts := Literals(listed) + [TOpenString];
    var i :| 0 <= i < |parts| && Member(types, n, parts[i], v);
    if i < |listed| { assert parts[i] == TLiteral(listed[i]); }
  }

  function OpenSet(typ: TypeKey, listed: seq<Json>): Schema {
    BLANK.(openEnum := Some(listed), typ := typ)
  }

  lemma OpenSetMeans(rd: Reading, env: Components, n: nat, typ: TypeKey, listed: seq<Json>, v: Json)
    ensures Accepts(rd, env, n, OpenSet(typ, listed), v) <==> TypeAccepts(rd, typ, v)
    ensures ToType(env, OpenSet(typ, listed)) == Ok(TUnion(Literals(listed) + [TOpenString]))
  {
    var s := OpenSet(typ, listed);
    assert AcceptsAs(rd, env, n, s, typ, v) <==> TypeAccepts(rd, typ, v);
    assert ToTypeAs(env, s, typ) == Ok(TUnion(Literals(listed) + [TOpenString]));
  }

  /**
    The emitter assumes that an open set holds strings. For a schema with nothing but a type and an
    open set, the emitted type is sound if and only if every value the type allows is a string or fits
    a listed literal, name by name.
   */
  lemma OpenSetSoundIff(rd: Reading, env: Components, n: nat, typ: TypeKey, listed: seq<Json>)
    requires Emits(env)
    ensures var s := OpenSet(typ, listed);
            && ToType(env, s).Ok?
            && (TypeIsOpen(typ, listed)
                <==> forall v :: Accepts(rd, env, n, s, v) ==> Member(Exported(env), n, ToType(env, s).value, v))
  {
    hide Accepts, Member, NameIsOpen, HasType, ToType, Exported, OpenSet;
    var s := OpenSet(typ, listed);
    forall v
      ensures Accepts(rd, env, n, s, v) <==> TypeAccepts(rd, typ, v)
      ensures ToType(env, s) == Ok(TUnion(Literals(listed) + [TOpenString]))
    {
      OpenSetMeans(rd, env, n, typ, listed, v);
    }
    OpenSetMeans(rd, env, n, typ, listed, JNull);
    if TypeIsOpen(typ, listed) {
      forall v | Accepts(rd, env, n, s, v) ensures Member(Exported(env), n, ToType(env, s).value, v) {
        OpenSetAccepted(rd, env, n, typ, listed, v);
      }
    } else {
      var v := TypeStranger(rd, typ, listed);
      assert Accepts(rd, env, n, s, v) by { OpenSetMeans(rd, env, n, typ, listed, v); }
      assert !Member(Exported(env), n, ToType(env, s).value, v) by {
        if Member(Exported(env), n, ToType(env, s).value, v) { OpenSetOnlyHas(Exported(env), n, listed, v); }
      }
    }
  }

  lemma OpenSetAccepted(rd: Reading, env: Components, n: nat, typ: TypeKey, listed: seq<Json>, v: Json)
    requires Emits(env) && TypeIsOpen(typ, listed) && TypeAccepts(rd, typ, v)
    ensures Member(Exported(env), n, TUnion(Literals(listed) + [TOpenString]), v)
  {
    hide Member;
    OpenSetSound(rd, env, n, OpenSet(typ, listed), v);
  }

  lemma TypeStranger(rd: Reading, typ: TypeKey, listed: seq<Json>) returns (v: Json)
    requires !TypeIsOpen(typ, listed)
    ensures TypeAccepts(rd, typ, v) && !v.JStr? && FitsNone(listed, v)
  {
    match typ
    case NoType => v := Stranger(rd, if JNull in listed then "number" else "null", listed);
    case One(name) => v := Stranger(rd, name, listed);
    case Many(names) =>
      var i :| 0 <= i < |names| && !NameIsOpen(names[i], listed);
      v := Stranger(rd, names[i], listed);
  }

  /** A number under an open set of two strings: accepted, and not in the emitted type. */
  lemma OpenSetWithoutTypeIsUnsound(rd: Reading, n: nat)
    ensures var s := OpenSet(NoType, [JStr("CARD"), JStr("CASH")]);
            && Accepts(rd, map[], n, s, JNum(5.0))
            && ToType(map[], s).Ok? && !Member(map[], n, ToType(map[], s).value, JNum(5.0))
  {
    hide Accepts, Member, ToType, OpenSet;
    var listed := [JStr("CARD"), JStr("CASH")];
    OpenSetMeans(rd, map[], n, NoType, listed, JNum(5.0));
    var t := ToType(map[], OpenSet(NoType, listed)).value;
    if Member(map[], n, t, JNum(5.0)) { OpenSetOnlyHas(map[], n, listed, JNum(5.0)); }
  }

  // ---- exact: nothing wider than the schema, where TypeScript can say as much ------------------------

  /** The schemas that a TypeScript type says exactly, read loosely: those whose open sets are of listed strings. */
  ghost predicate PreciseAs(s: Schema, typ: TypeKey)
    decreases s
  {
    match Decider(s)
    case RefWord => true
    case AnyOfWord => forall i :: 0 <= i < |s.anyOf.list| ==> PreciseAs(s.anyOf.list[i], s.anyOf.list[i].typ)
    case OneOfWord => forall i :: 0 <= i < |s.oneOf.list| ==> PreciseAs(s.oneOf.list[i], s.oneOf.list[i].typ)
    case ConstWord => true
    case EnumWord => true
    case OpenEnumWord =>
      typ == s.typ == One("string") && forall i :: 0 <= i < |s.openEnum.value| ==> s.openEnum.value[i].JStr?
    case TypeWord =>
      && (s.items.Some? ==> PreciseAs(s.items.value, s.items.value.typ))
      && (s.properties.Properties? ==>
            forall i :: 0 <= i < |s.properties.list| ==>
              PreciseAs(s.properties.list[i].schema, s.properties.list[i].schema.typ))
      && (s.additional.Of? ==> PreciseAs(s.additional.schema, s.additional.schema.typ))
  }

  ghost predicate PreciseComponents(env: Components) {
    Emits(env) && forall name :: name in env ==> PreciseAs(env[name], env[name].typ)
  }

  lemma LiteralOnly(types: map<string, TsType>, n: nat, values: seq<Json>, v: Json)
    requires Member(types, n, TUnion(Literals(values)), v)
    ensures exists i :: 0 <= i < |values| && IsLiteral(Loose, values[i], v)
  {
    var i :| 0 <= i < |values| && Member(types, n, Literals(values)[i], v);
    assert IsLiteral(Loose, values[i], v);
  }

  lemma {:induction false} Exact(env: Components, n: nat, s: Schema, typ: TypeKey, v: Json)
    requires PreciseComponents(env) && PreciseAs(s, typ)
    requires ToTypeAs(env, s, typ).Ok? && Member(Exported(env), n, ToTypeAs(env, s, typ).value, v)
    ensures AcceptsAs(Loose, env, n, s, typ, v)
    decreases n, s, if typ.Many? then 5 else 3
  {
    hide Dedup, Literals, Member, Exported, Emits, Accepts, AcceptsAs, Fits;
    var types := Exported(env);
    DecidedBy(env, n, s, typ, v);
    if s.ref.Some? {
      ExactRef(env, n, s, typ, v);
    } else if s.anyOf.Schemas? {
      ExactUnion(env, n, s, s.anyOf.list, v);
    } else if s.oneOf.Schemas? {
      ExactUnion(env, n, s, s.oneOf.list, v);
    } else if s.constant.Some? {
      LiteralIsMember(types, n, s.constant.value, v);
    } else if s.enum.Some? {
      LiteralOnly(types, n, s.enum.value, v);
    } else if s.openEnum.Some? {
      OpenSetOnlyHas(types, n, s.openEnum.value, v);
      StringsFitStrings(s.openEnum.value, v);
    } else {
      match typ
      case NoType => ExactUnknown(env, n, s, v);
      case Many(names) => ExactNamed(env, n, s, names, v);
      case One(name) => ExactOne(env, n, s, name, v);
    }
  }

  lemma StringsFitStrings(listed: seq<Json>, v: Json)
    requires forall i :: 0 <= i < |listed| ==> listed[i].JStr?
    ensures !FitsNone(listed, v) ==> v.JStr?
  {}

  lemma ExactUnknown(env: Components, n: nat, s: Schema, v: Json)
    requires PreciseAs(s, NoType) && ToTypeAs(env, s, NoType).Ok?
    requires Decider(s) == TypeWord
    ensures AcceptsAs(Loose, env, n, s, NoType, v)
  {}

  lemma {:induction false} ExactRef(env: Components, n: nat, s: Schema, typ: TypeKey, v: Json)
    requires PreciseComponents(env) && s.ref.Some?
    requires RefName(env, s.ref.value).Ok? && Member(Exported(env), n, TRef(RefName(env, s.ref.value).value), v)
    ensures AcceptsAs(Loose, env, n, s, typ, v)
    decreases n, s, 2
  {
    hide ToTypeAs, PreciseAs;
    var name := RefName(env, s.ref.value).value;
    Exact(env, n - 1, env[name], env[name].typ, v);
  }

  /** What the deciding keyword accepts, the schema accepts, read loosely. */
  lemma DecidedBy(env: Components, n: nat, s: Schema, typ: TypeKey, v: Json)
    ensures match Decider(s)
            case AnyOfWord =>
              (exists i :: 0 <= i < |s.anyOf.list| && Accepts(Loose, env, n, s.anyOf.list[i], v)) ==>
                AcceptsAs(Loose, env, n, s, typ, v)
            case OneOfWord =>
              (exists i :: 0 <= i < |s.oneOf.list| && Accepts(Loose, env, n, s.oneOf.list[i], v)) ==>
                AcceptsAs(Loose, env, n, s, typ, v)
            case ConstWord => Fits(s.constant.value, v) ==> AcceptsAs(Loose, env, n, s, typ, v)
            case EnumWord =>
              (exists i :: 0 <= i < |s.enum.value| && IsLiteral(Loose, s.enum.value[i], v)) ==>
                AcceptsAs(Loose, env, n, s, typ, v)
            case OpenEnumWord => v.JStr? && typ == One("string") ==> AcceptsAs(Loose, env, n, s, typ, v)
            case _ => true
  {
    hide Accepts;
  }

  lemma {:induction false} ExactUnion(env: Components, n: nat, s: Schema, ss: seq<Schema>, v: Json)
    requires PreciseComponents(env) && forall i :: 0 <= i < |ss| ==> ss[i] < s && PreciseAs(ss[i], ss[i].typ)
    requires ToTypes(env, s, ss).Ok? && Member(Exported(env), n, Union(ToTypes(env, s, ss)).value, v)
    ensures exists i :: 0 <= i < |ss| && Accepts(Loose, env, n, ss[i], v)
    decreases n, s, 2
  {
    hide AcceptsAs, PreciseAs, ToTypeAs, ToTypes, Member, Dedup, Exported, Emits;
    var types, parts := Exported(env), ToTypes(env, s, ss).value;
    UnionMember(types, n, parts, v);
    TypesCount(env, s, ss);
    var i :| 0 <= i < |parts| && Member(types, n, parts[i], v);
    TypesAt(env, s, ss, i);
    Exact(env, n, ss[i], ss[i].typ, v);
    assert Accepts(Loose, env, n, ss[i], v);
  }

  lemma TypesCount(env: Components, parent: Schema, ss: seq<Schema>)
    requires forall k :: 0 <= k < |ss| ==> ss[k] < parent
    requires ToTypes(env, parent, ss).Ok?
    ensures |ToTypes(env, parent, ss).value| == |ss|
  {
    if ss != [] { TypesAt(env, parent, ss, 0); }
  }

  lemma {:induction false} ExactNamed(env: Components, n: nat, s: Schema, names: seq<string>, v: Json)
    requires PreciseComponents(env) && PreciseAs(s, Many(names))
    requires Decider(s) == TypeWord
    requires TypesNamed(env, s, names).Ok? && Member(Exported(env), n, Union(TypesNamed(env, s, names)).value, v)
    ensures AcceptsAs(Loose, env, n, s, Many(names), v)
    decreases n, s, 4
  {
    hide ToTypeAs, TypesNamed, Member, Dedup, Exported, Emits, AcceptsElements, AcceptsMembers, HasType;
    var types, parts := Exported(env), TypesNamed(env, s, names).value;
    UnionMember(types, n, parts, v);
    NamesCount(env, s, names);
    var i :| 0 <= i < |parts| && Member(types, n, parts[i], v);
    NamedAt(env, s, names, i);
    Exact(env, n, s, One(names[i]), v);
  }

  lemma NamesCount(env: Components, s: Schema, names: seq<string>)
    requires TypesNamed(env, s, names).Ok?
    ensures |TypesNamed(env, s, names).value| == |names|
  {
    if names != [] { NamedAt(env, s, names, 0); }
  }

  lemma AcceptsOneIf(env: Components, n: nat, s: Schema, name: string, v: Json)
    requires Decider(s) == TypeWord
    requires HasType(Loose, name, v) && (v.JArr? ==> AcceptsElements(Loose, env, n, s, v))
    requires (v.JObj? ==> AcceptsMembers(Loose, env, n, s, v))
    ensures AcceptsAs(Loose, env, n, s, One(name), v)
  {}

  lemma {:induction false} ExactOne(env: Components, n: nat, s: Schema, name: string, v: Json)
    requires PreciseComponents(env) && PreciseAs(s, One(name))
    requires Decider(s) == TypeWord
    requires ToTypeAs(env, s, One(name)).Ok? && Member(Exported(env), n, ToTypeAs(env, s, One(name)).value, v)
    ensures AcceptsAs(Loose, env, n, s, One(name), v)
    decreases n, s, 2
  {
    hide Dedup, AcceptsAs, AcceptsElements, AcceptsMembers, Fields, ToType, Exported, Emits;
    if name == "array" {
      ExactArray(env, n, s, v);
    } else if name == "object" {
      if s.properties.NoProperties? || s.properties.list == [] {
        ExactRecord(env, n, s, v);
      } else {
        ExactObject(env, n, s, v);
      }
    }
    AcceptsOneIf(env, n, s, name, v);
  }

  lemma {:induction false} ExactArray(env: Components, n: nat, s: Schema, v: Json)
    requires PreciseComponents(env) && s.items.Some? && PreciseAs(s.items.value, s.items.value.typ)
    requires ToType(env, s.items.value).Ok? && Member(Exported(env), n, TArray(ToType(env, s.items.value).value), v)
    ensures v.JArr? && AcceptsElements(Loose, env, n, s, v)
    decreases n, s, 1
  {
    hide AcceptsAs, ToTypeAs, PreciseAs, Exported, Emits;
    forall i | 0 <= i < |v.elements| ensures Accepts(Loose, env, n, s.items.value, v.elements[i]) {
      Exact(env, n, s.items.value, s.items.value.typ, v.elements[i]);
    }
  }

  lemma {:induction false} ExactRecord(env: Components, n: nat, s: Schema, v: Json)
    requires PreciseComponents(env) && (s.properties.NoProperties? || s.properties.list == [])
    requires v.JObj?
    requires s.additional.Of? ==>
               PreciseAs(s.additional.schema, s.additional.schema.typ) && ToType(env, s.additional.schema).Ok?
                                  && Member(Exported(env), n, TRecord(ToType(env, s.additional.schema).value), v)
    requires s.additional.Allowed? && !s.additional.b ==> Member(Exported(env), n, TRecord(TNever), v)
    ensures AcceptsMembers(Loose, env, n, s, v)
    decreases n, s, 1
  {
    hide AcceptsAs, ToTypeAs, PreciseAs, Exported, Emits;
    assert forall k :: !IsProperty(s, k);
    if s.additional.Of? {
      var element := s.additional.schema;
      forall k | k in v.fields ensures Accepts(Loose, env, n, element, v.fields[k]) {
        Exact(env, n, element, element.typ, v.fields[k]);
      }
    }
  }

  lemma {:induction false} ExactObject(env: Components, n: nat, s: Schema, v: Json)
    requires PreciseComponents(env) && s.properties.Properties? && s.properties.list != []
    requires forall i :: 0 <= i < |s.properties.list| ==>
               PreciseAs(s.properties.list[i].schema, s.properties.list[i].schema.typ)
    requires Fields(env, s, s.properties.list).Ok?
    requires Member(Exported(env), n, TObject(Fields(env, s, s.properties.list).value), v)
    ensures v.JObj? && AcceptsMembers(Loose, env, n, s, v)
    decreases n, s, 1
  {
    hide AcceptsAs, ToTypeAs, PreciseAs, Fields, Exported, Emits;
    var props, fields := s.properties.list, Fields(env, s, s.properties.list).value;
    FieldsAt(env, s, props, 0);
    forall i | 0 <= i < |props| && props[i].key in v.fields
      ensures Accepts(Loose, env, n, props[i].schema, v.fields[props[i].key])
    {
      FieldsAt(env, s, props, i);
      assert fields[i].key == props[i].key;
      Exact(env, n, props[i].schema, props[i].schema.typ, v.fields[props[i].key]);
    }
    forall k | 0 <= k < |s.required| && IsProperty(s, s.required[k]) ensures s.required[k] in v.fields {
      var i :| 0 <= i < |props| && props[i].key == s.required[k];
      FieldsAt(env, s, props, i);
      assert fields[i].key == props[i].key;
    }
  }

  /**
    The emitted type is the schema as TypeScript can say it: a value belongs to the emitted type if and
    only if the schema, read loosely, accepts it.
   */
  lemma EmittedTypeIsExact(env: Components, n: nat, s: Schema, v: Json)
    requires PreciseComponents(env) && PreciseAs(s, s.typ) && ToType(env, s).Ok?
    ensures GoodComponents(env) && OpenSetsAreStrings(s)
    ensures Accepts(Loose, env, n, s, v) <==> Member(Exported(env), n, ToType(env, s).value, v)
  {
    hide AcceptsAs, ToTypeAs, PreciseAs, Member, OpenSetsAreStrings;
    forall name | name in env ensures OpenSetsAreStrings(env[name]) { PreciseIsOpen(env[name]); }
    PreciseIsOpen(s);
    if Accepts(Loose, env, n, s, v) {
      Sound(Loose, env, n, s, s.typ, v);
    }
    if Member(Exported(env), n, ToType(env, s).value, v) {
      Exact(env, n, s, s.typ, v);
    }
  }

  lemma {:induction false} PreciseIsOpen(s: Schema)
    requires PreciseAs(s, s.typ)
    ensures OpenSetsAreStrings(s)
    decreases s
  {
    if s.ref.Some? {
    } else if s.anyOf.Schemas? {
      forall i | 0 <= i < |s.anyOf.list| ensures OpenSetsAreStrings(s.anyOf.list[i]) { PreciseIsOpen(s.anyOf.list[i]); }
    } else if s.oneOf.Schemas? {
      forall i | 0 <= i < |s.oneOf.list| ensures OpenSetsAreStrings(s.oneOf.list[i]) { PreciseIsOpen(s.oneOf.list[i]); }
    } else if s.constant.None? && s.enum.None? && s.openEnum.None? {
      if s.items.Some? { PreciseIsOpen(s.items.value); }
      if s.properties.Properties? {
        forall i | 0 <= i < |s.properties.list| ensures OpenSetsAreStrings(s.properties.list[i].schema) {
          PreciseIsOpen(s.properties.list[i].schema);
        }
      }
      if s.additional.Of? { PreciseIsOpen(s.additional.schema); }
    }
  }

  // ---- where the two readings agree -------------------------------------------------------------

  /** No keyword beside the one that decides, and no object in a literal. */
  predicate IsAlone(s: Schema) {
    match Decider(s)
    case RefWord => s == BLANK.(ref := s.ref)
    case AnyOfWord => s == BLANK.(anyOf := s.anyOf)
    case OneOfWord => s == BLANK.(oneOf := s.oneOf)
    case ConstWord => s == BLANK.(constant := s.constant) && IsClosed(s.constant.value)
    case EnumWord => s == BLANK.(enum := s.enum) && forall i :: 0 <= i < |s.enum.value| ==> IsClosed(s.enum.value[i])
    case OpenEnumWord => s == BLANK.(openEnum := s.openEnum, typ := s.typ)
    case TypeWord => s.allOf.NoSchemas?
  }

  /** Nothing in reach that only the strict reading says. */
  ghost predicate IsPlain(s: Schema)
    decreases s
  {
    && IsAlone(s)
    && !SaysInteger(s.typ)
    && (forall i :: 0 <= i < |s.required| ==> IsProperty(s, s.required[i]))
    && (NamesProperties(s) ==> s.additional.Unsaid? || s.additional == Allowed(true))
    && (s.anyOf.Schemas? ==> forall i :: 0 <= i < |s.anyOf.list| ==> IsPlain(s.anyOf.list[i]))
    && (s.oneOf.Schemas? ==> forall i :: 0 <= i < |s.oneOf.list| ==> IsPlain(s.oneOf.list[i]))
    && (s.allOf.Schemas? ==> forall i :: 0 <= i < |s.allOf.list| ==> IsPlain(s.allOf.list[i]))
    && (s.items.Some? ==> IsPlain(s.items.value))
    && (s.properties.Properties? ==> forall i :: 0 <= i < |s.properties.list| ==> IsPlain(s.properties.list[i].schema))
    && (s.additional.Of? ==> IsPlain(s.additional.schema))
  }

  ghost predicate ArePlain(env: Components) {
    forall name :: name in env ==> IsPlain(env[name])
  }

  predicate SaysInteger(typ: TypeKey) {
    match typ
    case NoType => false
    case One(name) => name == "integer"
    case Many(names) => "integer" in names
  }

  lemma TypeReadings(typ: TypeKey, v: Json)
    ensures TypeAccepts(Strict, typ, v) ==> TypeAccepts(Loose, typ, v)
    ensures !SaysInteger(typ) && TypeAccepts(Loose, typ, v) ==> TypeAccepts(Strict, typ, v)
  {
    if typ.Many? {
      if i :| 0 <= i < |typ.names| && HasType(Strict, typ.names[i], v) { assert HasType(Loose, typ.names[i], v); }
      if i :| 0 <= i < |typ.names| && HasType(Loose, typ.names[i], v) && "integer" !in typ.names {
        assert HasType(Strict, typ.names[i], v);
      }
    }
  }

  /** The loose reading leaves out; what is left follows from the strict one where every part does. */
  lemma StrictCarriesOver(env: Components, n: nat, s: Schema, v: Json)
    requires AcceptsAs(Strict, env, n, s, s.typ, v)
    requires TypeAccepts(Strict, s.typ, v) ==> TypeAccepts(Loose, s.typ, v)
    requires s.ref.Some? && RefName(env, s.ref.value).Ok? && n > 0 ==>
               Accepts(Strict, env, n - 1, env[RefName(env, s.ref.value).value], v) ==>
                 Accepts(Loose, env, n - 1, env[RefName(env, s.ref.value).value], v)
    requires s.anyOf.Schemas? ==> ListCarriesOver(Strict, Loose, env, n, s.anyOf.list, v)
    requires s.oneOf.Schemas? ==> ListCarriesOver(Strict, Loose, env, n, s.oneOf.list, v)
    requires v.JArr? && AcceptsElements(Strict, env, n, s, v) ==> AcceptsElements(Loose, env, n, s, v)
    requires v.JObj? && AcceptsMembers(Strict, env, n, s, v) ==> AcceptsMembers(Loose, env, n, s, v)
    ensures AcceptsAs(Loose, env, n, s, s.typ, v)
  {
    hide Accepts, TypeAccepts, AcceptsElements, AcceptsMembers, RefName, Decider, Fits;
    FitsItself(v);
    if s.enum.Some? {
      var i :| 0 <= i < |s.enum.value| && IsLiteral(Strict, s.enum.value[i], v);
      assert IsLiteral(Loose, s.enum.value[i], v);
    }
  }

  /** And the strict reading of a keyword that stands alone is its loose one. */
  lemma LooseCarriesOver(env: Components, n: nat, s: Schema, v: Json)
    requires AcceptsAs(Loose, env, n, s, s.typ, v) && IsAlone(s)
    requires TypeAccepts(Loose, s.typ, v) ==> TypeAccepts(Strict, s.typ, v)
    requires s.ref.Some? && RefName(env, s.ref.value).Ok? && n > 0 ==>
               Accepts(Loose, env, n - 1, env[RefName(env, s.ref.value).value], v) ==>
                 Accepts(Strict, env, n - 1, env[RefName(env, s.ref.value).value], v)
    requires s.anyOf.Schemas? ==> ListCarriesOver(Loose, Strict, env, n, s.anyOf.list, v)
    requires s.oneOf.Schemas? ==> ListCarriesOver(Loose, Strict, env, n, s.oneOf.list, v)
    requires v.JArr? && AcceptsElements(Loose, env, n, s, v) ==> AcceptsElements(Strict, env, n, s, v)
    requires v.JObj? && AcceptsMembers(Loose, env, n, s, v) ==> AcceptsMembers(Strict, env, n, s, v)
    ensures AcceptsAs(Strict, env, n, s, s.typ, v)
  {
    hide Accepts, RefName, Fits, IsClosed;
    if s.constant.Some? && IsLiteral(Loose, s.constant.value, v) && IsClosed(s.constant.value) {
      ClosedFitsOnlyItself(s.constant.value, v);
    }
    if s.enum.Some? && Decider(s) == EnumWord {
      var i :| 0 <= i < |s.enum.value| && IsLiteral(Loose, s.enum.value[i], v);
      ClosedFitsOnlyItself(s.enum.value[i], v);
      assert IsLiteral(Strict, s.enum.value[i], v);
    }
  }

  ghost predicate ListCarriesOver(from: Reading, to: Reading, env: Components, n: nat, ss: seq<Schema>, v: Json) {
    forall i :: 0 <= i < |ss| && Accepts(from, env, n, ss[i], v) ==> Accepts(to, env, n, ss[i], v)
  }

  /** What is accepted strictly is accepted loosely; and the other way round where only plain schemas are in reach. */
  lemma {:induction false} Readings(env: Components, n: nat, s: Schema, v: Json)
    ensures Accepts(Strict, env, n, s, v) ==> Accepts(Loose, env, n, s, v)
    ensures ArePlain(env) && IsPlain(s) && Accepts(Loose, env, n, s, v) ==> Accepts(Strict, env, n, s, v)
    decreases n, s, 2
  {
    hide AcceptsAs, TypeAccepts, AcceptsElements, AcceptsMembers, RefName, ListCarriesOver;
    TypeReadings(s.typ, v);
    if s.ref.Some? && RefName(env, s.ref.value).Ok? && n > 0 {
      RefIsComponent(env, s.ref.value);
      Readings(env, n - 1, env[RefName(env, s.ref.value).value], v);
    }
    if s.anyOf.Schemas? { ListReadings(env, n, s, s.anyOf.list, v); }
    if s.oneOf.Schemas? { ListReadings(env, n, s, s.oneOf.list, v); }
    if v.JArr? { ElementReadings(env, n, s, v); }
    if v.JObj? { MemberReadings(env, n, s, v); }
    if AcceptsAs(Strict, env, n, s, s.typ, v) { StrictCarriesOver(env, n, s, v); }
    if ArePlain(env) && IsPlain(s) && AcceptsAs(Loose, env, n, s, s.typ, v) {
      LooseCarriesOver(env, n, s, v);
    }
  }

  lemma RefIsComponent(env: Components, ref: string)
    requires RefName(env, ref).Ok?
    ensures RefName(env, ref).value in env
  {}

  lemma {:induction false} ListReadings(env: Components, n: nat, s: Schema, ss: seq<Schema>, v: Json)
    requires forall i :: 0 <= i < |ss| ==> ss[i] < s
    ensures ListCarriesOver(Strict, Loose, env, n, ss, v)
    ensures ArePlain(env) && (forall i :: 0 <= i < |ss| ==> IsPlain(ss[i])) ==>
              ListCarriesOver(Loose, Strict, env, n, ss, v)
    decreases n, s, 1
  {
    hide Accepts, IsPlain;
    forall i | 0 <= i < |ss|
      ensures Accepts(Strict, env, n, ss[i], v) ==> Accepts(Loose, env, n, ss[i], v)
      ensures ArePlain(env) && IsPlain(ss[i]) && Accepts(Loose, env, n, ss[i], v) ==> Accepts(Strict, env, n, ss[i], v)
    {
      Readings(env, n, ss[i], v);
    }
  }

  lemma {:induction false} ElementReadings(env: Components, n: nat, s: Schema, v: Json)
    requires v.JArr?
    ensures AcceptsElements(Strict, env, n, s, v) ==> AcceptsElements(Loose, env, n, s, v)
    ensures ArePlain(env) && IsPlain(s) && AcceptsElements(Loose, env, n, s, v) ==>
              AcceptsElements(Strict, env, n, s, v)
    decreases n, s, 1
  {
    hide Accepts;
    if s.items.Some? {
      forall i | 0 <= i < |v.elements|
        ensures Accepts(Strict, env, n, s.items.value, v.elements[i]) ==>
                  Accepts(Loose, env, n, s.items.value, v.elements[i])
        ensures ArePlain(env) && IsPlain(s.items.value) && Accepts(Loose, env, n, s.items.value, v.elements[i]) ==>
                  Accepts(Strict, env, n, s.items.value, v.elements[i])
      {
        Readings(env, n, s.items.value, v.elements[i]);
      }
    }
  }

  lemma {:induction false} ValueReadings(env: Components, n: nat, s: Schema, sub: Schema, v: Json)
    requires v.JObj? && sub < s
    ensures forall k :: k in v.fields && Accepts(Strict, env, n, sub, v.fields[k]) ==>
              Accepts(Loose, env, n, sub, v.fields[k])
    ensures forall k :: k in v.fields && ArePlain(env) && IsPlain(sub) && Accepts(Loose, env, n, sub, v.fields[k]) ==>
              Accepts(Strict, env, n, sub, v.fields[k])
    decreases n, s, 0
  {
    hide Accepts, IsPlain;
    forall k | k in v.fields
      ensures Accepts(Strict, env, n, sub, v.fields[k]) ==> Accepts(Loose, env, n, sub, v.fields[k])
      ensures ArePlain(env) && IsPlain(sub) && Accepts(Loose, env, n, sub, v.fields[k]) ==>
                Accepts(Strict, env, n, sub, v.fields[k])
    {
      Readings(env, n, sub, v.fields[k]);
    }
  }

  lemma {:induction false} MemberReadings(env: Components, n: nat, s: Schema, v: Json)
    requires v.JObj?
    ensures AcceptsMembers(Strict, env, n, s, v) ==> AcceptsMembers(Loose, env, n, s, v)
    ensures ArePlain(env) && IsPlain(s) && AcceptsMembers(Loose, env, n, s, v) ==> AcceptsMembers(Strict, env, n, s, v)
    decreases n, s, 1
  {
    hide Accepts, ArePlain, IsProperty;
    if s.additional.Of? { ValueReadings(env, n, s, s.additional.schema, v); }
    if s.properties.Properties? {
      forall i | 0 <= i < |s.properties.list| && s.properties.list[i].key in v.fields
        ensures var sub, w := s.properties.list[i].schema, v.fields[s.properties.list[i].key];
                && (Accepts(Strict, env, n, sub, w) ==> Accepts(Loose, env, n, sub, w))
                && (ArePlain(env) && IsPlain(sub) && Accepts(Loose, env, n, sub, w) ==> Accepts(Strict, env, n, sub, w))
      {
        Readings(env, n, s.properties.list[i].schema, v.fields[s.properties.list[i].key]);
      }
    }
  }

  /** Where only plain schemas are in reach, the emitted type is the schema as it stands. */
  lemma EmittedTypeIsStrict(env: Components, n: nat, s: Schema, v: Json)
    requires PreciseComponents(env) && PreciseAs(s, s.typ) && ToType(env, s).Ok? && ArePlain(env) && IsPlain(s)
    ensures Accepts(Strict, env, n, s, v) <==> Member(Exported(env), n, ToType(env, s).value, v)
  {
    hide Accepts, ToType, PreciseAs, Member, IsPlain;
    EmittedTypeIsExact(env, n, s, v);
    Readings(env, n, s, v);
  }

  // ---- when there is a type ---------------------------------------------------------------------

  /**
    The schemas the emitter has a type for: every reference names a component, every array says what is
    in it, every type name is known, and a schema without a type says nothing that would need one.
   */
  predicate EmittableAs(env: Components, s: Schema, typ: TypeKey)
    decreases s, if typ.Many? then 1 else 0
  {
    if s.ref.Some? then exists name :: name in env && s.ref.value == "#/components/schemas/" + name
    else if s.anyOf.Schemas? then forall i :: 0 <= i < |s.anyOf.list| ==>
        EmittableAs(env, s.anyOf.list[i], s.anyOf.list[i].typ)
    else if s.oneOf.Schemas? then forall i :: 0 <= i < |s.oneOf.list| ==>
        EmittableAs(env, s.oneOf.list[i], s.oneOf.list[i].typ)
    else if s.constant.Some? || s.enum.Some? || s.openEnum.Some? then true
    else match typ
      case NoType =>
        s.allOf.NoSchemas? && s.properties.NoProperties? && s.items.None? && s.additional.Unsaid?
      case Many(names) => forall i :: 0 <= i < |names| ==> EmittableAs(env, s, One(names[i]))
      case One(name) =>
        && IsTypeName(name)
        && (name == "array" ==> s.items.Some? && EmittableAs(env, s.items.value, s.items.value.typ))
        && (name == "object" ==>
              if NamesProperties(s) then
                forall i :: 0 <= i < |s.properties.list| ==>
                  EmittableAs(env, s.properties.list[i].schema, s.properties.list[i].schema.typ)
              else s.additional.Of? ==> EmittableAs(env, s.additional.schema, s.additional.schema.typ))
  }

  lemma RefNameIff(env: Components, ref: string)
    ensures RefName(env, ref).Ok? <==> exists name :: name in env && ref == "#/components/schemas/" + name
  {
    if RefName(env, ref).Ok? { assert ref == PREFIX + ref[|PREFIX|..]; }
    if name :| name in env && ref == PREFIX + name { assert ref[|PREFIX|..] == name; }
  }

  /** The emitter throws exactly on the schemas it has no type for. */
  lemma {:induction false} EmitsIff(env: Components, s: Schema, typ: TypeKey)
    ensures ToTypeAs(env, s, typ).Ok? <==> EmittableAs(env, s, typ)
    decreases s, if typ.Many? then 3 else 1, 0
  {
    hide RefName, Dedup, Literals;
    if s.ref.Some? {
      RefNameIff(env, s.ref.value);
    } else if s.anyOf.Schemas? {
      ListEmitsIff(env, s, s.anyOf.list);
    } else if s.oneOf.Schemas? {
      ListEmitsIff(env, s, s.oneOf.list);
    } else if s.constant.None? && s.enum.None? && s.openEnum.None? {
      match typ
      case NoType =>
      case Many(names) => NamesEmitIff(env, s, names);
      case One(name) =>
        if name == "array" && s.items.Some? { EmitsIff(env, s.items.value, s.items.value.typ); }
        if name == "object" {
          if NamesProperties(s) {
            FieldsEmitIff(env, s, s.properties.list);
          } else if s.additional.Of? {
            EmitsIff(env, s.additional.schema, s.additional.schema.typ);
          }
        }
    }
  }

  lemma {:induction false} ListEmitsIff(env: Components, s: Schema, ss: seq<Schema>)
    requires forall i :: 0 <= i < |ss| ==> ss[i] < s
    ensures ToTypes(env, s, ss).Ok? <==> forall i :: 0 <= i < |ss| ==> EmittableAs(env, ss[i], ss[i].typ)
    decreases s, 0, |ss|
  {
    hide ToTypeAs, EmittableAs;
    if ss != [] {
      var init, last := ss[..|ss| - 1], ss[|ss| - 1];
      ListEmitsIff(env, s, init);
      EmitsIff(env, last, last.typ);
      assert ss == init + [last];
    }
  }

  lemma {:induction false} NamesEmitIff(env: Components, s: Schema, names: seq<string>)
    ensures TypesNamed(env, s, names).Ok? <==> forall i :: 0 <= i < |names| ==> EmittableAs(env, s, One(names[i]))
    decreases s, 2, |names|
  {
    hide ToTypeAs, EmittableAs;
    if names != [] {
      var init, last := names[..|names| - 1], names[|names| - 1];
      NamesEmitIff(env, s, init);
      EmitsIff(env, s, One(last));
      assert names == init + [last];
    }
  }

  lemma {:induction false} FieldsEmitIff(env: Components, s: Schema, props: seq<Property>)
    requires forall i :: 0 <= i < |props| ==> props[i].schema < s
    ensures Fields(env, s, props).Ok? <==>
              forall i :: 0 <= i < |props| ==> EmittableAs(env, props[i].schema, props[i].schema.typ)
    decreases s, 0, |props|
  {
    hide ToTypeAs, EmittableAs;
    if props != [] {
      var init, last := props[..|props| - 1], props[|props| - 1];
      FieldsEmitIff(env, s, init);
      EmitsIff(env, last.schema, last.schema.typ);
      assert props == init + [last];
    }
  }

  // ---- exactly when a literal is exact ------------------------------------------------------------

  lemma {:induction false} LongerThanAll(keys: set<string>) returns (n: nat)
    ensures forall k :: k in keys ==> |k| < n
    decreases |keys|
  {
    n := 0;
    if keys != {} {
      var k :| k in keys;
      n := LongerThanAll(keys - {k});
      if n <= |k| { n := |k| + 1; }
    }
  }

  /** A literal with an object in it also has a value that is not itself: the object with one more key. */
  lemma {:induction false} Wider(literal: Json) returns (v: Json)
    requires !IsClosed(literal)
    ensures Fits(literal, v) && v != literal
    decreases literal
  {
    if literal.JObj? {
      var n := LongerThanAll(literal.fields.Keys);
      var key := seq(n, i => 'a');
      assert key !in literal.fields;
      v := JObj(literal.fields[key := JNull]);
      assert key in v.fields;
      forall k | k in literal.fields ensures Fits(literal.fields[k], v.fields[k]) { FitsItself(literal.fields[k]); }
    } else {
      var i :| 0 <= i < |literal.elements| && !IsClosed(literal.elements[i]);
      var w := Wider(literal.elements[i]);
      v := JArr(literal.elements[i := w]);
      forall k | 0 <= k < |literal.elements| ensures Fits(literal.elements[k], v.elements[k]) {
        FitsItself(literal.elements[k]);
      }
      assert v.elements[i] != literal.elements[i];
    }
  }

  function Constant(literal: Json): Schema {
    BLANK.(constant := Some(literal))
  }

  lemma ConstantMeans(rd: Reading, env: Components, n: nat, literal: Json, v: Json)
    ensures Accepts(rd, env, n, Constant(literal), v) <==> IsLiteral(rd, literal, v)
    ensures ToType(env, Constant(literal)) == Ok(TLiteral(literal))
  {
    var s := Constant(literal);
    assert AcceptsAs(rd, env, n, s, NoType, v) <==> IsLiteral(rd, literal, v);
    assert ToTypeAs(env, s, NoType) == Ok(TLiteral(literal));
  }

  /** The type emitted for a constant has exactly the constant's value if and only if there is no object in it. */
  lemma ConstantExactIff(env: Components, n: nat, literal: Json)
    requires Emits(env)
    ensures var s := Constant(literal);
            && ToType(env, s).Ok?
            && (IsClosed(literal) <==>
                  forall v :: Accepts(Strict, env, n, s, v) <==> Member(Exported(env), n, ToType(env, s).value, v))
  {
    hide Accepts, ToType, Exported, IsClosed, Fits, Constant;
    var s := Constant(literal);
    ConstantMeans(Strict, env, n, literal, literal);
    assert forall v :: Member(Exported(env), n, ToType(env, s).value, v) <==> Fits(literal, v);
    if IsClosed(literal) {
      forall v ensures Accepts(Strict, env, n, s, v) <==> Member(Exported(env), n, ToType(env, s).value, v) {
        ConstantMeans(Strict, env, n, literal, v);
        FitsItself(literal);
        if Fits(literal, v) { ClosedFitsOnlyItself(literal, v); }
      }
    } else {
      var v := Wider(literal);
      ConstantMeans(Strict, env, n, literal, v);
      assert Member(Exported(env), n, ToType(env, s).value, v);
    }
  }

  /** A constant object: a value with one more property is refused, and in the emitted type. */
  lemma ObjectConstantIsWider(n: nat)
    ensures var s := Constant(JObj(map["a" := JNum(1.0)]));
            var v := JObj(map["a" := JNum(1.0), "b" := JNum(2.0)]);
            && !Accepts(Strict, map[], n, s, v) && ToType(map[], s).Ok? && Member(map[], n, ToType(map[], s).value, v)
  {
    hide Accepts, ToType, Constant;
    var literal := JObj(map["a" := JNum(1.0)]);
    var v := JObj(map["a" := JNum(1.0), "b" := JNum(2.0)]);
    ConstantMeans(Strict, map[], n, literal, v);
    assert "b" in v.fields && "b" !in literal.fields;
    FitsItself(JNum(1.0));
    assert Fits(literal, v);
  }
}
