/**
 * Dumping OpenAPI schema objects into JSON-like trees, and loading them back. One field of every
 * shape stands for the fields of that shape.
 */
module SchemaMapper {
  import opened Wrappers

  /** Python values made of None, scalars, lists and dicts with string keys. */
  datatype Json =
    | JNull
    | JBool(flag: bool)
    | JNumber(number: int)
    | JString(text: string)
    | JList(items: seq<Json>)
    | JObject(fields: map<string, Json>)

  type Dict = map<string, Json>

  /** `raw_data.get(key)`. */
  function Get(raw: Dict, key: string): Json {
    if key in raw then raw[key] else JNull
  }

  // ---- Schema objects ----

  datatype TypeName = NullType | BooleanType | ObjectType | ArrayType | NumberType | StringType | IntegerType

  datatype TypeField = NoType | One(name: TypeName) | Many(names: seq<TypeName>)

  datatype Node = Reference(ref: Json, summary: Json, description: Json) | Sub(schema: Schema)

  datatype Child = NoChild | Child(node: Node)
  datatype BoolOrChild = Nothing | Flag(flag: bool) | Shape(node: Node)
  datatype ChildList = NoList | ChildList(nodes: seq<Node>)
  datatype ChildDict = NoDict | ChildDict(nodes: map<string, Node>)

  datatype Discriminator = NoDiscriminator | Discriminator(propertyName: Json, mapping: Json)

  datatype Schema = Schema(
    allOf: ChildList,
    anyOf: ChildList,
    oneOf: ChildList,
    schemaNot: Child,
    items: BoolOrChild,
    properties: ChildDict,
    typeField: TypeField,
    constValue: Json,
    maxLength: Json,
    required: Json,
    discriminator: Discriminator,
    defs: ChildDict,
    ref: Json,
    anchor: Json,
    comment: Json,
    schemaUri: Json)

  // ---- Dumping ----

  /** A dataclass field: its name, its alias if it has one, and its dumped value. */
  datatype Field = Field(name: string, alias: Option<string>, value: Json)

  function UpperChar(c: char): char {
    if 'a' <= c <= 'z' then (c as int - 32) as char else c
  }

  /** snake_case to camelCase; the names have no upper-case letters to lower. */
  function Camel(name: string, upper: bool): string {
    if name == "" then ""
    else if name[0] == '_' then Camel(name[1..], true)
    else [if upper then UpperChar(name[0]) else name[0]] + Camel(name[1..], false)
  }

  /** `_dump_field`. */
  function DumpField(f: Field): string {
    if f.alias.Some? then f.alias.value else Camel(f.name, false)
  }

  /** Python's truth value. */
  predicate Truthy(j: Json) {
    match j
    case JNull => false
    case JBool(flag) => flag
    case JNumber(n) => n != 0
    case JString(text) => text != ""
    case JList(items) => items != []
    case JObject(fields) => fields != map[]
  }

  /** Unset fields and an empty `required` are not written. */
  predicate Skipped(f: Field) {
    f.value == JNull || (f.name == "required" && !Truthy(f.value))
  }

  function Written(fields: seq<Field>): Dict {
    if fields == [] then map[]
    else
      var last := fields[|fields| - 1];
      var front := Written(fields[..|fields| - 1]);
      if Skipped(last) then front else front[DumpField(last) := last.value]
  }

  /** The loop of `dump_schema` over the fields of a dataclass. */
  method WriteFields(fields: seq<Field>) returns (schema: Dict)
    ensures schema == Written(fields)
  {
    schema := map[];
    var i := 0;
    while i < |fields|
      invariant 0 <= i <= |fields| && schema == Written(fields[..i])
    {
      assert fields[..i + 1][..i] == fields[..i];
      if !Skipped(fields[i]) {
        schema := schema[DumpField(fields[i]) := fields[i].value];
      }
      i := i + 1;
    }
    assert fields[..i] == fields;
  }

  /** `_dump_value` on plain data rebuilds lists and dicts. */
  function DumpPlain(j: Json): Json {
    match j
    case JList(items) => JList(seq(|items|, i requires 0 <= i < |items| => DumpPlain(items[i])))
    case JObject(fields) => JObject(map k | k in fields :: DumpPlain(fields[k]))
    case _ => j
  }

  function TypeText(t: TypeName): string {
    match t
    case NullType => "null"
    case BooleanType => "boolean"
    case ObjectType => "object"
    case ArrayType => "array"
    case NumberType => "number"
    case StringType => "string"
    case IntegerType => "integer"
  }

  function DumpTypes(names: seq<TypeName>): seq<Json> {
    if names == [] then [] else [JString(TypeText(names[0]))] + DumpTypes(names[1..])
  }

  function DumpTypeField(t: TypeField): Json {
    match t
    case NoType => JNull
    case One(name) => JString(TypeText(name))
    case Many(names) => JList(DumpTypes(names))
  }

  function DumpDiscriminator(d: Discriminator): Json {
    match d
    case NoDiscriminator => JNull
    case Discriminator(propertyName, mapping) =>
      JObject(Written([Field("property_name", None, DumpPlain(propertyName)),
                       Field("mapping", None, DumpPlain(mapping))]))
  }

  function DumpNode(n: Node): Json
    decreases n, 0
  {
    match n
    case Reference(ref, summary, description) =>
      JObject(Written([Field("ref", Some("$ref"), DumpPlain(ref)),
                       Field("summary", None, DumpPlain(summary)),
                       Field("description", None, DumpPlain(description))]))
    case Sub(schema) => DumpSchema(schema)
  }

  function DumpChild(c: Child): Json
    decreases c, 0
  {
    match c
    case NoChild => JNull
    case Child(node) => DumpNode(node)
  }

  function DumpBoolOrChild(c: BoolOrChild): Json
    decreases c, 0
  {
    match c
    case Nothing => JNull
    case Flag(flag) => JBool(flag)
    case Shape(node) => DumpNode(node)
  }

  function DumpList(c: ChildList): Json
    decreases c, 0
  {
    match c
    case NoList => JNull
    case ChildList(nodes) => JList(seq(|nodes|, i requires 0 <= i < |nodes| => DumpNode(nodes[i])))
  }

  function DumpDict(c: ChildDict): Json
    decreases c, 0
  {
    match c
    case NoDict => JNull
    case ChildDict(nodes) => JObject(map k | k in nodes :: DumpNode(nodes[k]))
  }

  function FieldsOf(s: Schema): seq<Field>
    decreases s, 0
  {
    [Field("all_of", None, DumpList(s.allOf)),
     Field("any_of", None, DumpList(s.anyOf)),
     Field("one_of", None, DumpList(s.oneOf)),
     Field("schema_not", Some("not"), DumpChild(s.schemaNot)),
     Field("items", None, DumpBoolOrChild(s.items)),
     Field("properties", None, DumpDict(s.properties)),
     Field("type", None, DumpTypeField(s.typeField)),
     Field("const", None, DumpPlain(s.constValue)),
     Field("max_length", None, DumpPlain(s.maxLength)),
     Field("required", None, DumpPlain(s.required)),
     Field("discriminator", None, DumpDiscriminator(s.discriminator)),
     Field("ref", Some("$ref"), DumpPlain(s.ref)),
     Field("anchor", Some("$anchor"), DumpPlain(s.anchor)),
     Field("comment", Some("$comment"), DumpPlain(s.comment)),
     Field("schema_uri", Some("$schema"), DumpPlain(s.schemaUri)),
     Field("defs", Some("$defs"), DumpDict(s.defs))]
  }

  /** `dump_schema`. */
  function DumpSchema(s: Schema): Json
    decreases s, 1
  {
    JObject(Written(FieldsOf(s)))
  }

  // ---- Loading ----

  /** The outcome of loading a part: some inputs make the loader raise. */
  datatype Loaded<+T> = Raised | Loaded(value: T)

  function LoadTypeName(raw: Json): Loaded<TypeName> {
    match raw
    case JString("null") => Loaded(NullType)
    case JString("boolean") => Loaded(BooleanType)
    case JString("object") => Loaded(ObjectType)
    case JString("array") => Loaded(ArrayType)
    case JString("number") => Loaded(NumberType)
    case JString("string") => Loaded(StringType)
    case JString("integer") => Loaded(IntegerType)
    case _ => Raised
  }

  function LoadTypes(raw: seq<Json>): Loaded<seq<TypeName>> {
    if raw == [] then Loaded([])
    else
      var first, rest := LoadTypeName(raw[0]), LoadTypes(raw[1..]);
      if first.Raised? || rest.Raised? then Raised else Loaded([first.value] + rest.value)
  }

  /** `_try_type_field`. */
  function LoadTypeField(raw: Json): Loaded<TypeField> {
    match raw
    case JNull => Loaded(NoType)
    case JList(items) => (match LoadTypes(items) case Raised => Raised case Loaded(names) => Loaded(Many(names)))
    case _ => (match LoadTypeName(raw) case Raised => Raised case Loaded(name) => Loaded(One(name)))
  }

  /** `_try_discriminator`: the property name is looked up with square brackets. */
  function LoadDiscriminator(raw: Json): Loaded<Discriminator> {
    match raw
    case JNull => Loaded(NoDiscriminator)
    case JObject(fields) =>
      if "propertyName" in fields then Loaded(Discriminator(fields["propertyName"], Get(fields, "mapping"))) else Raised
    case _ => Raised
  }

  /** `_try_type`: anything with `$ref` is a reference. */
  function LoadNode(raw: Json): Loaded<Node>
    decreases raw, 1
  {
    if raw.JObject? && "$ref" in raw.fields then
      Loaded(Reference(raw.fields["$ref"], Get(raw.fields, "summary"), Get(raw.fields, "description")))
    else
      match LoadSchema(raw)
      case Raised => Raised
      case Loaded(schema) => Loaded(Sub(schema))
  }

  /** `_try_optional_type`. */
  function LoadChild(raw: Json): Loaded<Child>
    decreases raw, 2
  {
    if raw == JNull then Loaded(NoChild)
    else match LoadNode(raw) case Raised => Raised case Loaded(node) => Loaded(Child(node))
  }

  /** `_try_optional_bool_type` and `_try_additional_properties`. */
  function LoadBoolOrChild(raw: Json): Loaded<BoolOrChild>
    decreases raw, 2
  {
    if raw.JBool? then Loaded(Flag(raw.flag))
    else if raw == JNull then Loaded(Nothing)
    else match LoadNode(raw) case Raised => Raised case Loaded(node) => Loaded(Shape(node))
  }

  /** `_try_sequence`: iterates over whatever it is given, so empty strings and dicts pass as empty lists. */
  function LoadList(raw: Json): Loaded<ChildList>
    decreases raw, 2
  {
    match raw
    case JNull => Loaded(NoList)
    case JList(items) =>
      var nodes := seq(|items|, i requires 0 <= i < |items| => LoadNode(items[i]));
      if exists i :: 0 <= i < |nodes| && nodes[i].Raised? then Raised
      else Loaded(ChildList(seq(|nodes|, i requires 0 <= i < |nodes| && nodes[i].Loaded? => nodes[i].value)))
    case JString("") => Loaded(ChildList([]))
    case JObject(fields) => if fields == map[] then Loaded(ChildList([])) else Raised
    case _ => Raised
  }

  /** `_try_dict`. */
  function LoadDict(raw: Json): Loaded<ChildDict>
    decreases raw, 2
  {
    match raw
    case JNull => Loaded(NoDict)
    case JObject(fields) =>
      var nodes := map k | k in fields :: LoadNode(fields[k]);
      if exists k :: k in nodes && nodes[k].Raised? then Raised
      else Loaded(ChildDict(map k | k in nodes && nodes[k].Loaded? :: nodes[k].value))
    case _ => Raised
  }

  predicate IsNullType(n: Node) {
    n.Sub? && n.schema.typeField == One(NullType)
  }

  function Select(nodes: seq<Node>, nulls: bool): seq<Node> {
    if nodes == [] then []
    else (if IsNullType(nodes[0]) == nulls then [nodes[0]] else []) + Select(nodes[1..], nulls)
  }

  /** `_sort_null_last`. */
  function SortNullLast(c: ChildList): ChildList {
    match c
    case NoList => NoList
    case ChildList(nodes) => ChildList(Select(nodes, false) + Select(nodes, true))
  }

  /** The schema made of its loaded children and the values that are taken over as they are. */
  function Assemble(raw: Dict, allOf: Loaded<ChildList>, anyOf: Loaded<ChildList>, oneOf: Loaded<ChildList>,
                    schemaNot: Loaded<Child>, items: Loaded<BoolOrChild>, properties: Loaded<ChildDict>,
                    defs: Loaded<ChildDict>): Loaded<Schema>
  {
    var typeField := LoadTypeField(Get(raw, "type"));
    var discriminator := LoadDiscriminator(Get(raw, "discriminator"));
    if allOf.Raised? || anyOf.Raised? || oneOf.Raised? || schemaNot.Raised? || items.Raised?
       || properties.Raised? || defs.Raised? || typeField.Raised? || discriminator.Raised? then Raised
    else Loaded(Schema(
      allOf.value, SortNullLast(anyOf.value), SortNullLast(oneOf.value), schemaNot.value, items.value,
      properties.value, typeField.value, Get(raw, "const"), Get(raw, "maxLength"),
      if "required" in raw then raw["required"] else JList([]),
      discriminator.value, defs.value, JNull, JNull, JNull, JNull))
  }

  /** `load_schema`: whatever is not a dict has no `get`. */
  function LoadSchema(raw: Json): Loaded<Schema>
    decreases raw, 0
  {
    if !raw.JObject? then Raised
    else
      var r := raw.fields;
      Assemble(
        r,
        if "allOf" in r then LoadList(r["allOf"]) else Loaded(NoList),
        if "anyOf" in r then LoadList(r["anyOf"]) else Loaded(NoList),
        if "oneOf" in r then LoadList(r["oneOf"]) else Loaded(NoList),
        if "not" in r then LoadChild(r["not"]) else Loaded(NoChild),
        if "items" in r then LoadBoolOrChild(r["items"]) else Loaded(Nothing),
        if "properties" in r then LoadDict(r["properties"]) else Loaded(NoDict),
        if "$defs" in r then LoadDict(r["$defs"]) else Loaded(NoDict))
  }
}
