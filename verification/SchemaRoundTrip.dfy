/** Loading undoes dumping, up to the order of unions, for exactly the schemas that the loader can represent. */
module SchemaRoundTrip {
  import opened Wrappers
  import opened SchemaMapper
  import opened Strings

  // ---- The canonical form ----

  function CanonNode(n: Node): Node
    decreases n, 0
  {
    match n
    case Reference(_, _, _) => n
    case Sub(schema) => Sub(Canon(schema))
  }

  function CanonChild(c: Child): Child
    decreases c, 0
  {
    match c
    case NoChild => NoChild
    case Child(node) => Child(CanonNode(node))
  }

  function CanonBoolOrChild(c: BoolOrChild): BoolOrChild
    decreases c, 0
  {
    match c
    case Shape(node) => Shape(CanonNode(node))
    case _ => c
  }

  function CanonList(c: ChildList): ChildList
    decreases c, 0
  {
    match c
    case NoList => NoList
    case ChildList(nodes) => ChildList(seq(|nodes|, i requires 0 <= i < |nodes| => CanonNode(nodes[i])))
  }

  function CanonDict(c: ChildDict): ChildDict
    decreases c, 0
  {
    match c
    case NoDict => NoDict
    case ChildDict(nodes) => ChildDict(map k | k in nodes :: CanonNode(nodes[k]))
  }

  /** Every `anyOf` and `oneOf`, at every depth, has its null types at the end; nothing else moves. */
  function Canon(s: Schema): Schema
    decreases s, 1
  {
    s.(allOf := CanonList(s.allOf),
       anyOf := SortNullLast(CanonList(s.anyOf)),
       oneOf := SortNullLast(CanonList(s.oneOf)),
       schemaNot := CanonChild(s.schemaNot),
       items := CanonBoolOrChild(s.items),
       properties := CanonDict(s.properties),
       defs := CanonDict(s.defs))
  }

  // ---- What the loader can represent ----

  predicate CleanNode(n: Node)
    decreases n, 0
  {
    match n
    case Reference(ref, _, _) => ref != JNull
    case Sub(schema) => Clean(schema)
  }

  predicate CleanChild(c: Child)
    decreases c, 0
  {
    c.Child? ==> CleanNode(c.node)
  }

  predicate CleanBoolOrChild(c: BoolOrChild)
    decreases c, 0
  {
    c.Shape? ==> CleanNode(c.node)
  }

  predicate CleanList(c: ChildList)
    decreases c, 0
  {
    match c
    case NoList => true
    case ChildList(nodes) => forall i :: 0 <= i < |nodes| ==> CleanNode(nodes[i])
  }

  predicate CleanDict(c: ChildDict)
    decreases c, 0
  {
    match c
    case NoDict => true
    case ChildDict(nodes) => forall k :: k in nodes ==> CleanNode(nodes[k])
  }

  /** The fields of a schema itself, children apart. */
  predicate CleanFields(s: Schema) {
    && s.ref == s.anchor == s.comment == s.schemaUri == JNull
    && (Truthy(s.required) || s.required == JList([]))
    && (s.discriminator.Discriminator? ==> s.discriminator.propertyName != JNull)
  }

  /**
   * No `$ref`, `$anchor`, `$comment` or `$schema` in any schema object, a `required` that is set or
   * the empty list, and targets in all references and discriminators.
   */
  predicate Clean(s: Schema)
    decreases s, 1
  {
    && CleanFields(s)
    && CleanList(s.allOf) && CleanList(s.anyOf) && CleanList(s.oneOf)
    && CleanChild(s.schemaNot) && CleanBoolOrChild(s.items)
    && CleanDict(s.properties) && CleanDict(s.defs)
  }

  // ---- Fields in a dict ----

  lemma {:induction false} PlainUnchanged(j: Json)
    ensures DumpPlain(j) == j
  {
    match j
    case JList(items) =>
      forall i | 0 <= i < |items|
        ensures DumpPlain(items[i]) == items[i]
      {
        PlainUnchanged(items[i]);
      }
      assert DumpPlain(j).items == items;
    case JObject(fields) =>
      forall k | k in fields
        ensures DumpPlain(fields[k]) == fields[k]
      {
        PlainUnchanged(fields[k]);
      }
      assert DumpPlain(j).fields == fields;
    case _ =>
  }

  ghost predicate DistinctKeys(fields: seq<Field>) {
    forall i, j :: 0 <= i < j < |fields| ==> DumpField(fields[i]) != DumpField(fields[j])
  }

  lemma {:induction false} WrittenKeys(fields: seq<Field>, key: string)
    requires key in Written(fields)
    ensures exists i :: 0 <= i < |fields| && DumpField(fields[i]) == key
  {
    var n := |fields| - 1;
    if DumpField(fields[n]) != key {
      WrittenKeys(fields[..n], key);
      var i :| 0 <= i < n && DumpField(fields[..n][i]) == key;
      assert DumpField(fields[i]) == key;
    }
  }

  /** With distinct keys every field can be read back under its own key. */
  lemma {:induction false} WrittenAt(fields: seq<Field>, i: nat)
    requires DistinctKeys(fields) && i < |fields|
    ensures var f := fields[i];
      if Skipped(f) then DumpField(f) !in Written(fields)
      else DumpField(f) in Written(fields) && Written(fields)[DumpField(f)] == f.value
  {
    var n := |fields| - 1;
    if i < n {
      WrittenAt(fields[..n], i);
    } else if DumpField(fields[n]) in Written(fields[..n]) {
      WrittenKeys(fields[..n], DumpField(fields[n]));
    }
  }

  const KEYS: seq<string> := [
    "allOf", "anyOf", "oneOf", "not", "items", "properties", "type", "const", "maxLength", "required",
    "discriminator", "$ref", "$anchor", "$comment", "$schema", "$defs"]

  /** Length and the first two letters tell the keys apart. */
  function Fingerprint(key: string): (nat, char, char)
    requires |key| >= 2
  {
    (|key|, key[0], key[1])
  }

  lemma KeysDistinct()
    ensures forall i :: 0 <= i < |KEYS| ==> |KEYS[i]| >= 2
    ensures forall i, j :: 0 <= i < j < |KEYS| ==> KEYS[i] != KEYS[j]
  {
    var prints := [
      (5, 'a', 'l'), (5, 'a', 'n'), (5, 'o', 'n'), (3, 'n', 'o'), (5, 'i', 't'), (10, 'p', 'r'), (4, 't', 'y'),
      (5, 'c', 'o'), (9, 'm', 'a'), (8, 'r', 'e'), (13, 'd', 'i'), (4, '$', 'r'), (7, '$', 'a'), (8, '$', 'c'),
      (7, '$', 's'), (5, '$', 'd')];
    assert forall i :: 0 <= i < |KEYS| ==> |KEYS[i]| >= 2 && Fingerprint(KEYS[i]) == prints[i];
    assert forall i, j :: 0 <= i < j < |prints| ==> prints[i] != prints[j];
  }

  lemma KeysOfFields(s: Schema)
    ensures |FieldsOf(s)| == |KEYS|
    ensures forall i :: 0 <= i < |KEYS| ==> DumpField(FieldsOf(s)[i]) == KEYS[i]
  {
    hide DumpList, DumpChild, DumpBoolOrChild, DumpDict, DumpTypeField, DumpPlain, DumpDiscriminator, Camel;
    CamelPlain("items");
    CamelPlain("properties");
    CamelPlain("type");
    CamelPlain("const");
    CamelPlain("required");
    CamelPlain("discriminator");
    CompoundNames();
  }

  lemma CompoundNames()
    ensures Camel("all_of", false) == "allOf" && Camel("any_of", false) == "anyOf"
    ensures Camel("one_of", false) == "oneOf" && Camel("max_length", false) == "maxLength"
  {
    hide Camel;
    assert "all_of" == "all" + "_" + "of" && "any_of" == "any" + "_" + "of" && "one_of" == "one" + "_" + "of";
    assert "max_length" == "max" + "_" + "length";
    CamelCompound("all", "of");
    CamelCompound("any", "of");
    CamelCompound("one", "of");
    CamelCompound("max", "length");
  }

  /** Names without an underscore stay as they are. */
  lemma {:induction false} CamelPlain(name: string)
    requires '_' !in name
    ensures Camel(name, false) == name
  {
    if name != "" {
      CamelPlain(name[1..]);
      assert [name[0]] + name[1..] == name;
    }
  }

  /** An underscore goes away and the letter behind it becomes a capital. */
  lemma {:induction false} CamelCompound(first: string, second: string)
    requires '_' !in first && '_' !in second && second != ""
    ensures Camel(first + "_" + second, false) == first + [UpperChar(second[0])] + second[1..]
  {
    var name := first + "_" + second;
    if first == "" {
      assert name[1..] == second;
      CamelPlain(second[1..]);
    } else {
      assert name[1..] == first[1..] + "_" + second;
      CamelCompound(first[1..], second);
    }
  }

  /** Reading one field of a dumped schema back. */
  lemma FieldRead(s: Schema, i: nat)
    requires i < |KEYS|
    ensures |FieldsOf(s)| == |KEYS|
    ensures var f, raw := FieldsOf(s)[i], Written(FieldsOf(s));
      if Skipped(f) then KEYS[i] !in raw else KEYS[i] in raw && raw[KEYS[i]] == f.value
  {
    hide FieldsOf, DumpField, Skipped, Written;
    KeysOfFields(s);
    KeysDistinct();
    WrittenAt(FieldsOf(s), i);
  }

  lemma ChildFieldsRead(s: Schema)
    ensures var raw := Written(FieldsOf(s));
      && Get(raw, "allOf") == DumpList(s.allOf)
      && Get(raw, "anyOf") == DumpList(s.anyOf)
      && Get(raw, "oneOf") == DumpList(s.oneOf)
      && Get(raw, "not") == DumpChild(s.schemaNot)
      && Get(raw, "items") == DumpBoolOrChild(s.items)
      && Get(raw, "properties") == DumpDict(s.properties)
      && Get(raw, "$defs") == DumpDict(s.defs)
  {
    hide Written, DumpList, DumpChild, DumpBoolOrChild, DumpDict, DumpTypeField, DumpPlain, DumpDiscriminator;
    FieldRead(s, 0);
    FieldRead(s, 1);
    FieldRead(s, 2);
    FieldRead(s, 3);
    FieldRead(s, 4);
    FieldRead(s, 5);
    FieldRead(s, 15);
  }

  lemma PlainFieldsRead(s: Schema)
    ensures var raw := Written(FieldsOf(s));
      && Get(raw, "type") == DumpTypeField(s.typeField)
      && Get(raw, "const") == s.constValue
      && Get(raw, "maxLength") == s.maxLength
      && Get(raw, "discriminator") == DumpDiscriminator(s.discriminator)
      && (if "required" in raw then raw["required"] else JList([]))
         == (if Truthy(s.required) then s.required else JList([]))
      && Get(raw, "$ref") == s.ref && ("$ref" in raw <==> s.ref != JNull)
  {
    hide Written, DumpList, DumpChild, DumpBoolOrChild, DumpDict, DumpTypeField, DumpPlain, DumpDiscriminator;
    PlainUnchanged(s.constValue);
    PlainUnchanged(s.maxLength);
    PlainUnchanged(s.required);
    PlainUnchanged(s.ref);
    FieldRead(s, 6);
    FieldRead(s, 7);
    FieldRead(s, 8);
    FieldRead(s, 9);
    FieldRead(s, 10);
    FieldRead(s, 11);
  }

  lemma OtherFieldsRead(s: Schema)
    ensures var raw := Written(FieldsOf(s));
      && Get(raw, "$anchor") == s.anchor
      && Get(raw, "$comment") == s.comment
      && Get(raw, "$schema") == s.schemaUri
  {
    hide Written, DumpList, DumpChild, DumpBoolOrChild, DumpDict, DumpTypeField, DumpPlain, DumpDiscriminator;
    PlainUnchanged(s.anchor);
    PlainUnchanged(s.comment);
    PlainUnchanged(s.schemaUri);
    FieldRead(s, 12);
    FieldRead(s, 13);
    FieldRead(s, 14);
  }

  lemma {:induction false} KeysWritten(fields: seq<Field>)
    ensures forall key :: key in Written(fields) ==>
      exists i :: 0 <= i < |fields| && DumpField(fields[i]) == key && !Skipped(fields[i])
  {
    if fields != [] {
      KeysWritten(fields[..|fields| - 1]);
      hide DumpField, Skipped;
      forall key | key in Written(fields)
        ensures exists i :: 0 <= i < |fields| && DumpField(fields[i]) == key && !Skipped(fields[i])
      {
        if key in Written(fields[..|fields| - 1]) {
          var i :| 0 <= i < |fields| - 1 && DumpField(fields[..|fields| - 1][i]) == key && !Skipped(fields[i]);
          assert fields[..|fields| - 1][i] == fields[i];
        }
      }
    }
  }

  /**
   * The dumped dict, key by key: every attribute under its own key, unset ones and an empty `required`
   * left out, and no other key.
   */
  ghost predicate KeyByKey(s: Schema, raw: Dict) {
    && Get(raw, "allOf") == DumpList(s.allOf)
    && Get(raw, "anyOf") == DumpList(s.anyOf)
    && Get(raw, "oneOf") == DumpList(s.oneOf)
    && Get(raw, "not") == DumpChild(s.schemaNot)
    && Get(raw, "items") == DumpBoolOrChild(s.items)
    && Get(raw, "properties") == DumpDict(s.properties)
    && Get(raw, "$defs") == DumpDict(s.defs)
    && Get(raw, "type") == DumpTypeField(s.typeField)
    && Get(raw, "const") == s.constValue
    && Get(raw, "maxLength") == s.maxLength
    && Get(raw, "discriminator") == DumpDiscriminator(s.discriminator)
    && Get(raw, "required") == (if Truthy(s.required) then s.required else JNull)
    && Get(raw, "$ref") == s.ref
    && Get(raw, "$anchor") == s.anchor
    && Get(raw, "$comment") == s.comment
    && Get(raw, "$schema") == s.schemaUri
    && forall key :: key in raw ==> key in KEYS && raw[key] != JNull
  }

  lemma {:induction false} DumpedSchema(s: Schema)
    ensures DumpSchema(s).JObject? && KeyByKey(s, DumpSchema(s).fields)
  {
    assert Get(Written(FieldsOf(s)), "required") == (if Truthy(s.required) then s.required else JNull) by {
      hide Written, DumpList, DumpChild, DumpBoolOrChild, DumpDict, DumpTypeField, DumpPlain, DumpDiscriminator;
      PlainUnchanged(s.required);
      FieldRead(s, 9);
    }
    ChildFieldsRead(s);
    PlainFieldsRead(s);
    OtherFieldsRead(s);
    KeysWritten(FieldsOf(s));
    KeysOfFields(s);
    hide FieldsOf, Written, DumpField;
    forall key | key in Written(FieldsOf(s))
      ensures key in KEYS && Written(FieldsOf(s))[key] != JNull
    {
      var i :| 0 <= i < |FieldsOf(s)| && DumpField(FieldsOf(s)[i]) == key && !Skipped(FieldsOf(s)[i]);
      assert KEYS[i] == key;
      FieldRead(s, i);
    }
  }

  /** References and discriminators, key by key. */
  lemma {:induction false} DumpedParts(ref: Json, summary: Json, description: Json, propertyName: Json, mapping: Json)
    ensures var raw := DumpNode(Reference(ref, summary, description));
      && raw.JObject?
      && Get(raw.fields, "$ref") == ref && Get(raw.fields, "summary") == summary
      && Get(raw.fields, "description") == description
    ensures var raw := DumpDiscriminator(Discriminator(propertyName, mapping));
      && raw.JObject?
      && Get(raw.fields, "propertyName") == propertyName && Get(raw.fields, "mapping") == mapping
  {
    PlainUnchanged(ref);
    PlainUnchanged(summary);
    PlainUnchanged(description);
    PlainUnchanged(propertyName);
    PlainUnchanged(mapping);
    hide Written, DumpPlain;
    ReferenceKeys(ref, summary, description);
    DiscriminatorKeys(propertyName, mapping);
  }

  /** Letters become capitals one by one; false are exactly the empty values of every kind. */
  lemma {:induction false} LettersAndTruth(j: Json)
    ensures forall i :: 0 <= i < 26 ==> UpperChar(LOWER[i]) == UPPER[i]
    ensures !Truthy(j) <==>
      j == JNull || j == JBool(false) || j == JNumber(0) || j == JString("") || j == JList([]) || j == JObject(map[])
  {
    assert forall i :: 0 <= i < 26 ==> UPPER[i] as int == 65 + i && LOWER[i] as int == 97 + i;
  }

  /** The texts of the type names. */
  lemma TypeTexts()
    ensures DumpTypeField(One(NullType)) == JString("null") && DumpTypeField(One(BooleanType)) == JString("boolean")
    ensures DumpTypeField(One(ObjectType)) == JString("object") && DumpTypeField(One(ArrayType)) == JString("array")
    ensures DumpTypeField(One(NumberType)) == JString("number") && DumpTypeField(One(StringType)) == JString("string")
    ensures DumpTypeField(One(IntegerType)) == JString("integer")
  {}

  // ---- Parts without children ----

  lemma {:induction false} TypesReload(names: seq<TypeName>)
    ensures LoadTypes(DumpTypes(names)) == Loaded(names)
  {
    if names != [] {
      TypesReload(names[1..]);
      TypeNameReloads(names[0]);
      assert DumpTypes(names)[1..] == DumpTypes(names[1..]);
      assert [names[0]] + names[1..] == names;
    }
  }

  lemma TypeNameReloads(name: TypeName)
    ensures LoadTypeName(JString(TypeText(name))) == Loaded(name)
  {}

  lemma TypeFieldReloads(t: TypeField)
    ensures LoadTypeField(DumpTypeField(t)) == Loaded(t)
  {
    match t
    case NoType =>
    case One(name) => TypeNameReloads(name);
    case Many(names) => TypesReload(names);
  }

  lemma TwoFieldsRead(a: Field, b: Field, keyA: string, keyB: string)
    requires DumpField(a) == keyA && DumpField(b) == keyB && keyA != keyB
    requires a.name != "required" && b.name != "required"
    ensures var raw := Written([a, b]);
      && Get(raw, keyA) == a.value && (keyA in raw <==> a.value != JNull)
      && Get(raw, keyB) == b.value && (keyB in raw <==> b.value != JNull)
  {
    hide DumpField, Written;
    WrittenAt([a, b], 0);
    WrittenAt([a, b], 1);
  }

  lemma DiscriminatorReloads(d: Discriminator)
    ensures LoadDiscriminator(DumpDiscriminator(d))
      == if d.Discriminator? && d.propertyName == JNull then Raised else Loaded(d)
  {
    hide DumpPlain, Camel, Written;
    if d.Discriminator? {
      PlainUnchanged(d.propertyName);
      PlainUnchanged(d.mapping);
      DiscriminatorKeys(d.propertyName, d.mapping);
    }
  }

  lemma DiscriminatorKeys(propertyName: Json, mapping: Json)
    ensures var raw := Written([Field("property_name", None, propertyName), Field("mapping", None, mapping)]);
      && Get(raw, "propertyName") == propertyName && ("propertyName" in raw <==> propertyName != JNull)
      && Get(raw, "mapping") == mapping
  {
    hide Camel, Written;
    assert "property_name" == "property" + "_" + "name" && |"propertyName"| == 12 && |"mapping"| == 7;
    CamelCompound("property", "name");
    CamelPlain("mapping");
    assert "property" + ['N'] + "name"[1..] == "propertyName";
    assert |"property_name"| == 13 && |"required"| == 8;
    TwoFieldsRead(
      Field("property_name", None, propertyName), Field("mapping", None, mapping), "propertyName", "mapping");
  }

  // ---- The order of unions ----

  lemma {:induction false} SelectClean(nodes: seq<Node>, nulls: bool)
    requires CleanList(ChildList(nodes))
    ensures CleanList(ChildList(Select(nodes, nulls)))
  {
    if nodes != [] {
      assert CleanNode(nodes[0]);
      forall i | 0 <= i < |nodes[1..]|
        ensures CleanNode(nodes[1..][i])
      {
        assert CleanNode(nodes[i + 1]);
      }
      SelectClean(nodes[1..], nulls);
    }
  }

  lemma SortedClean(c: ChildList)
    requires CleanList(c)
    ensures CleanList(SortNullLast(c))
  {
    if c.ChildList? {
      SelectClean(c.nodes, false);
      SelectClean(c.nodes, true);
    }
  }

  /** Selecting goes through both halves of a list. */
  lemma {:induction false} SelectAppend(a: seq<Node>, b: seq<Node>, nulls: bool)
    ensures Select(a + b, nulls) == Select(a, nulls) + Select(b, nulls)
  {
    if a == [] {
      assert a + b == b;
    } else {
      assert (a + b)[1..] == a[1..] + b;
      SelectAppend(a[1..], b, nulls);
    }
  }

  lemma {:induction false} SelectTwice(nodes: seq<Node>, nulls: bool, again: bool)
    ensures Select(Select(nodes, nulls), again) == if again == nulls then Select(nodes, nulls) else []
  {
    if nodes != [] {
      SelectTwice(nodes[1..], nulls, again);
      var first := if IsNullType(nodes[0]) == nulls then [nodes[0]] else [];
      SelectAppend(first, Select(nodes[1..], nulls), again);
    }
  }

  lemma {:induction false} SelectPartitions(nodes: seq<Node>)
    ensures multiset(Select(nodes, false)) + multiset(Select(nodes, true)) == multiset(nodes)
  {
    if nodes != [] {
      SelectPartitions(nodes[1..]);
      assert nodes == [nodes[0]] + nodes[1..];
    }
  }

  lemma {:induction false} SelectedKind(nodes: seq<Node>, nulls: bool)
    ensures forall n | n in Select(nodes, nulls) :: IsNullType(n) == nulls
  {
    if nodes != [] {
      SelectedKind(nodes[1..], nulls);
    }
  }

  /** Behind the first schema of type null there are only such schemas. */
  lemma {:induction false} NullsLast(nodes: seq<Node>)
    ensures var sorted := SortNullLast(ChildList(nodes)).nodes;
      && |sorted| == |nodes| && |Select(nodes, false)| <= |nodes|
      && (forall i :: 0 <= i < |Select(nodes, false)| ==>
            !(sorted[i].Sub? && sorted[i].schema.typeField == One(NullType)))
      && (forall i :: |Select(nodes, false)| <= i < |nodes| ==>
            sorted[i].Sub? && sorted[i].schema.typeField == One(NullType))
  {
    var front, back := Select(nodes, false), Select(nodes, true);
    SelectPartitions(nodes);
    SelectedKind(nodes, false);
    SelectedKind(nodes, true);
    hide Select;
    assert multiset(front + back) == multiset(nodes);
    assert |multiset(front + back)| == |front + back| && |multiset(nodes)| == |nodes|;
    assert forall i :: 0 <= i < |front| ==> front[i] in front;
    assert forall i :: 0 <= i < |back| ==> back[i] in back;
  }

  /**
   * The reordering is a permutation, keeps the order among nulls and among the others, and changes
   * nothing the second time.
   */
  lemma {:induction false} SortNullLastLaws(nodes: seq<Node>)
    ensures var sorted := SortNullLast(ChildList(nodes));
      && multiset(sorted.nodes) == multiset(nodes)
      && Select(sorted.nodes, false) == Select(nodes, false)
      && Select(sorted.nodes, true) == Select(nodes, true)
      && SortNullLast(sorted) == sorted
  {
    hide Select;
    SelectPartitions(nodes);
    SelectAppend(Select(nodes, false), Select(nodes, true), false);
    SelectAppend(Select(nodes, false), Select(nodes, true), true);
    SelectTwice(nodes, false, false);
    SelectTwice(nodes, false, true);
    SelectTwice(nodes, true, false);
    SelectTwice(nodes, true, true);
    assert Select(nodes, false) + [] == Select(nodes, false);
    assert [] + Select(nodes, true) == Select(nodes, true);
  }

  // ---- Reloading, part by part ----

  lemma LoadByGet(raw: Dict)
    ensures LoadSchema(JObject(raw)) == Assemble(
      raw, LoadList(Get(raw, "allOf")), LoadList(Get(raw, "anyOf")), LoadList(Get(raw, "oneOf")),
      LoadChild(Get(raw, "not")), LoadBoolOrChild(Get(raw, "items")),
      LoadDict(Get(raw, "properties")), LoadDict(Get(raw, "$defs")))
  {
    hide Assemble;
  }

  /** Whatever comes back is clean, and what was clean comes back in canonical form. */
  lemma {:induction false} NodeReloads(n: Node)
    ensures LoadNode(DumpNode(n)).Loaded? ==> CleanNode(LoadNode(DumpNode(n)).value)
    ensures CleanNode(n) ==> LoadNode(DumpNode(n)) == Loaded(CanonNode(n))
    decreases n, 0
  {
    match n
    case Reference(ref, summary, description) => ReferenceReloads(ref, summary, description);
    case Sub(schema) =>
      SchemaReloads(schema);
      PlainFieldsRead(schema);
      hide LoadSchema, FieldsOf, Written, Clean, Canon;
  }

  lemma ReferenceReloads(ref: Json, summary: Json, description: Json)
    ensures var n := Reference(ref, summary, description);
      && LoadNode(DumpNode(n)).Loaded? && CleanNode(LoadNode(DumpNode(n)).value)
      && (ref != JNull ==> LoadNode(DumpNode(n)) == Loaded(n))
  {
    hide DumpPlain, Written, LoadSchema, Clean;
    PlainUnchanged(ref);
    PlainUnchanged(summary);
    PlainUnchanged(description);
    ReferenceKeys(ref, summary, description);
    var raw := Written(ReferenceFields(ref, summary, description));
    if ref == JNull {
      NothingKnown(raw);
    }
  }

  function ReferenceFields(ref: Json, summary: Json, description: Json): seq<Field> {
    [Field("ref", Some("$ref"), ref), Field("summary", None, summary), Field("description", None, description)]
  }

  lemma ReferenceKeys(ref: Json, summary: Json, description: Json)
    ensures var raw := Written(ReferenceFields(ref, summary, description));
      && Get(raw, "$ref") == ref && ("$ref" in raw <==> ref != JNull)
      && Get(raw, "summary") == summary && Get(raw, "description") == description
      && (ref == JNull ==> forall k :: k in raw ==> |k| == 7 || |k| == 11)
  {
    hide Written, Camel;
    var fields := ReferenceFields(ref, summary, description);
    CamelPlain("summary");
    CamelPlain("description");
    assert DumpField(fields[0]) == "$ref" && DumpField(fields[1]) == "summary" && DumpField(fields[2]) == "description";
    assert |"$ref"| == 4 && |"summary"| == 7 && |"description"| == 11;
    assert |"ref"| == 3 && |"required"| == 8;
    hide DumpField, ReferenceFields;
    assert DistinctKeys(fields);
    WrittenAt(fields, 0);
    WrittenAt(fields, 1);
    WrittenAt(fields, 2);
    forall k | k in Written(fields) && ref == JNull
      ensures |k| == 7 || |k| == 11
    {
      WrittenKeys(fields, k);
    }
  }

  lemma NothingKnown(raw: Dict)
    requires forall k :: k in raw ==> |k| == 7 || |k| == 11
    ensures LoadSchema(JObject(raw)).Loaded? && Clean(LoadSchema(JObject(raw)).value)
  {
    assert |"allOf"| == 5 && |"anyOf"| == 5 && |"oneOf"| == 5 && |"not"| == 3 && |"items"| == 5;
    assert |"properties"| == 10 && |"$defs"| == 5 && |"type"| == 4 && |"discriminator"| == 13 && |"required"| == 8;
  }

  lemma {:induction false} ChildReloads(c: Child)
    ensures LoadChild(DumpChild(c)).Loaded? ==> CleanChild(LoadChild(DumpChild(c)).value)
    ensures CleanChild(c) ==> LoadChild(DumpChild(c)) == Loaded(CanonChild(c))
    decreases c, 0
  {
    if c.Child? {
      NodeReloads(c.node);
      NodeIsDict(c.node);
      hide DumpNode, LoadNode, CleanNode, CanonNode;
    }
  }

  lemma NodeIsDict(n: Node)
    ensures DumpNode(n).JObject?
  {}

  lemma {:induction false} BoolOrChildReloads(c: BoolOrChild)
    ensures LoadBoolOrChild(DumpBoolOrChild(c)).Loaded? ==> CleanBoolOrChild(LoadBoolOrChild(DumpBoolOrChild(c)).value)
    ensures CleanBoolOrChild(c) ==> LoadBoolOrChild(DumpBoolOrChild(c)) == Loaded(CanonBoolOrChild(c))
    decreases c, 0
  {
    if c.Shape? {
      NodeReloads(c.node);
      NodeIsDict(c.node);
      hide DumpNode, LoadNode, CleanNode, CanonNode;
    }
  }

  lemma {:induction false} ListReloads(c: ChildList)
    ensures LoadList(DumpList(c)).Loaded? ==> CleanList(LoadList(DumpList(c)).value)
    ensures CleanList(c) ==> LoadList(DumpList(c)) == Loaded(CanonList(c))
    decreases c, 0
  {
    if c.ChildList? {
      forall i | 0 <= i < |c.nodes|
        ensures LoadNode(DumpNode(c.nodes[i])).Loaded? ==> CleanNode(LoadNode(DumpNode(c.nodes[i])).value)
        ensures CleanNode(c.nodes[i]) ==> LoadNode(DumpNode(c.nodes[i])) == Loaded(CanonNode(c.nodes[i]))
      {
        NodeReloads(c.nodes[i]);
      }
      ListFromNodes(c.nodes);
    }
  }

  lemma ListFromNodes(nodes: seq<Node>)
    requires forall i :: 0 <= i < |nodes| ==>
      && (LoadNode(DumpNode(nodes[i])).Loaded? ==> CleanNode(LoadNode(DumpNode(nodes[i])).value))
      && (CleanNode(nodes[i]) ==> LoadNode(DumpNode(nodes[i])) == Loaded(CanonNode(nodes[i])))
    ensures var c := ChildList(nodes);
      && (LoadList(DumpList(c)).Loaded? ==> CleanList(LoadList(DumpList(c)).value))
      && (CleanList(c) ==> LoadList(DumpList(c)) == Loaded(CanonList(c)))
  {
    hide DumpNode, LoadNode, CleanNode, CanonNode;
    var c := ChildList(nodes);
    var raw := DumpList(c);
    assert raw.JList? && |raw.items| == |nodes|;
    assert forall i :: 0 <= i < |nodes| ==> raw.items[i] == DumpNode(nodes[i]);
    if CleanList(c) {
      assert forall i :: 0 <= i < |nodes| ==> LoadNode(raw.items[i]) == Loaded(CanonNode(nodes[i]));
      assert LoadList(raw).Loaded?;
      assert LoadList(raw).value.nodes == CanonList(c).nodes;
    }
  }

  lemma {:induction false} DictReloads(c: ChildDict)
    ensures LoadDict(DumpDict(c)).Loaded? ==> CleanDict(LoadDict(DumpDict(c)).value)
    ensures CleanDict(c) ==> LoadDict(DumpDict(c)) == Loaded(CanonDict(c))
    decreases c, 0
  {
    if c.ChildDict? {
      forall k | k in c.nodes
        ensures LoadNode(DumpNode(c.nodes[k])).Loaded? ==> CleanNode(LoadNode(DumpNode(c.nodes[k])).value)
        ensures CleanNode(c.nodes[k]) ==> LoadNode(DumpNode(c.nodes[k])) == Loaded(CanonNode(c.nodes[k]))
      {
        NodeReloads(c.nodes[k]);
      }
      DictFromNodes(c.nodes);
    }
  }

  lemma DictFromNodes(nodes: map<string, Node>)
    requires forall k :: k in nodes ==>
      && (LoadNode(DumpNode(nodes[k])).Loaded? ==> CleanNode(LoadNode(DumpNode(nodes[k])).value))
      && (CleanNode(nodes[k]) ==> LoadNode(DumpNode(nodes[k])) == Loaded(CanonNode(nodes[k])))
    ensures var c := ChildDict(nodes);
      && (LoadDict(DumpDict(c)).Loaded? ==> CleanDict(LoadDict(DumpDict(c)).value))
      && (CleanDict(c) ==> LoadDict(DumpDict(c)) == Loaded(CanonDict(c)))
  {
    hide DumpNode, LoadNode, CleanNode, CanonNode;
    var c := ChildDict(nodes);
    var raw := DumpDict(c);
    assert raw.JObject? && raw.fields.Keys == nodes.Keys;
    if CleanDict(c) {
      assert forall k :: k in nodes ==> LoadNode(raw.fields[k]) == Loaded(CanonNode(nodes[k]));
      assert LoadDict(raw).Loaded?;
      assert LoadDict(raw).value.nodes == CanonDict(c).nodes;
    }
  }

  lemma {:induction false} SchemaReloads(s: Schema)
    ensures LoadSchema(DumpSchema(s)).Loaded? ==> Clean(LoadSchema(DumpSchema(s)).value)
    ensures Clean(s) ==> LoadSchema(DumpSchema(s)) == Loaded(Canon(s))
    decreases s, 1
  {
    ListReloads(s.allOf);
    ListReloads(s.anyOf);
    ListReloads(s.oneOf);
    ChildReloads(s.schemaNot);
    BoolOrChildReloads(s.items);
    DictReloads(s.properties);
    DictReloads(s.defs);
    SchemaFromParts(s);
  }

  /** The two facts about a part that make the schema come back. */
  ghost predicate ListOk(c: ChildList) {
    && (LoadList(DumpList(c)).Loaded? ==> CleanList(LoadList(DumpList(c)).value))
    && (CleanList(c) ==> LoadList(DumpList(c)) == Loaded(CanonList(c)))
  }

  ghost predicate DictOk(c: ChildDict) {
    && (LoadDict(DumpDict(c)).Loaded? ==> CleanDict(LoadDict(DumpDict(c)).value))
    && (CleanDict(c) ==> LoadDict(DumpDict(c)) == Loaded(CanonDict(c)))
  }

  lemma SchemaFromParts(s: Schema)
    requires ListOk(s.allOf) && ListOk(s.anyOf) && ListOk(s.oneOf) && DictOk(s.properties) && DictOk(s.defs)
    requires LoadChild(DumpChild(s.schemaNot)).Loaded? ==> CleanChild(LoadChild(DumpChild(s.schemaNot)).value)
    requires CleanChild(s.schemaNot) ==> LoadChild(DumpChild(s.schemaNot)) == Loaded(CanonChild(s.schemaNot))
    requires LoadBoolOrChild(DumpBoolOrChild(s.items)).Loaded? ==>
      CleanBoolOrChild(LoadBoolOrChild(DumpBoolOrChild(s.items)).value)
    requires CleanBoolOrChild(s.items) ==>
      LoadBoolOrChild(DumpBoolOrChild(s.items)) == Loaded(CanonBoolOrChild(s.items))
    ensures LoadSchema(DumpSchema(s)).Loaded? ==> Clean(LoadSchema(DumpSchema(s)).value)
    ensures Clean(s) ==> LoadSchema(DumpSchema(s)) == Loaded(Canon(s))
  {
    TypeFieldReloads(s.typeField);
    hide DumpList, DumpChild, DumpBoolOrChild, DumpDict, LoadList, LoadChild, LoadBoolOrChild, LoadDict,
      CleanList, CleanChild, CleanBoolOrChild, CleanDict, CanonList, CanonChild, CanonBoolOrChild, CanonDict,
      DumpTypeField, DumpDiscriminator, LoadTypeField, LoadDiscriminator, SortNullLast, LoadSchema, Written, FieldsOf;
    var raw := Written(FieldsOf(s));
    ChildFieldsRead(s);
    PlainFieldsRead(s);
    LoadByGet(raw);
    DiscriminatorReloads(s.discriminator);
    var anyOf, oneOf := LoadList(DumpList(s.anyOf)), LoadList(DumpList(s.oneOf));
    if anyOf.Loaded? {
      SortedClean(anyOf.value);
    }
    if oneOf.Loaded? {
      SortedClean(oneOf.value);
    }
  }

  // ---- The canonical form is one ----

  function CanonAll(nodes: seq<Node>): (r: seq<Node>)
    ensures |r| == |nodes| && forall i :: 0 <= i < |r| ==> r[i] == CanonNode(nodes[i])
  {
    if nodes == [] then [] else [CanonNode(nodes[0])] + CanonAll(nodes[1..])
  }

  lemma CanonListIsAll(nodes: seq<Node>)
    ensures CanonList(ChildList(nodes)) == ChildList(CanonAll(nodes))
  {
    hide CanonNode;
    assert CanonList(ChildList(nodes)).nodes == CanonAll(nodes);
  }

  lemma CanonKeepsNullness(n: Node)
    ensures IsNullType(CanonNode(n)) <==> IsNullType(n)
  {}

  lemma {:induction false} CanonSelects(nodes: seq<Node>, nulls: bool)
    ensures Select(CanonAll(nodes), nulls) == CanonAll(Select(nodes, nulls))
  {
    hide CanonNode, IsNullType;
    if nodes != [] {
      CanonKeepsNullness(nodes[0]);
      CanonSelects(nodes[1..], nulls);
      assert CanonAll(nodes)[1..] == CanonAll(nodes[1..]);
      if IsNullType(nodes[0]) == nulls {
        assert ([nodes[0]] + Select(nodes[1..], nulls))[1..] == Select(nodes[1..], nulls);
      }
    }
  }

  lemma {:induction false} CanonAllAppend(a: seq<Node>, b: seq<Node>)
    ensures CanonAll(a + b) == CanonAll(a) + CanonAll(b)
  {
    hide CanonNode;
  }

  /** Putting nulls last before or after the children are in canonical form is the same. */
  lemma SortingCommutes(c: ChildList)
    ensures CanonList(SortNullLast(c)) == SortNullLast(CanonList(c))
  {
    assert CanonList(NoList) == NoList;
    hide CanonNode, IsNullType, Select, CanonAll, CanonList;
    if c.ChildList? {
      CanonListIsAll(c.nodes);
      CanonListIsAll(SortNullLast(c).nodes);
      CanonAllAppend(Select(c.nodes, false), Select(c.nodes, true));
      CanonSelects(c.nodes, false);
      CanonSelects(c.nodes, true);
    } else {
    }
  }

  lemma {:induction false} CanonListTwice(c: ChildList)
    ensures CanonList(CanonList(c)) == CanonList(c)
    ensures SortNullLast(CanonList(SortNullLast(CanonList(c)))) == SortNullLast(CanonList(c))
    decreases c, 0
  {
    if c.ChildList? {
      forall i | 0 <= i < |c.nodes|
        ensures CanonNode(CanonNode(c.nodes[i])) == CanonNode(c.nodes[i])
      {
        CanonNodeTwice(c.nodes[i]);
      }
      assert CanonList(CanonList(c)).nodes == CanonList(c).nodes;
    }
    SortingCommutes(CanonList(c));
    if c.ChildList? {
      SortNullLastLaws(CanonList(c).nodes);
    }
  }

  lemma {:induction false} CanonDictTwice(c: ChildDict)
    ensures CanonDict(CanonDict(c)) == CanonDict(c)
    decreases c, 0
  {
    if c.ChildDict? {
      forall k | k in c.nodes
        ensures CanonNode(CanonNode(c.nodes[k])) == CanonNode(c.nodes[k])
      {
        CanonNodeTwice(c.nodes[k]);
      }
      assert CanonDict(CanonDict(c)).nodes == CanonDict(c).nodes;
    }
  }

  lemma {:induction false} CanonNodeTwice(n: Node)
    ensures CanonNode(CanonNode(n)) == CanonNode(n)
    decreases n, 0
  {
    if n.Sub? {
      CanonTwice(n.schema);
    }
  }

  /** Canonical schemas are their own canonical form. */
  lemma {:induction false} CanonTwice(s: Schema)
    ensures Canon(Canon(s)) == Canon(s)
    decreases s, 1
  {
    hide CanonList, CanonDict, SortNullLast, CanonNode;
    CanonListTwice(s.allOf);
    CanonListTwice(s.anyOf);
    CanonListTwice(s.oneOf);
    CanonDictTwice(s.properties);
    CanonDictTwice(s.defs);
    if s.schemaNot.Child? {
      CanonNodeTwice(s.schemaNot.node);
    }
    if s.items.Shape? {
      CanonNodeTwice(s.items.node);
    }
  }

  lemma {:induction false} SelectCovers(nodes: seq<Node>)
    requires CleanList(ChildList(Select(nodes, false))) && CleanList(ChildList(Select(nodes, true)))
    ensures CleanList(ChildList(nodes))
  {
    hide CleanNode;
    if nodes != [] {
      var mine, other := IsNullType(nodes[0]), !IsNullType(nodes[0]);
      var rest := nodes[1..];
      assert Select(nodes, mine) == [nodes[0]] + Select(rest, mine);
      assert Select(nodes, other) == Select(rest, other);
      assert CleanNode(Select(nodes, mine)[0]);
      forall i | 0 <= i < |Select(rest, mine)|
        ensures CleanNode(Select(rest, mine)[i])
      {
        assert CleanNode(Select(nodes, mine)[i + 1]);
      }
      SelectCovers(rest);
      forall i | 0 <= i < |nodes|
        ensures CleanNode(nodes[i])
      {
        if i > 0 {
          assert CleanNode(rest[i - 1]);
        }
      }
    }
  }

  lemma SortedCleanBack(c: ChildList)
    requires CleanList(SortNullLast(c))
    ensures CleanList(c)
  {
    hide CleanNode;
    if c.ChildList? {
      var a, b := Select(c.nodes, false), Select(c.nodes, true);
      forall i | 0 <= i < |a|
        ensures CleanNode(a[i])
      {
        assert CleanNode((a + b)[i]);
      }
      forall i | 0 <= i < |b|
        ensures CleanNode(b[i])
      {
        assert CleanNode((a + b)[|a| + i]);
      }
      SelectCovers(c.nodes);
    }
  }

  lemma {:induction false} CanonListCleanBack(c: ChildList)
    requires CleanList(CanonList(c))
    ensures CleanList(c)
    decreases c, 0
  {
    if c.ChildList? {
      forall i | 0 <= i < |c.nodes|
        ensures CleanNode(c.nodes[i])
      {
        assert CleanNode(CanonList(c).nodes[i]);
        CanonNodeCleanBack(c.nodes[i]);
      }
    }
  }

  lemma {:induction false} CanonDictCleanBack(c: ChildDict)
    requires CleanDict(CanonDict(c))
    ensures CleanDict(c)
    decreases c, 0
  {
    if c.ChildDict? {
      forall k | k in c.nodes
        ensures CleanNode(c.nodes[k])
      {
        assert CleanNode(CanonDict(c).nodes[k]);
        CanonNodeCleanBack(c.nodes[k]);
      }
    }
  }

  lemma {:induction false} CanonNodeCleanBack(n: Node)
    requires CleanNode(CanonNode(n))
    ensures CleanNode(n)
    decreases n, 0
  {
    if n.Sub? {
      CanonCleanBack(n.schema);
    }
  }

  /** The canonical form repairs nothing: a schema is clean if its canonical form is. */
  lemma {:induction false} CanonCleanBack(s: Schema)
    requires Clean(Canon(s))
    ensures Clean(s)
    decreases s, 1
  {
    hide CleanList, CleanDict, CanonList, CanonDict, SortNullLast, CleanNode, CanonNode;
    SortedCleanBack(CanonList(s.anyOf));
    SortedCleanBack(CanonList(s.oneOf));
    CanonListCleanBack(s.allOf);
    CanonListCleanBack(s.anyOf);
    CanonListCleanBack(s.oneOf);
    CanonDictCleanBack(s.properties);
    CanonDictCleanBack(s.defs);
    if s.schemaNot.Child? {
      CanonNodeCleanBack(s.schemaNot.node);
    }
    if s.items.Shape? {
      CanonNodeCleanBack(s.items.node);
    }
  }

  // ---- Which inputs the loader takes ----

  ghost predicate TypeNameText(raw: Json) {
    raw.JString? && raw.text in {"null", "boolean", "object", "array", "number", "string", "integer"}
  }

  ghost predicate TypeOk(raw: Json) {
    raw == JNull || TypeNameText(raw) || (raw.JList? && forall item | item in raw.items :: TypeNameText(item))
  }

  ghost predicate DiscriminatorOk(raw: Json) {
    raw == JNull || (raw.JObject? && "propertyName" in raw.fields)
  }

  /** A reference or a schema; both have to be dicts. */
  ghost predicate NodeOk(raw: Json)
    decreases raw, 1
  {
    raw.JObject? && ("$ref" in raw.fields || SchemaOk(raw))
  }

  /** Whatever can be iterated over and has only nodes in it; iterating over text or a dict gives text. */
  ghost predicate NodesOk(raw: Json)
    decreases raw, 2
  {
    || raw in {JNull, JString(""), JObject(map[])}
    || (raw.JList? && forall i :: 0 <= i < |raw.items| ==> NodeOk(raw.items[i]))
  }

  ghost predicate DictOfNodes(raw: Json)
    decreases raw, 2
  {
    raw == JNull || (raw.JObject? && forall k :: k in raw.fields ==> NodeOk(raw.fields[k]))
  }

  /** The grammar of what `load_schema` accepts. */
  ghost predicate SchemaOk(raw: Json)
    decreases raw, 0
  {
    && raw.JObject?
    && ("allOf" in raw.fields ==> NodesOk(raw.fields["allOf"]))
    && ("anyOf" in raw.fields ==> NodesOk(raw.fields["anyOf"]))
    && ("oneOf" in raw.fields ==> NodesOk(raw.fields["oneOf"]))
    && ("properties" in raw.fields ==> DictOfNodes(raw.fields["properties"]))
    && ("$defs" in raw.fields ==> DictOfNodes(raw.fields["$defs"]))
    && ("not" in raw.fields ==> raw.fields["not"] == JNull || NodeOk(raw.fields["not"]))
    && ("items" in raw.fields ==>
          raw.fields["items"] == JNull || raw.fields["items"].JBool? || NodeOk(raw.fields["items"]))
    && TypeOk(Get(raw.fields, "type"))
    && DiscriminatorOk(Get(raw.fields, "discriminator"))
  }

  lemma TypeNameTaken(raw: Json)
    ensures LoadTypeName(raw).Loaded? <==> TypeNameText(raw)
  {
    TypeTexts();
  }

  lemma {:induction false} TypesTaken(raw: seq<Json>)
    ensures LoadTypes(raw).Loaded? <==> forall item | item in raw :: TypeNameText(item)
  {
    hide LoadTypeName, TypeNameText;
    if raw != [] {
      TypeNameTaken(raw[0]);
      TypesTaken(raw[1..]);
      assert forall item :: item in raw <==> item == raw[0] || item in raw[1..];
    }
  }

  lemma {:induction false} NodeTaken(raw: Json)
    ensures LoadNode(raw).Loaded? <==> NodeOk(raw)
    decreases raw, 1
  {
    hide LoadSchema, SchemaOk;
    SchemaTaken(raw);
    if !raw.JObject? {
      NoDictRaises(raw);
    }
  }

  lemma NoDictRaises(raw: Json)
    requires !raw.JObject?
    ensures LoadSchema(raw).Raised?
  {}

  lemma {:induction false} NodesTaken(raw: Json)
    ensures LoadList(raw).Loaded? <==> NodesOk(raw)
    decreases raw, 2
  {
    hide LoadNode, NodeOk;
    if raw.JList? {
      var items := raw.items;
      var nodes := seq(|items|, i requires 0 <= i < |items| => LoadNode(items[i]));
      forall i | 0 <= i < |items|
        ensures nodes[i] == LoadNode(items[i]) && (nodes[i].Loaded? <==> NodeOk(items[i]))
      {
        NodeTaken(items[i]);
      }
      assert LoadList(raw).Raised? <==> exists i :: 0 <= i < |nodes| && nodes[i].Raised?;
    }
  }

  lemma {:induction false} DictTaken(raw: Json)
    ensures LoadDict(raw).Loaded? <==> DictOfNodes(raw)
    decreases raw, 2
  {
    hide LoadNode, NodeOk;
    if raw.JObject? {
      var fields := raw.fields;
      var nodes := map k | k in fields :: LoadNode(fields[k]);
      forall k | k in fields
        ensures nodes[k] == LoadNode(fields[k]) && (nodes[k].Loaded? <==> NodeOk(fields[k]))
      {
        NodeTaken(fields[k]);
      }
      assert LoadDict(raw).Raised? <==> exists k :: k in nodes && nodes[k].Raised?;
    }
  }

  lemma {:induction false} ChildTaken(raw: Json)
    ensures LoadChild(raw).Loaded? <==> raw == JNull || NodeOk(raw)
    ensures LoadBoolOrChild(raw).Loaded? <==> raw == JNull || raw.JBool? || NodeOk(raw)
    decreases raw, 2
  {
    hide LoadNode, NodeOk;
    NodeTaken(raw);
  }

  lemma {:induction false} ListKeyTaken(raw: Json, key: string)
    requires raw.JObject?
    ensures LoadList(Get(raw.fields, key)).Loaded? <==> (key in raw.fields ==> NodesOk(raw.fields[key]))
    decreases raw, 0, 0
  {
    if key in raw.fields {
      hide LoadList, NodesOk;
      NodesTaken(raw.fields[key]);
    }
  }

  lemma {:induction false} DictKeyTaken(raw: Json, key: string)
    requires raw.JObject?
    ensures LoadDict(Get(raw.fields, key)).Loaded? <==> (key in raw.fields ==> DictOfNodes(raw.fields[key]))
    decreases raw, 0, 0
  {
    if key in raw.fields {
      hide LoadDict, DictOfNodes;
      DictTaken(raw.fields[key]);
    }
  }

  lemma {:induction false} ChildKeyTaken(raw: Json, key: string)
    requires raw.JObject?
    ensures LoadChild(Get(raw.fields, key)).Loaded?
      <==> (key in raw.fields ==> raw.fields[key] == JNull || NodeOk(raw.fields[key]))
    ensures LoadBoolOrChild(Get(raw.fields, key)).Loaded?
      <==> (key in raw.fields ==> raw.fields[key] == JNull || raw.fields[key].JBool? || NodeOk(raw.fields[key]))
    decreases raw, 0, 0
  {
    if key in raw.fields {
      hide LoadChild, LoadBoolOrChild, NodeOk;
      ChildTaken(raw.fields[key]);
    }
  }

  lemma AssembleTaken(raw: Dict, allOf: Loaded<ChildList>, anyOf: Loaded<ChildList>, oneOf: Loaded<ChildList>,
                      schemaNot: Loaded<Child>, items: Loaded<BoolOrChild>, properties: Loaded<ChildDict>,
                      defs: Loaded<ChildDict>)
    ensures Assemble(raw, allOf, anyOf, oneOf, schemaNot, items, properties, defs).Loaded?
      <==>
      && allOf.Loaded? && anyOf.Loaded? && oneOf.Loaded? && schemaNot.Loaded? && items.Loaded? && properties.Loaded?
      && defs.Loaded? && TypeOk(Get(raw, "type")) && DiscriminatorOk(Get(raw, "discriminator"))
  {
    assert LoadTypeField(Get(raw, "type")).Loaded? <==> TypeOk(Get(raw, "type")) by {
      hide LoadTypeName, LoadTypes;
      TypeNameTaken(Get(raw, "type"));
      if Get(raw, "type").JList? {
        TypesTaken(Get(raw, "type").items);
      }
    }
    assert LoadDiscriminator(Get(raw, "discriminator")).Loaded? <==> DiscriminatorOk(Get(raw, "discriminator"));
    hide TypeOk, DiscriminatorOk, LoadTypeField, LoadDiscriminator;
  }

  /** `load_schema` raises exactly on what is not of this form. */
  lemma {:induction false} SchemaTaken(raw: Json)
    ensures LoadSchema(raw).Loaded? <==> SchemaOk(raw)
    decreases raw, 0, 1
  {
    if !raw.JObject? {
      NoDictRaises(raw);
    } else {
      hide LoadList, LoadDict, LoadChild, LoadBoolOrChild, LoadSchema, Assemble, Get;
      hide NodesOk, NodeOk, DictOfNodes, TypeOk, DiscriminatorOk;
      var r := raw.fields;
      ListKeyTaken(raw, "allOf");
      ListKeyTaken(raw, "anyOf");
      ListKeyTaken(raw, "oneOf");
      ChildKeyTaken(raw, "not");
      ChildKeyTaken(raw, "items");
      DictKeyTaken(raw, "properties");
      DictKeyTaken(raw, "$defs");
      LoadByGet(r);
      AssembleTaken(
        r, LoadList(Get(r, "allOf")), LoadList(Get(r, "anyOf")), LoadList(Get(r, "oneOf")),
        LoadChild(Get(r, "not")), LoadBoolOrChild(Get(r, "items")),
        LoadDict(Get(r, "properties")), LoadDict(Get(r, "$defs")));
    }
  }

  // ---- Results ----

  /**
   * Round trip, with its exact condition: loading a dumped schema gives its canonical form if and
   * only if the schema is clean, at every depth.
   */
  lemma {:induction false} RoundTrip(s: Schema)
    ensures LoadSchema(DumpSchema(s)) == Loaded(Canon(s)) <==> Clean(s)
  {
    hide *;
    SchemaReloads(s);
    if LoadSchema(DumpSchema(s)) == Loaded(Canon(s)) {
      CanonCleanBack(s);
    }
  }

  /** The failing inputs: a comment, like each of the other three fields that the loader leaves unset. */
  lemma {:induction false} CommentIsLost(s: Schema)
    requires s.comment != JNull
    ensures LoadSchema(DumpSchema(s)) != Loaded(Canon(s))
  {
    hide LoadSchema, DumpSchema, Canon;
    RoundTrip(s);
  }

  /** One round trip settles everything: dumping and loading the result again returns the very same schema. */
  lemma {:induction false} SecondRoundTrip(s: Schema)
    requires Clean(s)
    ensures Clean(Canon(s)) && LoadSchema(DumpSchema(Canon(s))) == Loaded(Canon(s))
  {
    hide *;
    SchemaReloads(s);
    SchemaReloads(Canon(s));
    CanonTwice(s);
  }
}
