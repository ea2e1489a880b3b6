/**
 The typed wire values of the protocol (echo-sdk-protocol/src/scalar.rs) and their projection to
 JSON (echo-sdk-protocol/src/methods.rs, `wire_value_to_json`).
 */
module WireValues {
  import opened Prelude
  import opened Sorting

  /** A 64-bit float, as far as the projection tells floats apart. */
  datatype Float = Finite(value: real) | NonFinite

  datatype ScalarKind = Bytes | Duration | Timestamp | Path | Handle

  /** `I64` and `U64` carry decimal text. The structured scalars are opaque here. */
  datatype WireValue =
    | Null
    | Bool(value: bool)
    | String(text: string)
    | I64(decimal: string)
    | U64(decimal: string)
    | F64(float: Float)
    | Scalar(kind: ScalarKind, content: string)
    | List(values: seq<WireValue>)
    | Map(entries: seq<MapEntry>)
    | Record(typeId: string, fields: seq<Field>)
    | Variant(typeId: string, variant: string, fields: seq<Field>)
    | Unknown(typeTag: string, payload: Option<WireValue>)

  datatype Field = Field(name: string, value: WireValue)

  datatype MapEntry = MapEntry(key: WireValue, value: WireValue)

  datatype Json =
    | JNull
    | JBool(b: bool)
    | JNumber(n: real)
    | JString(s: string)
    | JArray(elements: seq<Json>)
    | JObject(members: map<string, Json>)

  datatype WireError =
    | NonFiniteNumber
    | KeysMustBeStrings
    | Duplicate(name: string)

  function Names(fields: seq<Field>): (names: seq<string>)
    ensures |names| == |fields| && forall i :: 0 <= i < |names| ==> names[i] == fields[i].name
  {
    Each(fields, (f: Field) => f.name)
  }

  /** A map's entries as fields, if its keys are strings. */
  function AsFields(entries: seq<MapEntry>): (r: Option<seq<Field>>)
    ensures r.Some? <==> forall i :: 0 <= i < |entries| ==> entries[i].key.String?
    ensures r.Some? ==> |r.value| == |entries| && forall i :: 0 <= i < |entries| ==>
                          r.value[i] == Field(entries[i].key.text, entries[i].value)
  {
    if forall i :: 0 <= i < |entries| ==> entries[i].key.String? then
      Some(seq(|entries|, i requires 0 <= i < |entries| => Field(entries[i].key.text, entries[i].value)))
    else None
  }

  function AsEntries(fields: seq<Field>): (entries: seq<MapEntry>)
    ensures AsFields(entries) == Some(fields)
  {
    var entries := seq(|fields|, i requires 0 <= i < |fields| => MapEntry(String(fields[i].name), fields[i].value));
    assert AsFields(entries).value == fields;
    entries
  }

  // ----- Fields by name -----

  /** The first field of a name. */
  function Lookup(fields: seq<Field>, name: string): Option<WireValue> {
    if fields == [] then None
    else if fields[0].name == name then Some(fields[0].value)
    else Lookup(fields[1..], name)
  }

  lemma {:induction false} LookupIsMembership(fields: seq<Field>, name: string, value: WireValue)
    requires Distinct(Names(fields))
    ensures Lookup(fields, name) == Some(value) <==> Field(name, value) in fields
  {
    if fields != [] {
      var rest := fields[1..];
      assert fields == [fields[0]] + rest;
      var names := Names(fields);
      assert Names(rest) == names[1..];
      DistinctByHead(names, (x: string) => x);
      LookupIsMembership(rest, name, value);
      if Field(name, value) in rest {
        var i :| 0 <= i < |rest| && rest[i] == Field(name, value);
        assert names[1..][i] == name;
      }
    }
  }

  lemma LookupIgnoresOrder(a: seq<Field>, b: seq<Field>, name: string)
    requires multiset(a) == multiset(b) && Distinct(Names(a)) && Distinct(Names(b))
    ensures Lookup(a, name) == Lookup(b, name)
  {
    if Lookup(a, name).Some? {
      var v := Lookup(a, name).value;
      LookupIsMembership(a, name, v);
      assert Field(name, v) in multiset(b);
      LookupIsMembership(b, name, v);
    } else if Lookup(b, name).Some? {
      var v := Lookup(b, name).value;
      LookupIsMembership(b, name, v);
      assert Field(name, v) in multiset(a);
      LookupIsMembership(a, name, v);
    }
  }

  /** Distinct names: no field twice, and no two fields of one name. */
  lemma DistinctNames(fields: seq<Field>)
    ensures Distinct(Names(fields)) <==>
            Distinct(fields) && forall x, y :: x in fields && y in fields && x.name == y.name ==> x == y
  {
    var names := Names(fields);
    if Distinct(names) {
      forall i, j | 0 <= i < j < |fields|
        ensures fields[i] != fields[j] && fields[i].name != fields[j].name
      {
        assert names[i] != names[j];
      }
    }
  }

  lemma PermutedNames(a: seq<Field>, b: seq<Field>)
    requires multiset(a) == multiset(b)
    ensures forall x :: x in a <==> x in b
    ensures Distinct(Names(a)) <==> Distinct(Names(b))
  {
    forall x
      ensures x in a <==> x in b
    {
      assert x in a <==> x in multiset(a);
      assert x in b <==> x in multiset(b);
    }
    DistinctNames(a);
    DistinctNames(b);
    DistinctIffMultiplicityOne(a);
    DistinctIffMultiplicityOne(b);
  }

  lemma {:induction false} LookupAppend(fields: seq<Field>, f: Field, name: string)
    ensures Lookup(fields + [f], name) == (if Lookup(fields, name).Some? then Lookup(fields, name)
                                           else if f.name == name then Some(f.value) else None)
  {
    if fields != [] {
      assert (fields + [f])[1..] == fields[1..] + [f];
      LookupAppend(fields[1..], f, name);
    }
  }

  lemma {:induction false} LookupFinds(fields: seq<Field>, name: string)
    ensures Lookup(fields, name).Some? <==> exists i :: 0 <= i < |fields| && fields[i].name == name
  {
    if fields != [] {
      var rest := fields[1..];
      assert forall i :: 0 <= i < |rest| ==> rest[i] == fields[i + 1];
      LookupFinds(rest, name);
      if i :| 1 <= i < |fields| && fields[i].name == name {
        assert rest[i - 1].name == name;
      }
    }
  }

  // ----- What can be projected, and to what -----

  /** All floats below are finite, all map keys strings, and no map, record or variant repeats a key. */
  predicate Convertible(v: WireValue) {
    match v
    case F64(float) => float.Finite?
    case List(values) => forall i :: 0 <= i < |values| ==> Convertible(values[i])
    case Map(entries) =>
      && AsFields(entries).Some? && Distinct(Names(AsFields(entries).value))
      && forall i :: 0 <= i < |entries| ==> Convertible(entries[i].value)
    case Record(_, fields) => Distinct(Names(fields)) && forall i :: 0 <= i < |fields| ==> Convertible(fields[i].value)
    case Variant(_, _, fields) =>
      Distinct(Names(fields)) && forall i :: 0 <= i < |fields| ==> Convertible(fields[i].value)
    case _ => true
  }

  function EventObject(event: string, data: map<string, Json>): Json {
    JObject(map["event" := JString(event)] + (if data == map[] then map[] else map["data" := JObject(data)]))
  }

  /** The projection of a convertible value. `serde` is the derived encoding of opaque values. */
  function JsonOf(v: WireValue, serde: WireValue -> Json): Json
    decreases v, 1
  {
    match v
    case Null => JNull
    case Bool(value) => JBool(value)
    case String(text) => JString(text)
    case I64(decimal) => JString(decimal)
    case U64(decimal) => JString(decimal)
    case F64(float) => if float.Finite? then JNumber(float.value) else JNull
    case Scalar(_, _) => serde(v)
    case Unknown(_, _) => serde(v)
    case List(values) => JArray(seq(|values|, i requires 0 <= i < |values| => JsonOf(values[i], serde)))
    case Map(entries) => JObject(EntriesOf(entries, serde))
    case Record(_, fields) => JObject(MembersOf(fields, serde))
    case Variant(_, variant, fields) => EventObject(variant, MembersOf(fields, serde))
  }

  function MembersOf(fields: seq<Field>, serde: WireValue -> Json): map<string, Json>
    decreases fields, 0
  {
    if fields == [] then map[]
    else
      var last := fields[|fields| - 1];
      MembersOf(fields[..|fields| - 1], serde)[last.name := JsonOf(last.value, serde)]
  }

  function EntriesOf(entries: seq<MapEntry>, serde: WireValue -> Json): map<string, Json>
    decreases entries, 0
  {
    if entries == [] then map[]
    else
      var last := entries[|entries| - 1];
      var members := EntriesOf(entries[..|entries| - 1], serde);
      assert last.value < last;
      if last.key.String? then members[last.key.text := JsonOf(last.value, serde)] else members
  }

  lemma NamedByField(fields: seq<Field>, name: string)
    ensures Lookup(fields, name).Some? <==> name in Names(fields)
  {
    LookupFinds(fields, name);
    assert forall i :: 0 <= i < |fields| ==> Names(fields)[i] == fields[i].name;
  }

  /** An object has members for the names of its fields, and no other. */
  lemma {:induction false} MembersAreNames(fields: seq<Field>, serde: WireValue -> Json, name: string)
    ensures name in MembersOf(fields, serde) <==> Lookup(fields, name).Some?
    ensures name in MembersOf(fields, serde) <==> name in Names(fields)
  {
    NamedByField(fields, name);
    if fields != [] {
      var n := |fields| - 1;
      assert fields == fields[..n] + [fields[n]];
      MembersAreNames(fields[..n], serde, name);
      LookupAppend(fields[..n], fields[n], name);
    }
  }

  /** Each field's member is the projection of that field's value. */
  lemma {:induction false} MembersAreFields(fields: seq<Field>, serde: WireValue -> Json, i: nat)
    requires Distinct(Names(fields)) && i < |fields|
    ensures fields[i].name in MembersOf(fields, serde)
    ensures MembersOf(fields, serde)[fields[i].name] == JsonOf(fields[i].value, serde)
  {
    var n := |fields| - 1;
    if i < n {
      DistinctPrefix(fields, n);
      MembersAreFields(fields[..n], serde, i);
      assert Names(fields)[i] != Names(fields)[n];
    }
  }

  lemma DistinctPrefix(fields: seq<Field>, n: nat)
    requires n <= |fields| && Distinct(Names(fields))
    ensures Distinct(Names(fields[..n]))
  {
    forall i, j | 0 <= i < j < n
      ensures Names(fields[..n])[i] != Names(fields[..n])[j]
    {
      assert Names(fields)[i] != Names(fields)[j];
    }
  }

  lemma NextName(fields: seq<Field>, n: nat)
    requires n < |fields| && Distinct(Names(fields[..n]))
    ensures Distinct(Names(fields[..n + 1])) <==> Lookup(fields[..n], fields[n].name).None?
    ensures Distinct(Names(fields)) ==> Distinct(Names(fields[..n + 1]))
  {
    var init, last := fields[..n], fields[n];
    assert fields[..n + 1] == init + [last];
    var names := Names(init + [last]);
    assert forall i :: 0 <= i < n ==> names[i] == Names(init)[i] == init[i].name;
    assert names[n] == last.name;
    LookupFinds(init, last.name);
    if Distinct(Names(fields)) {
      DistinctPrefix(fields, n + 1);
    }
  }

  /** A map projects like the record of its entries. */
  lemma {:induction false} MapsAreRecords(fields: seq<Field>, serde: WireValue -> Json)
    ensures EntriesOf(AsEntries(fields), serde) == MembersOf(fields, serde)
  {
    if fields != [] {
      var init := fields[..|fields| - 1];
      assert AsEntries(fields)[..|fields| - 1] == AsEntries(init);
      MapsAreRecords(init, serde);
    }
  }

  // ----- What a value's JSON looks like, told by its members and elements -----

  predicate NamesAre(members: map<string, Json>, fields: seq<Field>) {
    && (forall i :: 0 <= i < |fields| ==> fields[i].name in members)
    && forall name :: name in members ==> exists i :: 0 <= i < |fields| && fields[i].name == name
  }

  predicate KeysAre(members: map<string, Json>, entries: seq<MapEntry>) {
    && (forall i :: 0 <= i < |entries| ==> entries[i].key.String? && entries[i].key.text in members)
    && forall name :: name in members ==> exists i :: 0 <= i < |entries| && entries[i].key == String(name)
  }

  predicate KeysDiffer(entries: seq<MapEntry>) {
    forall i, j :: 0 <= i < j < |entries| ==> entries[i].key != entries[j].key
  }

  /** The value may be written as `j`: a leaf as its own content, a list by position, an object with
      one member for each field or entry, and a variant as its event and, unless it is empty, its data. */
  predicate Projects(v: WireValue, j: Json, serde: WireValue -> Json)
    decreases v, 1
  {
    match v
    case Null => j == JNull
    case Bool(value) => j == JBool(value)
    case String(text) => j == JString(text)
    case I64(decimal) => j == JString(decimal)
    case U64(decimal) => j == JString(decimal)
    case F64(float) => float.Finite? && j == JNumber(float.value)
    case Scalar(_, _) => j == serde(v)
    case Unknown(_, _) => j == serde(v)
    case List(values) =>
      && j.JArray? && |j.elements| == |values|
      && forall i :: 0 <= i < |values| ==> Projects(values[i], j.elements[i], serde)
    case Map(entries) => j.JObject? && HoldsEntries(j.members, entries, serde)
    case Record(_, fields) => j.JObject? && HoldsFields(j.members, fields, serde)
    case Variant(_, variant, fields) =>
      && j.JObject? && "event" in j.members && j.members["event"] == JString(variant)
      && if fields == [] then j.members.Keys == {"event"}
         else && j.members.Keys == {"event", "data"} && j.members["data"].JObject?
              && HoldsFields(j.members["data"].members, fields, serde)
  }

  predicate HoldsFields(members: map<string, Json>, fields: seq<Field>, serde: WireValue -> Json)
    decreases fields, 0
  {
    && NamesAre(members, fields) && Distinct(Names(fields))
    && forall i :: 0 <= i < |fields| ==> Projects(fields[i].value, members[fields[i].name], serde)
  }

  predicate HoldsEntries(members: map<string, Json>, entries: seq<MapEntry>, serde: WireValue -> Json)
    decreases entries, 0
  {
    && KeysAre(members, entries) && KeysDiffer(entries)
    && forall i :: 0 <= i < |entries| ==>
         assert entries[i].value < entries[i];
         Projects(entries[i].value, members[entries[i].key.text], serde)
  }

  lemma MembersHold(fields: seq<Field>, serde: WireValue -> Json)
    ensures NamesAre(MembersOf(fields, serde), fields)
  {
    var members := MembersOf(fields, serde);
    forall i | 0 <= i < |fields|
      ensures fields[i].name in members
    {
      assert Names(fields)[i] == fields[i].name;
      MembersAreNames(fields, serde, fields[i].name);
    }
    forall name | name in members
      ensures exists i :: 0 <= i < |fields| && fields[i].name == name
    {
      MembersAreNames(fields, serde, name);
      LookupFinds(fields, name);
    }
  }

  /** An object is fixed by its names and the member of each field. */
  lemma SameMembers(a: map<string, Json>, b: map<string, Json>, fields: seq<Field>)
    requires NamesAre(a, fields) && NamesAre(b, fields)
    requires forall i :: 0 <= i < |fields| ==> a[fields[i].name] == b[fields[i].name]
    ensures a == b
  {
    forall name
      ensures name in a <==> name in b
      ensures name in a ==> a[name] == b[name]
    {
      if name in a {
        var i :| 0 <= i < |fields| && fields[i].name == name;
      }
    }
  }

  /** The member of field `i` is exactly that field's projection. */
  predicate MemberIsExact(members: map<string, Json>, fields: seq<Field>, serde: WireValue -> Json, i: nat)
    requires i < |fields| && fields[i].name in members
  {
    Projects(fields[i].value, members[fields[i].name], serde) <==>
      Convertible(fields[i].value) && members[fields[i].name] == JsonOf(fields[i].value, serde)
  }

  lemma HeldIsMembers(members: map<string, Json>, fields: seq<Field>, serde: WireValue -> Json)
    requires HoldsFields(members, fields, serde)
    requires forall i :: 0 <= i < |fields| ==> MemberIsExact(members, fields, serde, i)
    ensures FieldsConvertible(fields) && members == MembersOf(fields, serde)
  {
    MembersHold(fields, serde);
    forall i | 0 <= i < |fields|
      ensures Convertible(fields[i].value) && members[fields[i].name] == MembersOf(fields, serde)[fields[i].name]
    {
      assert MemberIsExact(members, fields, serde, i);
      MembersAreFields(fields, serde, i);
    }
    SameMembers(members, MembersOf(fields, serde), fields);
  }

  lemma MembersAreHeld(fields: seq<Field>, serde: WireValue -> Json)
    requires FieldsConvertible(fields) && NamesAre(MembersOf(fields, serde), fields)
    requires forall i :: 0 <= i < |fields| ==> MemberIsExact(MembersOf(fields, serde), fields, serde, i)
    ensures HoldsFields(MembersOf(fields, serde), fields, serde)
  {
    var members := MembersOf(fields, serde);
    forall i | 0 <= i < |fields|
      ensures Projects(fields[i].value, members[fields[i].name], serde)
    {
      assert MemberIsExact(members, fields, serde, i);
      MembersAreFields(fields, serde, i);
    }
  }

  lemma FieldsProjectExactly(fields: seq<Field>, members: map<string, Json>, serde: WireValue -> Json)
    requires NamesAre(members, fields) ==>
               forall i :: 0 <= i < |fields| ==> MemberIsExact(members, fields, serde, i)
    ensures HoldsFields(members, fields, serde) <==>
              FieldsConvertible(fields) && members == MembersOf(fields, serde)
  {
    MembersHold(fields, serde);
    if HoldsFields(members, fields, serde) {
      HeldIsMembers(members, fields, serde);
    }
    if FieldsConvertible(fields) && members == MembersOf(fields, serde) {
      MembersAreHeld(fields, serde);
    }
  }

  lemma KeysAreNames(members: map<string, Json>, fields: seq<Field>)
    ensures KeysAre(members, AsEntries(fields)) <==> NamesAre(members, fields)
  {
    var entries := AsEntries(fields);
    assert forall i :: 0 <= i < |entries| ==> entries[i].key == String(fields[i].name);
    if KeysAre(members, entries) {
      forall name | name in members
        ensures exists i :: 0 <= i < |fields| && fields[i].name == name
      {
        var i :| 0 <= i < |entries| && entries[i].key == String(name);
        assert fields[i].name == name;
      }
    }
    if NamesAre(members, fields) {
      forall name | name in members
        ensures exists i :: 0 <= i < |entries| && entries[i].key == String(name)
      {
        var i :| 0 <= i < |fields| && fields[i].name == name;
        assert entries[i].key == String(name);
      }
    }
  }

  lemma KeysDifferAsNames(fields: seq<Field>)
    ensures KeysDiffer(AsEntries(fields)) <==> Distinct(Names(fields))
  {
    var entries, names := AsEntries(fields), Names(fields);
    assert forall i :: 0 <= i < |fields| ==> entries[i].key == String(names[i]);
    if KeysDiffer(entries) {
      forall i, j | 0 <= i < j < |names|
        ensures names[i] != names[j]
      {
        assert entries[i].key != entries[j].key;
      }
    }
    if Distinct(names) {
      forall i, j | 0 <= i < j < |entries|
        ensures entries[i].key != entries[j].key
      {
        assert names[i] != names[j];
      }
    }
  }

  lemma EntriesHoldAsFields(members: map<string, Json>, fields: seq<Field>, serde: WireValue -> Json)
    ensures HoldsEntries(members, AsEntries(fields), serde) <==> HoldsFields(members, fields, serde)
  {
    KeysAreNames(members, fields);
    KeysDifferAsNames(fields);
    var entries := AsEntries(fields);
    assert forall i :: 0 <= i < |entries| ==> entries[i] == MapEntry(String(fields[i].name), fields[i].value);
    if HoldsEntries(members, entries, serde) {
      forall i | 0 <= i < |fields|
        ensures Projects(fields[i].value, members[fields[i].name], serde)
      {
        assert Projects(entries[i].value, members[entries[i].key.text], serde);
      }
    }
  }

  lemma ConvertibleMap(fields: seq<Field>)
    ensures Convertible(Map(AsEntries(fields))) <==> FieldsConvertible(fields)
  {
    var entries := AsEntries(fields);
    assert AsFields(entries).value == fields;
    assert forall i :: 0 <= i < |entries| ==> entries[i].value == fields[i].value;
  }

  lemma MapProjectsExactly(fields: seq<Field>, j: Json, serde: WireValue -> Json)
    requires j.JObject? && NamesAre(j.members, fields) ==>
               forall i :: 0 <= i < |fields| ==> MemberIsExact(j.members, fields, serde, i)
    ensures Projects(Map(AsEntries(fields)), j, serde) <==>
              Convertible(Map(AsEntries(fields))) && j == JsonOf(Map(AsEntries(fields)), serde)
  {
    MapsAreRecords(fields, serde);
    ConvertibleMap(fields);
    if j.JObject? {
      EntriesHoldAsFields(j.members, fields, serde);
      FieldsProjectExactly(fields, j.members, serde);
    }
  }

  lemma EventObjectMembers(variant: string, fields: seq<Field>, serde: WireValue -> Json)
    ensures var data := MembersOf(fields, serde);
            EventObject(variant, data).members
            == if fields == [] then map["event" := JString(variant)]
               else map["event" := JString(variant), "data" := JObject(data)]
  {
    MembersHold(fields, serde);
    if fields != [] {
      assert fields[0].name in MembersOf(fields, serde);
    }
  }

  lemma VariantIsEventObject(v: WireValue, j: Json, data: map<string, Json>, serde: WireValue -> Json)
    requires v.Variant? && Projects(v, j, serde)
    requires v.fields != [] ==> j.members["data"] == JObject(data)
    ensures j.members == if v.fields == [] then map["event" := JString(v.variant)]
                         else map["event" := JString(v.variant), "data" := JObject(data)]
  {
  }

  lemma EventObjectProjects(v: WireValue, serde: WireValue -> Json)
    requires v.Variant? && HoldsFields(MembersOf(v.fields, serde), v.fields, serde)
    ensures Projects(v, EventObject(v.variant, MembersOf(v.fields, serde)), serde)
  {
    EventObjectMembers(v.variant, v.fields, serde);
    var all := EventObject(v.variant, MembersOf(v.fields, serde)).members;
    assert "event" in all && all["event"] == JString(v.variant);
    assert v.fields != [] ==> all.Keys == {"event", "data"} && all["data"] == JObject(MembersOf(v.fields, serde));
  }

  lemma VariantProjectsExactly(v: WireValue, j: Json, serde: WireValue -> Json)
    requires v.Variant?
    requires forall members :: HoldsFields(members, v.fields, serde) <==>
                                 FieldsConvertible(v.fields) && members == MembersOf(v.fields, serde)
    ensures Projects(v, j, serde) <==> Convertible(v) && j == JsonOf(v, serde)
  {
    var data := MembersOf(v.fields, serde);
    if FieldsConvertible(v.fields) {
      assert HoldsFields(data, v.fields, serde);
      EventObjectProjects(v, serde);
    }
    if Projects(v, j, serde) {
      EventObjectMembers(v.variant, v.fields, serde);
      if v.fields != [] {
        assert HoldsFields(j.members["data"].members, v.fields, serde);
      }
      VariantIsEventObject(v, j, data, serde);
    }
  }

  lemma {:induction false} MembersAreExact(members: map<string, Json>, fields: seq<Field>, serde: WireValue -> Json)
    requires NamesAre(members, fields)
    ensures forall i :: 0 <= i < |fields| ==> MemberIsExact(members, fields, serde, i)
    decreases fields, 0
  {
    forall i | 0 <= i < |fields|
      ensures MemberIsExact(members, fields, serde, i)
    {
      ProjectsExactly(fields[i].value, members[fields[i].name], serde);
    }
  }

  lemma {:induction false} EntriesAreExact(members: map<string, Json>, entries: seq<MapEntry>, fields: seq<Field>,
                                           serde: WireValue -> Json)
    requires entries == AsEntries(fields) && NamesAre(members, fields)
    ensures forall i :: 0 <= i < |fields| ==> MemberIsExact(members, fields, serde, i)
    decreases entries, 0
  {
    forall i | 0 <= i < |fields|
      ensures MemberIsExact(members, fields, serde, i)
    {
      assert entries[i] == MapEntry(String(fields[i].name), fields[i].value) && entries[i].value < entries[i];
      ProjectsExactly(entries[i].value, members[fields[i].name], serde);
    }
  }

  lemma {:induction false} ListProjectsExactly(values: seq<WireValue>, j: Json, serde: WireValue -> Json)
    ensures Projects(List(values), j, serde) <==> Convertible(List(values)) && j == JsonOf(List(values), serde)
    decreases values, 0
  {
    if j.JArray? && |j.elements| == |values| {
      forall i | 0 <= i < |values|
        ensures Projects(values[i], j.elements[i], serde) <==>
                  Convertible(values[i]) && j.elements[i] == JsonOf(values[i], serde)
      {
        ProjectsExactly(values[i], j.elements[i], serde);
      }
      if Projects(List(values), j, serde) {
        assert j.elements == JsonOf(List(values), serde).elements;
      }
    }
  }

  /** The projection writes exactly the convertible values, each in exactly one way. */
  lemma {:induction false} ProjectsExactly(v: WireValue, j: Json, serde: WireValue -> Json)
    ensures Projects(v, j, serde) <==> Convertible(v) && j == JsonOf(v, serde)
    decreases v, 1
  {
    match v {
      case List(values) => ListProjectsExactly(values, j, serde);
      case Map(entries) =>
        if AsFields(entries).Some? {
          var fields := AsFields(entries).value;
          assert entries == AsEntries(fields);
          if j.JObject? && NamesAre(j.members, fields) {
            EntriesAreExact(j.members, entries, fields, serde);
          }
          MapProjectsExactly(fields, j, serde);
        }
      case Record(_, fields) =>
        if j.JObject? {
          if NamesAre(j.members, fields) {
            MembersAreExact(j.members, fields, serde);
          }
          FieldsProjectExactly(fields, j.members, serde);
        }
      case Variant(_, _, fields) =>
        forall members
          ensures HoldsFields(members, fields, serde) <==>
                    FieldsConvertible(fields) && members == MembersOf(fields, serde)
        {
          if NamesAre(members, fields) {
            MembersAreExact(members, fields, serde);
          }
          FieldsProjectExactly(fields, members, serde);
        }
        VariantProjectsExactly(v, j, serde);
      case _ =>
    }
  }

  // ----- Which error is reported -----

  /** The first thing wrong with the value, in the order it is written: a number that is not finite,
      a map key that is no string, or a name that comes again. */
  predicate Faults(v: WireValue, e: WireError)
    decreases v, 1
  {
    match v
    case F64(float) => float.NonFinite? && e == NonFiniteNumber
    case List(values) =>
      exists i :: 0 <= i < |values| && Faults(values[i], e) && forall k :: 0 <= k < i ==> Convertible(values[k])
    case Map(entries) => exists i :: 0 <= i < |entries| && EntryFaults(entries, i, e)
    case Record(_, fields) => FieldsFault(fields, e)
    case Variant(_, _, fields) => FieldsFault(fields, e)
    case _ => false
  }

  predicate FieldsFault(fields: seq<Field>, e: WireError)
    decreases fields, 1
  {
    exists i :: 0 <= i < |fields| && FieldFaults(fields, i, e)
  }

  /** The fields before `i` can be projected, and the next one is at fault. */
  predicate FieldFaults(fields: seq<Field>, i: nat, e: WireError)
    requires i < |fields|
    decreases fields, 0
  {
    && FieldsConvertible(fields[..i])
    && (|| Faults(fields[i].value, e)
        || (&& Convertible(fields[i].value) && e == Duplicate(fields[i].name)
            && exists k :: 0 <= k < i && fields[k].name == fields[i].name))
  }

  predicate EntryFaults(entries: seq<MapEntry>, i: nat, e: WireError)
    requires i < |entries|
    decreases entries, 0
  {
    && Convertible(Map(entries[..i]))
    && if !entries[i].key.String? then e == KeysMustBeStrings
       else assert entries[i].value < entries[i];
            || Faults(entries[i].value, e)
            || (&& Convertible(entries[i].value) && e == Duplicate(entries[i].key.text)
                && exists k :: 0 <= k < i && entries[k].key == entries[i].key)
  }

  // ----- The projection as the source computes it -----

  predicate FieldsConvertible(fields: seq<Field>) {
    Distinct(Names(fields)) && forall i :: 0 <= i < |fields| ==> Convertible(fields[i].value)
  }

  /** One more field of a record or variant. */
  lemma NextField(fields: seq<Field>, n: nat, serde: WireValue -> Json)
    requires n < |fields| && FieldsConvertible(fields[..n])
    ensures FieldsConvertible(fields) ==> FieldsConvertible(fields[..n + 1])
    ensures FieldsConvertible(fields[..n + 1]) <==>
            Convertible(fields[n].value) && fields[n].name !in MembersOf(fields[..n], serde)
    ensures MembersOf(fields[..n + 1], serde)
            == MembersOf(fields[..n], serde)[fields[n].name := JsonOf(fields[n].value, serde)]
  {
    assert fields[..n + 1] == fields[..n] + [fields[n]] && fields[..n + 1][..n] == fields[..n];
    assert fields[..n + 1][n] == fields[n] && forall i :: 0 <= i < n ==> fields[..n + 1][i] == fields[..n][i];
    MembersAreNames(fields[..n], serde, fields[n].name);
    NextName(fields, n);
  }

  lemma RepeatsName(fields: seq<Field>, n: nat, serde: WireValue -> Json)
    requires n < |fields| && fields[n].name in MembersOf(fields[..n], serde)
    ensures exists k :: 0 <= k < n && fields[k].name == fields[n].name
  {
    MembersHold(fields[..n], serde);
    var k :| 0 <= k < n && fields[..n][k].name == fields[n].name;
    assert fields[k].name == fields[n].name;
  }

  /** Inserts the fields one by one; a repeated name is an error. */
  method ProjectFields(fields: seq<Field>, serde: WireValue -> Json) returns (r: Result<map<string, Json>, WireError>)
    ensures r.Ok? <==> FieldsConvertible(fields)
    ensures r.Ok? ==> r.value == MembersOf(fields, serde)
    ensures r.Err? ==> FieldsFault(fields, r.error)
    decreases fields, 1
  {
    var members: map<string, Json> := map[];
    var n := 0;
    while n < |fields|
      invariant 0 <= n <= |fields|
      invariant FieldsConvertible(fields[..n]) && members == MembersOf(fields[..n], serde)
    {
      var field := fields[n];
      NextField(fields, n, serde);
      var value := WireValueToJson(field.value, serde);
      if value.Err? {
        assert FieldFaults(fields, n, value.error);
        return Err(value.error);
      }
      if field.name in members {
        RepeatsName(fields, n, serde);
        assert FieldFaults(fields, n, Duplicate(field.name));
        return Err(Duplicate(field.name));
      }
      members := members[field.name := value.value];
      n := n + 1;
    }
    assert fields[..n] == fields;
    return Ok(members);
  }

  /** `wire_value_to_json`: writes a value as it is projected, and fails with the first fault of one that
      cannot be. */
  method WireValueToJson(v: WireValue, serde: WireValue -> Json) returns (r: Result<Json, WireError>)
    ensures r.Ok? <==> Convertible(v)
    ensures r.Ok? ==> r.value == JsonOf(v, serde)
    ensures r.Ok? ==> Projects(v, r.value, serde)
    ensures r.Err? ==> Faults(v, r.error) && forall j :: !Projects(v, j, serde)
    decreases v, 2
  {
    forall j
      ensures Projects(v, j, serde) <==> Convertible(v) && j == JsonOf(v, serde)
    {
      ProjectsExactly(v, j, serde);
    }
    match v
    case Null => return Ok(JNull);
    case Bool(value) => return Ok(JBool(value));
    case String(text) => return Ok(JString(text));
    case I64(decimal) => return Ok(JString(decimal));
    case U64(decimal) => return Ok(JString(decimal));
    case F64(float) => return if float.Finite? then Ok(JNumber(float.value)) else Err(NonFiniteNumber);
    case Scalar(_, _) => return Ok(serde(v));
    case Unknown(_, _) => return Ok(serde(v));
    case List(values) => r := ProjectList(v, values, serde);
    case Map(entries) => r := ProjectEntries(v, entries, serde);
    case Record(_, fields) =>
      var members := ProjectFields(fields, serde);
      return if members.Ok? then Ok(JObject(members.value)) else Err(members.error);
    case Variant(_, variant, fields) =>
      var data := ProjectFields(fields, serde);
      return if data.Ok? then Ok(EventObject(variant, data.value)) else Err(data.error);
  }

  method ProjectList(v: WireValue, values: seq<WireValue>, serde: WireValue -> Json)
    returns (r: Result<Json, WireError>)
    requires v == List(values)
    ensures r.Ok? <==> Convertible(v)
    ensures r.Ok? ==> r.value == JsonOf(v, serde)
    ensures r.Err? ==> Faults(v, r.error)
    decreases v, 1
  {
    var elements: seq<Json> := [];
    for n := 0 to |values|
      invariant |elements| == n
      invariant forall i :: 0 <= i < n ==> Convertible(values[i]) && elements[i] == JsonOf(values[i], serde)
    {
      var element := WireValueToJson(values[n], serde);
      if element.Err? {
        return Err(element.error);
      }
      elements := elements + [element.value];
    }
    assert elements == seq(|values|, i requires 0 <= i < |values| => JsonOf(values[i], serde));
    return Ok(JArray(elements));
  }

  function KeysOf(entries: seq<MapEntry>): set<string> {
    set i | 0 <= i < |entries| && entries[i].key.String? :: entries[i].key.text
  }

  lemma OneMoreEntry(entries: seq<MapEntry>, entry: MapEntry)
    requires Convertible(Map(entries))
    ensures Convertible(Map(entries + [entry])) <==>
            entry.key.String? && Convertible(entry.value) && entry.key.text !in KeysOf(entries)
    ensures entry.key.String? ==> KeysOf(entries + [entry]) == KeysOf(entries) + {entry.key.text}
  {
    var more := entries + [entry];
    assert forall i :: 0 <= i < |entries| ==> more[i] == entries[i];
    assert more[|entries|] == entry;
    if entry.key.String? {
      var fields, field := AsFields(entries).value, Field(entry.key.text, entry.value);
      assert AsFields(more).value == fields + [field];
      var names := Names(fields + [field]);
      assert forall i :: 0 <= i < |fields| ==> names[i] == Names(fields)[i] == entries[i].key.text;
      assert names[|fields|] == field.name;
    }
  }

  lemma EntriesPrefix(entries: seq<MapEntry>, n: nat)
    requires n <= |entries| && Convertible(Map(entries))
    ensures Convertible(Map(entries[..n]))
  {
    var fields := AsFields(entries).value;
    assert AsFields(entries[..n]).value == fields[..n];
    DistinctPrefix(fields, n);
  }

  lemma NextEntryConvertible(entries: seq<MapEntry>, n: nat)
    requires n < |entries| && Convertible(Map(entries[..n]))
    ensures Convertible(Map(entries)) ==> Convertible(Map(entries[..n + 1]))
    ensures var key := entries[n].key;
            if key.String? && Convertible(entries[n].value) && key.text !in KeysOf(entries[..n]) then
              && Convertible(Map(entries[..n + 1]))
              && KeysOf(entries[..n + 1]) == KeysOf(entries[..n]) + {key.text}
            else !Convertible(Map(entries[..n + 1]))
  {
    assert entries[..n + 1] == entries[..n] + [entries[n]];
    OneMoreEntry(entries[..n], entries[n]);
    if Convertible(Map(entries)) {
      EntriesPrefix(entries, n + 1);
    }
  }

  lemma NextMember(entries: seq<MapEntry>, n: nat, serde: WireValue -> Json)
    requires n < |entries| && entries[n].key.String?
    ensures EntriesOf(entries[..n + 1], serde)
            == EntriesOf(entries[..n], serde)[entries[n].key.text := JsonOf(entries[n].value, serde)]
  {
    assert entries[..n + 1][..n] == entries[..n];
  }

  /** One more entry of a map. */
  lemma NextEntry(entries: seq<MapEntry>, n: nat, serde: WireValue -> Json)
    requires n < |entries| && Convertible(Map(entries[..n]))
    requires EntriesOf(entries[..n], serde).Keys == KeysOf(entries[..n])
    ensures Convertible(Map(entries)) ==> Convertible(Map(entries[..n + 1]))
    ensures var key := entries[n].key;
            if key.String? && Convertible(entries[n].value) && key.text !in EntriesOf(entries[..n], serde) then
              && Convertible(Map(entries[..n + 1]))
              && EntriesOf(entries[..n + 1], serde)
                 == EntriesOf(entries[..n], serde)[key.text := JsonOf(entries[n].value, serde)]
              && EntriesOf(entries[..n + 1], serde).Keys == KeysOf(entries[..n + 1])
            else !Convertible(Map(entries[..n + 1]))
  {
    NextEntryConvertible(entries, n);
    if entries[n].key.String? {
      NextMember(entries, n, serde);
    }
  }

  lemma NotAStringFaults(entries: seq<MapEntry>, n: nat)
    requires n < |entries| && Convertible(Map(entries[..n])) && !entries[n].key.String?
    ensures Faults(Map(entries), KeysMustBeStrings)
  {
    assert EntryFaults(entries, n, KeysMustBeStrings);
  }

  lemma ValueFaults(entries: seq<MapEntry>, n: nat, e: WireError)
    requires n < |entries| && Convertible(Map(entries[..n]))
    requires entries[n].key.String? && Faults(entries[n].value, e)
    ensures Faults(Map(entries), e)
  {
    assert EntryFaults(entries, n, e);
  }

  lemma RepeatedKeyFaults(entries: seq<MapEntry>, n: nat)
    requires n < |entries| && Convertible(Map(entries[..n])) && Convertible(entries[n].value)
    requires entries[n].key.String? && entries[n].key.text in KeysOf(entries[..n])
    ensures Faults(Map(entries), Duplicate(entries[n].key.text))
  {
    var k :| 0 <= k < n && entries[..n][k].key.String? && entries[..n][k].key.text == entries[n].key.text;
    assert entries[k].key == entries[n].key;
    assert EntryFaults(entries, n, Duplicate(entries[n].key.text));
  }

  /** The entries of a map, whose keys have to be strings. */
  method ProjectEntries(v: WireValue, entries: seq<MapEntry>, serde: WireValue -> Json)
    returns (r: Result<Json, WireError>)
    requires v == Map(entries)
    ensures r.Ok? <==> Convertible(v)
    ensures r.Ok? ==> r.value == JsonOf(v, serde)
    ensures r.Err? ==> Faults(v, r.error)
    decreases v, 1
  {
    var members: map<string, Json> := map[];
    var n := 0;
    while n < |entries|
      invariant 0 <= n <= |entries|
      invariant Convertible(Map(entries[..n]))
      invariant members == EntriesOf(entries[..n], serde) && members.Keys == KeysOf(entries[..n])
    {
      var entry := entries[n];
      NextEntry(entries, n, serde);
      if !entry.key.String? {
        NotAStringFaults(entries, n);
        return Err(KeysMustBeStrings);
      }
      var value := WireValueToJson(entry.value, serde);
      if value.Err? {
        ValueFaults(entries, n, value.error);
        return Err(value.error);
      }
      if entry.key.text in members {
        RepeatedKeyFaults(entries, n);
        return Err(Duplicate(entry.key.text));
      }
      members := members[entry.key.text := value.value];
      n := n + 1;
    }
    assert entries[..n] == entries;
    return Ok(JObject(members));
  }
}
