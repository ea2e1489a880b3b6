/**
 The typed event codec (echo-sdk-protocol/src/methods.rs, `AgentEventWire::from_wire_value`): a
 variant, or a record with the payload beside the discriminator or nested under `data`.
 */
module EventCodec {
  import opened Prelude
  import opened Sorting
  import opened WireValues

  const EVENT_TYPE_ID := "echo_sdk_protocol::methods::AgentEventWire"

  datatype EventError =
    | NotAnEvent
    | NoEventField
    | EventMustBeAString
    | DataKeysMustBeStrings
    | DataMustBeStructured
    | UnknownVariant(variant: string)
    | InvalidField(name: string)
    | NotConvertible(error: WireError)
    | DuplicateField(name: string)
    | Malformed

  datatype Payload = Payload(variant: string, fields: seq<Field>)

  // ----- The closed set of events -----

  /** The payload fields of a known event. */
  function AllowedFields(variant: string): Option<seq<string>> {
    match variant
    case "token" => Some(["text"])
    case "think_start" => Some([])
    case "tool_batch_end" => Some([])
    case "cancelled" => Some([])
    case "think_end" => Some(["prompt_tokens", "completion_tokens"])
    case "llm_usage" =>
      Some(["model", "prompt_tokens", "completion_tokens", "total_tokens", "cached_prompt_tokens",
            "cache_creation_prompt_tokens", "usage_reported"])
    case "budget_decision" => Some(["decision", "reason", "iteration", "reported_model_tokens", "usage_complete"])
    case "tool_call" => Some(["call_id", "invocation"])
    case "tool_result" => Some(["call_id", "name", "result"])
    case "tool_stream" => Some(["call_id", "name", "event"])
    case "tool_batch_start" => Some(["tool_count"])
    case "guard_triggered" => Some(["guard", "blocked"])
    case "memory_recalled" => Some(["count"])
    case "context_compressed" => Some(["before_count", "after_count", "before_tokens", "after_tokens"])
    case "transcript_projection_settlement" => Some(["settlement"])
    case "chart" => Some(["spec"])
    case "error" => Some(["source", "message", "failure"])
    case "safety_notice" => Some(["action", "reason", "risk", "permission"])
    case "parameter_error" => Some(["tool", "parameter", "expected", "got"])
    case "final_answer" => Some(["text"])
    case _ => None
  }

  /** Fields that stay typed wire values instead of being projected. */
  predicate IsWireValueField(variant: string, name: string) {
    || (variant == "budget_decision" && name == "decision")
    || (variant == "tool_call" && name == "invocation")
    || (variant == "chart" && name == "spec")
    || (variant == "error" && name == "failure")
  }

  // ----- The spellings -----

  function Without(fields: seq<Field>): seq<Field> {
    if fields == [] then []
    else (if fields[0].name != "event" && fields[0].name != "data" then [fields[0]] else []) + Without(fields[1..])
  }

  function DataFields(data: WireValue): Result<seq<Field>, EventError> {
    match data
    case Record(_, fields) => Ok(fields)
    case Variant(_, _, fields) => Ok(fields)
    case Map(entries) => if AsFields(entries).Some? then Ok(AsFields(entries).value) else Err(DataKeysMustBeStrings)
    case _ => Err(DataMustBeStructured)
  }

  /** The discriminator and the payload fields that a value spells. */
  function PayloadOf(v: WireValue): Result<Payload, EventError> {
    if v.Variant? && v.typeId == EVENT_TYPE_ID then Ok(Payload(v.variant, v.fields))
    else if v.Record? && v.typeId == EVENT_TYPE_ID then
      var event, nested := Lookup(v.fields, "event"), Lookup(v.fields, "data");
      if event.None? then Err(NoEventField)
      else if !event.value.String? then Err(EventMustBeAString)
      else if nested.None? then Ok(Payload(event.value.text, Without(v.fields)))
      else
        var data := DataFields(nested.value);
        if data.Ok? then Ok(Payload(event.value.text, Without(v.fields) + data.value)) else Err(data.error)
    else Err(NotAnEvent)
  }

  // ----- What the spellings say, by positions instead of by filtering -----

  predicate IsOwn(f: Field) {
    f.name == "event" || f.name == "data"
  }

  /** `flat` holds the fields that are not the record's own two: those at `at`, in order, and no other. */
  ghost predicate IsRest(fields: seq<Field>, flat: seq<Field>, at: seq<nat>) {
    && |at| == |flat|
    && (forall i, j :: 0 <= i < j < |at| ==> at[i] < at[j])
    && (forall i :: 0 <= i < |at| ==> at[i] < |fields| && flat[i] == fields[at[i]] && !IsOwn(flat[i]))
    && forall k: nat :: k < |fields| && !IsOwn(fields[k]) ==> k in at
  }

  /** The data spells these fields, as a record, a variant or a map. */
  predicate Spells(data: WireValue, fields: seq<Field>) {
    || (data.Record? && data.fields == fields)
    || (data.Variant? && data.fields == fields)
    || data == Map(AsEntries(fields))
  }

  /** The payload of a record: the fields that are not its own, then those its first `data` field
      spells, if it has one. */
  ghost predicate IsRecordPayload(fields: seq<Field>, payload: seq<Field>,
                                  flat: seq<Field>, at: seq<nat>, nested: seq<Field>)
  {
    && IsRest(fields, flat, at) && payload == flat + nested
    && match Lookup(fields, "data")
       case None => nested == []
       case Some(data) => Spells(data, nested)
  }

  /** The value is a variant of that name with these fields, or a record with this payload whose first
      `event` field is that name. */
  ghost predicate Spelled(v: WireValue, p: Payload) {
    || v == Variant(EVENT_TYPE_ID, p.variant, p.fields)
    || (&& v.Record? && v.typeId == EVENT_TYPE_ID && Lookup(v.fields, "event") == Some(String(p.variant))
        && exists flat, at, nested :: IsRecordPayload(v.fields, p.fields, flat, at, nested))
  }

  lemma WithoutOfOneMore(f: Field, rest: seq<Field>)
    ensures Without([f] + rest) == (if IsOwn(f) then [] else [f]) + Without(rest)
  {
    assert ([f] + rest)[1..] == rest;
  }

  lemma {:induction false} WithoutAppend(fields: seq<Field>, f: Field)
    ensures Without(fields + [f]) == Without(fields) + (if IsOwn(f) then [] else [f])
  {
    if fields == [] {
      WithoutOfOneMore(f, []);
      assert fields + [f] == [f] + [];
    } else {
      var rest := fields[1..];
      WithoutAppend(rest, f);
      WithoutOfOneMore(fields[0], rest + [f]);
      assert fields + [f] == [fields[0]] + (rest + [f]);
    }
  }

  lemma RestGrows(fields: seq<Field>, n: nat, flat: seq<Field>, at: seq<nat>)
    requires n < |fields| && IsRest(fields[..n], flat, at)
    ensures if IsOwn(fields[n]) then IsRest(fields[..n + 1], flat, at)
            else IsRest(fields[..n + 1], flat + [fields[n]], at + [n])
  {
    assert fields[..n + 1] == fields[..n] + [fields[n]];
    forall k: nat | k < n + 1 && !IsOwn(fields[..n + 1][k])
      ensures k in at + [n]
      ensures IsOwn(fields[n]) ==> k in at
    {
      if k < n {
        assert !IsOwn(fields[..n][k]);
      } else {
        assert (at + [n])[|at|] == k;
      }
    }
  }

  lemma {:induction false} WithoutIsRest(fields: seq<Field>) returns (at: seq<nat>)
    ensures IsRest(fields, Without(fields), at)
  {
    if fields == [] {
      return [];
    }
    var n := |fields| - 1;
    assert fields == fields[..n] + [fields[n]] && fields[..n + 1] == fields;
    var before := WithoutIsRest(fields[..n]);
    WithoutAppend(fields[..n], fields[n]);
    RestGrows(fields, n, Without(fields[..n]), before);
    at := before + if IsOwn(fields[n]) then [] else [n];
    assert IsOwn(fields[n]) ==> at == before && Without(fields) == Without(fields[..n]);
  }

  /** A last field of the record's own leaves no trace. */
  lemma RestBeforeOwn(fields: seq<Field>, flat: seq<Field>, at: seq<nat>)
    requires fields != [] && IsOwn(fields[|fields| - 1]) && IsRest(fields, flat, at)
    ensures IsRest(fields[..|fields| - 1], flat, at)
  {
    var n := |fields| - 1;
    forall i | 0 <= i < |at|
      ensures at[i] < n && flat[i] == fields[..n][at[i]]
    {
      assert fields[at[i]] == flat[i];
    }
    assert forall k: nat :: k < n && !IsOwn(fields[..n][k]) ==> !IsOwn(fields[k]);
  }

  /** Any other last field comes last. */
  lemma RestBeforeLast(fields: seq<Field>, flat: seq<Field>, at: seq<nat>)
    requires fields != [] && !IsOwn(fields[|fields| - 1]) && IsRest(fields, flat, at)
    ensures at != [] && flat[|flat| - 1] == fields[|fields| - 1]
    ensures IsRest(fields[..|fields| - 1], flat[..|flat| - 1], at[..|at| - 1])
  {
    var n := |fields| - 1;
    assert n in at;
    var m := |at| - 1;
    assert at[m] == n;
    forall k: nat | k < n && !IsOwn(fields[..n][k])
      ensures k in at[..m]
    {
      assert !IsOwn(fields[k]);
      var i :| 0 <= i < |at| && at[i] == k;
      assert at[..m][i] == k;
    }
  }

  lemma {:induction false} RestIsWithout(fields: seq<Field>, flat: seq<Field>, at: seq<nat>)
    requires IsRest(fields, flat, at)
    ensures flat == Without(fields)
  {
    if fields != [] {
      var n := |fields| - 1;
      assert fields == fields[..n] + [fields[n]];
      WithoutAppend(fields[..n], fields[n]);
      if IsOwn(fields[n]) {
        RestBeforeOwn(fields, flat, at);
        RestIsWithout(fields[..n], flat, at);
      } else {
        RestBeforeLast(fields, flat, at);
        RestIsWithout(fields[..n], flat[..|flat| - 1], at[..|at| - 1]);
        assert flat == flat[..|flat| - 1] + [fields[n]];
      }
    }
  }

  lemma DataIsSpelled(data: WireValue, fields: seq<Field>)
    ensures DataFields(data) == Ok(fields) <==> Spells(data, fields)
  {
    if data.Map? && AsFields(data.entries) == Some(fields) {
      assert data.entries == AsEntries(fields);
    }
  }

  lemma RecordPayloadIsSpelled(v: WireValue, p: Payload)
    requires PayloadOf(v) == Ok(p) && v.Record?
    ensures Spelled(v, p)
  {
    var data := Lookup(v.fields, "data");
    var at := WithoutIsRest(v.fields);
    var nested := if data.Some? then DataFields(data.value).value else [];
    if data.Some? {
      DataIsSpelled(data.value, nested);
    } else {
      assert Without(v.fields) + [] == Without(v.fields);
    }
    assert IsRecordPayload(v.fields, p.fields, Without(v.fields), at, nested);
  }

  lemma SpelledRecordIsPayload(v: WireValue, p: Payload)
    requires Spelled(v, p) && v.Record?
    ensures PayloadOf(v) == Ok(p)
  {
    var data := Lookup(v.fields, "data");
    var flat, at, nested :| IsRecordPayload(v.fields, p.fields, flat, at, nested);
    RestIsWithout(v.fields, flat, at);
    if data.Some? {
      DataIsSpelled(data.value, nested);
    } else {
      assert flat + [] == flat;
    }
  }

  /** Reading the payload means what the spelling says. */
  lemma PayloadIsSpelled(v: WireValue, p: Payload)
    ensures PayloadOf(v) == Ok(p) <==> Spelled(v, p)
  {
    if v.Record? {
      if PayloadOf(v) == Ok(p) {
        RecordPayloadIsSpelled(v, p);
      }
      if Spelled(v, p) {
        SpelledRecordIsPayload(v, p);
      }
    }
  }

  lemma ReadAsSpelled(v: WireValue, r: Result<Payload, EventError>)
    requires if r.Ok? then Spelled(v, r.value) else forall p :: !Spelled(v, p)
    ensures if r.Ok? then PayloadOf(v) == r else PayloadOf(v).Err?
  {
    if r.Ok? {
      PayloadIsSpelled(v, r.value);
    } else if PayloadOf(v).Ok? {
      PayloadIsSpelled(v, PayloadOf(v).value);
      assert false;
    }
  }

  // ----- What a payload means -----

  predicate NamesAllowed(p: Payload) {
    AllowedFields(p.variant).Some? && forall f :: f in p.fields ==> f.name in AllowedFields(p.variant).value
  }

  /** Field `n` is the first one that is not the event's own. */
  predicate FirstInvalid(p: Payload, n: nat)
    requires n < |p.fields| && AllowedFields(p.variant).Some?
  {
    && p.fields[n].name !in AllowedFields(p.variant).value
    && forall i :: 0 <= i < n ==> p.fields[i].name in AllowedFields(p.variant).value
  }

  predicate Projectable(variant: string, fields: seq<Field>) {
    && Distinct(Names(fields))
    && forall f :: f in fields ==> IsWireValueField(variant, f.name) || Convertible(f.value)
  }

  function FieldJson(variant: string, f: Field, serde: WireValue -> Json): Json {
    if IsWireValueField(variant, f.name) then serde(f.value) else JsonOf(f.value, serde)
  }

  function DataOf(variant: string, fields: seq<Field>, serde: WireValue -> Json): map<string, Json> {
    if fields == [] then map[]
    else
      var last := fields[|fields| - 1];
      DataOf(variant, fields[..|fields| - 1], serde)[last.name := FieldJson(variant, last, serde)]
  }

  /** The object that is handed to the event deserializer, if the value is a well-formed event. */
  function Meaning(v: WireValue, serde: WireValue -> Json): Option<Json> {
    var p := PayloadOf(v);
    if p.Ok? && NamesAllowed(p.value) && Projectable(p.value.variant, p.value.fields) then
      Some(EventObject(p.value.variant, DataOf(p.value.variant, p.value.fields, serde)))
    else None
  }

  /** The event that the value decodes to, if it does. */
  function Decoded<E>(v: WireValue, serde: WireValue -> Json, decode: Json -> Option<E>): Option<E> {
    var projected := Meaning(v, serde);
    if projected.Some? then decode(projected.value) else None
  }

  lemma {:induction false} DataNames(variant: string, fields: seq<Field>, serde: WireValue -> Json, name: string)
    ensures name in DataOf(variant, fields, serde) <==> Lookup(fields, name).Some?
  {
    if fields != [] {
      var init, last := fields[..|fields| - 1], fields[|fields| - 1];
      assert fields == init + [last];
      DataNames(variant, init, serde, name);
      LookupAppend(init, last, name);
    }
  }

  lemma {:induction false} DataValues(variant: string, fields: seq<Field>, serde: WireValue -> Json, f: Field)
    requires Distinct(Names(fields)) && f in fields
    ensures f.name in DataOf(variant, fields, serde)
    ensures DataOf(variant, fields, serde)[f.name] == FieldJson(variant, f, serde)
  {
    var init, last := fields[..|fields| - 1], fields[|fields| - 1];
    assert fields == init + [last];
    if f != last {
      DistinctPrefix(fields, |fields| - 1);
      DataValues(variant, init, serde, f);
      DistinctNames(fields);
    }
  }

  // ----- The event's object, told by its members -----

  /** One member for each payload field: a typed wire value as it is, and any other one projected. */
  predicate IsEventData(p: Payload, data: map<string, Json>, serde: WireValue -> Json) {
    && NamesAre(data, p.fields) && Distinct(Names(p.fields))
    && forall i :: 0 <= i < |p.fields| ==> IsFieldJson(p.variant, p.fields[i], data[p.fields[i].name], serde)
  }

  predicate IsFieldJson(variant: string, f: Field, j: Json, serde: WireValue -> Json) {
    if IsWireValueField(variant, f.name) then j == serde(f.value) else Projects(f.value, j, serde)
  }

  /** The event's name, and its data unless there is none. */
  predicate IsEventJson(p: Payload, j: Json, serde: WireValue -> Json) {
    && j.JObject? && "event" in j.members && j.members["event"] == JString(p.variant)
    && if p.fields == [] then j.members.Keys == {"event"}
       else && j.members.Keys == {"event", "data"} && j.members["data"].JObject?
            && IsEventData(p, j.members["data"].members, serde)
  }

  /** The value spells a payload of allowed fields, and `j` is that event's object. */
  ghost predicate IsObjectOf(v: WireValue, j: Json, serde: WireValue -> Json) {
    exists p :: Spelled(v, p) && NamesAllowed(p) && IsEventJson(p, j, serde)
  }

  lemma FieldIsExact(variant: string, f: Field, j: Json, serde: WireValue -> Json)
    ensures IsFieldJson(variant, f, j, serde) <==>
              && (IsWireValueField(variant, f.name) || Convertible(f.value))
              && j == FieldJson(variant, f, serde)
  {
    ProjectsExactly(f.value, j, serde);
  }

  lemma DataHolds(variant: string, fields: seq<Field>, serde: WireValue -> Json)
    ensures NamesAre(DataOf(variant, fields, serde), fields)
  {
    var data := DataOf(variant, fields, serde);
    forall i | 0 <= i < |fields|
      ensures fields[i].name in data
    {
      LookupFinds(fields, fields[i].name);
      DataNames(variant, fields, serde, fields[i].name);
    }
    forall name | name in data
      ensures exists i :: 0 <= i < |fields| && fields[i].name == name
    {
      DataNames(variant, fields, serde, name);
      LookupFinds(fields, name);
    }
  }

  lemma DataIsExact(p: Payload, data: map<string, Json>, serde: WireValue -> Json)
    ensures IsEventData(p, data, serde) <==>
              Projectable(p.variant, p.fields) && data == DataOf(p.variant, p.fields, serde)
  {
    var all := DataOf(p.variant, p.fields, serde);
    DataHolds(p.variant, p.fields, serde);
    if Distinct(Names(p.fields)) {
      forall i | 0 <= i < |p.fields|
        ensures all[p.fields[i].name] == FieldJson(p.variant, p.fields[i], serde)
      {
        DataValues(p.variant, p.fields, serde, p.fields[i]);
      }
      forall i, j: Json | 0 <= i < |p.fields|
        ensures IsFieldJson(p.variant, p.fields[i], j, serde) <==>
                  && (IsWireValueField(p.variant, p.fields[i].name) || Convertible(p.fields[i].value))
                  && j == FieldJson(p.variant, p.fields[i], serde)
      {
        FieldIsExact(p.variant, p.fields[i], j, serde);
      }
      if IsEventData(p, data, serde) {
        SameMembers(data, all, p.fields);
      }
    }
  }

  lemma EmptyData(variant: string, fields: seq<Field>, serde: WireValue -> Json)
    ensures EventObject(variant, DataOf(variant, fields, serde)).members
            == if fields == [] then map["event" := JString(variant)]
               else map["event" := JString(variant), "data" := JObject(DataOf(variant, fields, serde))]
  {
    DataHolds(variant, fields, serde);
    if fields != [] {
      assert fields[0].name in DataOf(variant, fields, serde);
    }
  }

  lemma ExactObject(p: Payload, j: Json, data: map<string, Json>, serde: WireValue -> Json)
    requires IsEventJson(p, j, serde)
    requires p.fields != [] ==> j.members["data"] == JObject(data)
    ensures j.members == if p.fields == [] then map["event" := JString(p.variant)]
                         else map["event" := JString(p.variant), "data" := JObject(data)]
  {
  }

  lemma ObjectIsEvent(p: Payload, j: Json, data: map<string, Json>, serde: WireValue -> Json)
    requires IsEventData(p, data, serde) && j.JObject?
    requires j.members == if p.fields == [] then map["event" := JString(p.variant)]
                          else map["event" := JString(p.variant), "data" := JObject(data)]
    ensures IsEventJson(p, j, serde)
  {
    assert "event" in j.members;
    assert p.fields != [] ==> "data" in j.members && j.members["data"] == JObject(data);
  }

  lemma EventIsExact(p: Payload, j: Json, serde: WireValue -> Json)
    ensures IsEventJson(p, j, serde) <==>
              && Projectable(p.variant, p.fields)
              && j == EventObject(p.variant, DataOf(p.variant, p.fields, serde))
  {
    var data := DataOf(p.variant, p.fields, serde);
    EmptyData(p.variant, p.fields, serde);
    if IsEventJson(p, j, serde) {
      if p.fields != [] {
        DataIsExact(p, j.members["data"].members, serde);
      }
      ExactObject(p, j, data, serde);
    }
    if Projectable(p.variant, p.fields) && j == EventObject(p.variant, data) {
      DataIsExact(p, data, serde);
      ObjectIsEvent(p, j, data, serde);
    }
  }

  /** What a value means is the one object that is its event's, if it spells an allowed one. */
  lemma MeaningIsExact(v: WireValue, j: Json, serde: WireValue -> Json)
    ensures Meaning(v, serde) == Some(j) <==> IsObjectOf(v, j, serde)
  {
    if Meaning(v, serde) == Some(j) {
      var p := PayloadOf(v).value;
      PayloadIsSpelled(v, p);
      EventIsExact(p, j, serde);
    }
    if IsObjectOf(v, j, serde) {
      var p :| Spelled(v, p) && NamesAllowed(p) && IsEventJson(p, j, serde);
      PayloadIsSpelled(v, p);
      EventIsExact(p, j, serde);
    }
  }

  // ----- The decoder -----

  lemma NextProjectable(variant: string, fields: seq<Field>, n: nat)
    requires n < |fields| && Projectable(variant, fields[..n])
    ensures Projectable(variant, fields[..n + 1]) <==>
            && (IsWireValueField(variant, fields[n].name) || Convertible(fields[n].value))
            && Lookup(fields[..n], fields[n].name).None?
    ensures Projectable(variant, fields) ==> Projectable(variant, fields[..n + 1])
  {
    NextName(fields, n);
    assert fields[..n + 1] == fields[..n] + [fields[n]];
    assert fields[n] in fields[..n + 1] && forall f :: f in fields[..n + 1] ==> f in fields;
  }

  lemma NextData(variant: string, fields: seq<Field>, n: nat, serde: WireValue -> Json)
    requires n < |fields|
    ensures DataOf(variant, fields[..n + 1], serde)
            == DataOf(variant, fields[..n], serde)[fields[n].name := FieldJson(variant, fields[n], serde)]
  {
    assert fields[..n + 1][..n] == fields[..n];
  }

  /** One more field of a payload. */
  lemma NextProjected(variant: string, fields: seq<Field>, n: nat, serde: WireValue -> Json)
    requires n < |fields| && Projectable(variant, fields[..n])
    ensures Projectable(variant, fields[..n + 1]) <==>
            && (IsWireValueField(variant, fields[n].name) || Convertible(fields[n].value))
            && fields[n].name !in DataOf(variant, fields[..n], serde)
    ensures Projectable(variant, fields) ==> Projectable(variant, fields[..n + 1])
    ensures DataOf(variant, fields[..n + 1], serde)
            == DataOf(variant, fields[..n], serde)[fields[n].name := FieldJson(variant, fields[n], serde)]
  {
    NextProjectable(variant, fields, n);
    NextData(variant, fields, n, serde);
    DataNames(variant, fields[..n], serde, fields[n].name);
  }

  method ProjectField(variant: string, field: Field, serde: WireValue -> Json) returns (r: Result<Json, EventError>)
    ensures r.Ok? <==> IsWireValueField(variant, field.name) || Convertible(field.value)
    ensures r.Ok? ==> r.value == FieldJson(variant, field, serde)
  {
    if IsWireValueField(variant, field.name) {
      return Ok(serde(field.value));
    }
    var projected := WireValueToJson(field.value, serde);
    return if projected.Ok? then Ok(projected.value) else Err(NotConvertible(projected.error));
  }

  method ProjectPayload(variant: string, fields: seq<Field>, serde: WireValue -> Json)
    returns (r: Result<map<string, Json>, EventError>)
    ensures r.Ok? <==> Projectable(variant, fields)
    ensures r.Ok? ==> r.value == DataOf(variant, fields, serde)
  {
    var data: map<string, Json> := map[];
    var n := 0;
    while n < |fields|
      invariant 0 <= n <= |fields|
      invariant Projectable(variant, fields[..n]) && data == DataOf(variant, fields[..n], serde)
    {
      var field := fields[n];
      NextProjected(variant, fields, n, serde);
      var projected := ProjectField(variant, field, serde);
      if projected.Err? {
        return Err(projected.error);
      }
      if field.name in data {
        return Err(DuplicateField(field.name));
      }
      data := data[field.name := projected.value];
      n := n + 1;
    }
    assert fields[..n] == fields;
    return Ok(data);
  }

  method Find(fields: seq<Field>, name: string) returns (found: Option<WireValue>)
    ensures found == Lookup(fields, name)
  {
    for n := 0 to |fields|
      invariant Lookup(fields, name) == Lookup(fields[n..], name)
    {
      assert fields[n..][0] == fields[n] && fields[n..][1..] == fields[n + 1..];
      if fields[n].name == name {
        return Some(fields[n].value);
      }
    }
    return None;
  }

  /** The fields below `data`. */
  method ReadData(data: WireValue) returns (r: Result<seq<Field>, EventError>)
    ensures r.Ok? ==> Spells(data, r.value)
    ensures r.Err? ==> forall fields :: !Spells(data, fields)
  {
    match data
    case Record(_, fields) => return Ok(fields);
    case Variant(_, _, fields) => return Ok(fields);
    case Map(entries) =>
      var fields: seq<Field> := [];
      for n := 0 to |entries|
        invariant |fields| == n
        invariant forall i :: 0 <= i < n ==>
                    entries[i].key.String? && fields[i] == Field(entries[i].key.text, entries[i].value)
      {
        if !entries[n].key.String? {
          assert AsFields(entries).None?;
          return Err(DataKeysMustBeStrings);
        }
        fields := fields + [Field(entries[n].key.text, entries[n].value)];
      }
      assert entries == AsEntries(fields);
      return Ok(fields);
    case _ => return Err(DataMustBeStructured);
  }

  /** The first half of `from_wire_value`: which event, and which payload fields. */
  method ReadPayload(v: WireValue) returns (r: Result<Payload, EventError>)
    ensures if r.Ok? then Spelled(v, r.value) else forall p :: !Spelled(v, p)
  {
    match v
    case Variant(typeId, variant, fields) =>
      return if typeId == EVENT_TYPE_ID then Ok(Payload(variant, fields)) else Err(NotAnEvent);
    case Record(typeId, fields) =>
      if typeId != EVENT_TYPE_ID {
        return Err(NotAnEvent);
      }
      var event := Find(fields, "event");
      if event.None? {
        return Err(NoEventField);
      }
      if !event.value.String? {
        return Err(EventMustBeAString);
      }
      var nested := Find(fields, "data");
      var flat: seq<Field> := [];
      ghost var at: seq<nat> := [];
      for n := 0 to |fields|
        invariant IsRest(fields[..n], flat, at)
      {
        RestGrows(fields, n, flat, at);
        if fields[n].name != "event" && fields[n].name != "data" {
          flat, at := flat + [fields[n]], at + [n];
        }
      }
      assert fields[..|fields|] == fields;
      if nested.None? {
        assert IsRecordPayload(fields, flat, flat, at, []) by {
          assert flat + [] == flat;
        }
        return Ok(Payload(event.value.text, flat));
      }
      var data := ReadData(nested.value);
      assert data.Ok? ==> IsRecordPayload(fields, flat + data.value, flat, at, data.value);
      return if data.Ok? then Ok(Payload(event.value.text, flat + data.value)) else Err(data.error);
    case _ => return Err(NotAnEvent);
  }

  /** `payload_fields`: the event must be known, and then each field one of its own. */
  method PayloadFields(p: Payload) returns (r: Result<(), EventError>)
    ensures r.Ok? <==> NamesAllowed(p)
    ensures r.Err? ==> if AllowedFields(p.variant).None? then r.error == UnknownVariant(p.variant)
                       else exists n :: && 0 <= n < |p.fields| && FirstInvalid(p, n)
                                        && r.error == InvalidField(p.fields[n].name)
  {
    var allowed := AllowedFields(p.variant);
    if allowed.None? {
      return Err(UnknownVariant(p.variant));
    }
    for n := 0 to |p.fields|
      invariant forall i :: 0 <= i < n ==> p.fields[i].name in allowed.value
    {
      if p.fields[n].name !in allowed.value {
        assert p.fields[n] in p.fields && FirstInvalid(p, n);
        return Err(InvalidField(p.fields[n].name));
      }
    }
    return Ok(());
  }

  /** The checks and the projection of `from_wire_value`. */
  method ToObject(v: WireValue, serde: WireValue -> Json) returns (r: Result<Json, EventError>)
    ensures r.Ok? <==> Meaning(v, serde).Some?
    ensures r.Ok? ==> r.value == Meaning(v, serde).value
  {
    var payload := ReadPayload(v);
    ReadAsSpelled(v, payload);
    if payload.Err? {
      return Err(payload.error);
    }
    var p := payload.value;
    var checked := PayloadFields(p);
    if checked.Err? {
      return Err(checked.error);
    }
    var data := ProjectPayload(p.variant, p.fields, serde);
    return if data.Ok? then Ok(EventObject(p.variant, data.value)) else Err(data.error);
  }

  /** The deserializer turns the event's object into `event`, or there is no such object, or it turns
      it down. */
  ghost predicate DecodesTo<E>(v: WireValue, event: Option<E>, serde: WireValue -> Json, decode: Json -> Option<E>) {
    if event.Some? then exists j :: IsObjectOf(v, j, serde) && decode(j) == event
    else forall j :: IsObjectOf(v, j, serde) ==> decode(j).None?
  }

  lemma DecodedIsExact<E>(v: WireValue, serde: WireValue -> Json, decode: Json -> Option<E>)
    ensures DecodesTo(v, Decoded(v, serde, decode), serde, decode)
  {
    forall j | IsObjectOf(v, j, serde)
      ensures Decoded(v, serde, decode) == decode(j)
    {
      MeaningIsExact(v, j, serde);
    }
    if Meaning(v, serde).Some? {
      MeaningIsExact(v, Meaning(v, serde).value, serde);
    }
  }

  /** `from_wire_value`. `decode` is the derived deserializer of events. */
  method FromWireValue<E>(v: WireValue, serde: WireValue -> Json, decode: Json -> Option<E>)
    returns (r: Result<E, EventError>)
    ensures r.Ok? <==> Decoded(v, serde, decode).Some?
    ensures r.Ok? ==> Decoded(v, serde, decode) == Some(r.value)
    ensures if r.Ok? then DecodesTo(v, Some(r.value), serde, decode) else DecodesTo(v, None, serde, decode)
  {
    DecodedIsExact(v, serde, decode);
    var projected := ToObject(v, serde);
    if projected.Err? {
      return Err(projected.error);
    }
    var event := decode(projected.value);
    return if event.Some? then Ok(event.value) else Err(Malformed);
  }

  // ----- The spellings agree -----

  function EventField(variant: string): Field {
    Field("event", String(variant))
  }

  lemma NestedPayload(first: Field, second: Field, variant: string, data: WireValue, fields: seq<Field>)
    requires Spells(data, fields)
    requires || (first, second) == (EventField(variant), Field("data", data))
             || (first, second) == (Field("data", data), EventField(variant))
    ensures PayloadOf(Record(EVENT_TYPE_ID, [first, second])) == Ok(Payload(variant, fields))
  {
    var all := [first, second];
    assert DataFields(data) == Ok(fields);
    assert all[1..] == [second] && all[1..][1..] == [];
    assert all[0].name == "event" || all[0].name == "data";
    assert Without(all[1..]) == [];
    assert Without(all) == [] + Without(all[1..]);
    assert Lookup(all, "event") == Some(String(variant)) && Lookup(all, "data") == Some(data);
    assert [] + fields == fields;
  }

  /** The payload nested under `data`, in any spelling and in either order, means the same. */
  lemma NestedSpellingsAgree(variant: string, fields: seq<Field>, data: WireValue, serde: WireValue -> Json)
    requires Spells(data, fields)
    ensures Meaning(Record(EVENT_TYPE_ID, [EventField(variant), Field("data", data)]), serde)
            == Meaning(Record(EVENT_TYPE_ID, [Field("data", data), EventField(variant)]), serde)
            == Meaning(Variant(EVENT_TYPE_ID, variant, fields), serde)
  {
    NestedPayload(EventField(variant), Field("data", data), variant, data, fields);
    NestedPayload(Field("data", data), EventField(variant), variant, data, fields);
  }

  lemma {:induction false} WithoutKeepsOthers(fields: seq<Field>)
    ensures forall f :: f in Without(fields) <==> f in fields && f.name != "event" && f.name != "data"
    ensures Lookup(fields, "event").None? && Lookup(fields, "data").None? <==> Without(fields) == fields
  {
    if fields != [] {
      var rest := fields[1..];
      assert fields == [fields[0]] + rest;
      WithoutKeepsOthers(rest);
      if Without(fields) == fields {
        assert fields[0] in Without(fields);
        assert Without(fields)[1..] == rest;
      }
    }
  }

  function Flat(variant: string, fields: seq<Field>): WireValue {
    Record(EVENT_TYPE_ID, [EventField(variant)] + fields)
  }

  lemma FlatPayload(variant: string, fields: seq<Field>)
    requires Lookup(fields, "data").None?
    ensures PayloadOf(Flat(variant, fields)) == Ok(Payload(variant, Without(fields)))
  {
    var all := [EventField(variant)] + fields;
    assert all[1..] == fields;
    assert Without(all) == [] + Without(fields) == Without(fields);
  }

  /** The flat record agrees on every payload without a field named like the record's own two. */
  lemma FlatSpellingAgrees(variant: string, fields: seq<Field>, serde: WireValue -> Json)
    requires Lookup(fields, "event").None? && Lookup(fields, "data").None?
    ensures Meaning(Flat(variant, fields), serde) == Meaning(Variant(EVENT_TYPE_ID, variant, fields), serde)
  {
    FlatPayload(variant, fields);
    WithoutKeepsOthers(fields);
  }

  /** For a well-formed event the condition is exact: the flat record agrees if and only if no payload
      field is named `event`. */
  lemma FlatAgreesExactly(variant: string, fields: seq<Field>, serde: WireValue -> Json)
    requires Meaning(Variant(EVENT_TYPE_ID, variant, fields), serde).Some?
    ensures Meaning(Flat(variant, fields), serde) == Meaning(Variant(EVENT_TYPE_ID, variant, fields), serde)
            <==> Lookup(fields, "event").None?
    ensures Lookup(fields, "event").Some? ==> variant == "tool_stream"
  {
    NoDataField(variant, fields);
    if Lookup(fields, "event").None? {
      FlatSpellingAgrees(variant, fields, serde);
    } else {
      FlatPayload(variant, fields);
      FlatLosesEvent(variant, fields, serde);
    }
  }

  lemma NoDataField(variant: string, fields: seq<Field>)
    requires NamesAllowed(Payload(variant, fields))
    ensures Lookup(fields, "data").None?
    ensures Lookup(fields, "event").Some? ==> variant == "tool_stream"
  {
    OnlyToolStreamHasEvent(variant);
    NoneHasData(variant);
    LookupFinds(fields, "data");
    LookupFinds(fields, "event");
    var allowed := AllowedFields(variant).value;
    forall i | 0 <= i < |fields|
      ensures fields[i].name in allowed
    {
      assert fields[i] in fields;
    }
  }

  lemma OnlyToolStreamHasEvent(variant: string)
    requires AllowedFields(variant).Some?
    ensures "event" in AllowedFields(variant).value <==> variant == "tool_stream"
  {
  }

  lemma NoneHasData(variant: string)
    requires AllowedFields(variant).Some?
    ensures "data" !in AllowedFields(variant).value
  {
  }

  lemma FlatHasNoEvent(variant: string, fields: seq<Field>, serde: WireValue -> Json)
    ensures "event" !in DataOf(variant, Without(fields), serde)
  {
    var flat := Without(fields);
    WithoutKeepsOthers(fields);
    LookupFinds(flat, "event");
    forall i | 0 <= i < |flat|
      ensures flat[i].name != "event"
    {
      assert flat[i] in flat;
    }
    DataNames(variant, flat, serde, "event");
  }

  lemma FlatLosesEvent(variant: string, fields: seq<Field>, serde: WireValue -> Json)
    requires Lookup(fields, "event").Some?
    ensures EventObject(variant, DataOf(variant, Without(fields), serde))
            != EventObject(variant, DataOf(variant, fields, serde))
  {
    FlatHasNoEvent(variant, fields, serde);
    DataNames(variant, fields, serde, "event");
    DifferentData(variant, DataOf(variant, Without(fields), serde), DataOf(variant, fields, serde));
  }

  lemma DifferentData(variant: string, a: map<string, Json>, b: map<string, Json>)
    requires a != b
    ensures EventObject(variant, a) != EventObject(variant, b)
  {
    var x, y := EventObject(variant, a).members, EventObject(variant, b).members;
    assert a != map[] ==> "data" in x && x["data"] == JObject(a);
    assert b != map[] ==> "data" in y && y["data"] == JObject(b);
    assert a == map[] ==> "data" !in x;
    assert b == map[] ==> "data" !in y;
  }

  /** The deserializer refuses a `tool_stream` without its declared field `event`. */
  ghost predicate NeedsEvent<E(!new)>(decode: Json -> Option<E>) {
    forall data :: decode(EventObject("tool_stream", data)).Some? ==> "event" in data
  }

  /** For every value that decodes as a variant, the flat record decodes to the same event if and only
      if no payload field is named `event`; otherwise it does not decode at all. */
  lemma FlatDecodesExactly<E(!new)>(variant: string, fields: seq<Field>, serde: WireValue -> Json,
                                    decode: Json -> Option<E>)
    requires NeedsEvent(decode)
    requires Decoded(Variant(EVENT_TYPE_ID, variant, fields), serde, decode).Some?
    ensures Decoded(Flat(variant, fields), serde, decode)
            == Decoded(Variant(EVENT_TYPE_ID, variant, fields), serde, decode)
            <==> Lookup(fields, "event").None?
    ensures Lookup(fields, "event").Some? ==>
              variant == "tool_stream" && Decoded(Flat(variant, fields), serde, decode).None?
  {
    NoDataField(variant, fields);
    if Lookup(fields, "event").None? {
      FlatSpellingAgrees(variant, fields, serde);
    } else {
      FlatPayload(variant, fields);
      FlatHasNoEvent(variant, fields, serde);
    }
  }

  // ----- A `tool_stream` event that the flat record loses -----

  /** A progress event of a tool's stream, without a percentage. */
  datatype ToolProgress = ToolProgress(callId: string, name: string, message: string)

  predicate HasFields(j: Json, names: set<string>) {
    j.JObject? && j.members.Keys == names
  }

  /** What the derived deserializer does with such an event: every declared field, and no other. */
  function DecodeToolProgress(j: Json): Option<ToolProgress> {
    if && HasFields(j, {"event", "data"}) && j.members["event"] == JString("tool_stream")
       && HasFields(j.members["data"], {"call_id", "name", "event"})
       && j.members["data"].members["call_id"].JString? && j.members["data"].members["name"].JString?
       && HasFields(j.members["data"].members["event"], {"event", "message", "percent"})
       && j.members["data"].members["event"].members["event"] == JString("progress")
       && j.members["data"].members["event"].members["message"].JString?
       && j.members["data"].members["event"].members["percent"] == JNull
    then
      var data := j.members["data"].members;
      Some(ToolProgress(data["call_id"].s, data["name"].s, data["event"].members["message"].s))
    else None
  }

  function ProgressEvent(): seq<Field> {
    [Field("event", String("progress")), Field("message", String("half way")), Field("percent", Null)]
  }

  function ProgressFields(): seq<Field> {
    [Field("call_id", String("call")), Field("name", String("shell")),
     Field("event", Record("progress", ProgressEvent()))]
  }

  lemma MembersOfThree(a: Field, b: Field, c: Field, serde: WireValue -> Json)
    ensures MembersOf([a, b, c], serde)
            == map[][a.name := JsonOf(a.value, serde)][b.name := JsonOf(b.value, serde)]
                    [c.name := JsonOf(c.value, serde)]
  {
    assert [a, b, c][..2] == [a, b] && [a, b][..1] == [a] && [a][..0] == [];
    assert MembersOf([a], serde) == map[][a.name := JsonOf(a.value, serde)];
    assert MembersOf([a, b], serde) == MembersOf([a], serde)[b.name := JsonOf(b.value, serde)];
  }

  lemma DataOfThree(variant: string, a: Field, b: Field, c: Field, serde: WireValue -> Json)
    ensures DataOf(variant, [a, b, c], serde)
            == map[][a.name := FieldJson(variant, a, serde)][b.name := FieldJson(variant, b, serde)]
                    [c.name := FieldJson(variant, c, serde)]
  {
    assert [a, b, c][..2] == [a, b] && [a, b][..1] == [a] && [a][..0] == [];
    assert DataOf(variant, [a], serde) == map[][a.name := FieldJson(variant, a, serde)];
    assert DataOf(variant, [a, b], serde) == DataOf(variant, [a], serde)[b.name := FieldJson(variant, b, serde)];
  }

  lemma ThreeNames(a: Field, b: Field, c: Field)
    requires a.name != b.name && b.name != c.name && a.name != c.name
    ensures Distinct(Names([a, b, c]))
  {
  }

  lemma ProgressIsConvertible()
    ensures Convertible(Record("progress", ProgressEvent()))
  {
    var event := ProgressEvent();
    assert |"event"| == 5 && |"message"| == 7 && "message"[0] != "percent"[0];
    ThreeNames(event[0], event[1], event[2]);
  }

  lemma ProgressIsProjectable()
    ensures Projectable("tool_stream", ProgressFields())
  {
    var fields := ProgressFields();
    assert |"call_id"| == 7 && |"name"| == 4 && |"event"| == 5;
    ThreeNames(fields[0], fields[1], fields[2]);
    ProgressIsConvertible();
  }

  lemma ProgressIsAllowed()
    ensures NamesAllowed(Payload("tool_stream", ProgressFields()))
  {
    assert AllowedFields("tool_stream") == Some(["call_id", "name", "event"]);
  }

  lemma ThreeMembers(a: Field, b: Field, c: Field, serde: WireValue -> Json) returns (members: map<string, Json>)
    requires a.name != b.name && b.name != c.name && a.name != c.name
    ensures members == MembersOf([a, b, c], serde) && members.Keys == {a.name, b.name, c.name}
    ensures members[a.name] == JsonOf(a.value, serde) && members[b.name] == JsonOf(b.value, serde)
    ensures members[c.name] == JsonOf(c.value, serde)
  {
    MembersOfThree(a, b, c, serde);
    members := MembersOf([a, b, c], serde);
  }

  lemma ThreeData(variant: string, a: Field, b: Field, c: Field, serde: WireValue -> Json)
    returns (data: map<string, Json>)
    requires a.name != b.name && b.name != c.name && a.name != c.name
    ensures data == DataOf(variant, [a, b, c], serde) && data.Keys == {a.name, b.name, c.name}
    ensures data[a.name] == FieldJson(variant, a, serde) && data[b.name] == FieldJson(variant, b, serde)
    ensures data[c.name] == FieldJson(variant, c, serde)
  {
    DataOfThree(variant, a, b, c, serde);
    data := DataOf(variant, [a, b, c], serde);
  }

  lemma ProgressMembers(serde: WireValue -> Json) returns (members: map<string, Json>)
    ensures members == MembersOf(ProgressEvent(), serde)
    ensures members.Keys == {"event", "message", "percent"} && members["event"] == JString("progress")
    ensures members["message"] == JString("half way") && members["percent"] == JNull
  {
    assert |"event"| == 5 && |"message"| == 7 && "message"[0] != "percent"[0];
    members := ThreeMembers(Field("event", String("progress")), Field("message", String("half way")),
                            Field("percent", Null), serde);
  }

  lemma ProgressData(serde: WireValue -> Json) returns (data: map<string, Json>)
    ensures data == DataOf("tool_stream", ProgressFields(), serde)
    ensures data.Keys == {"call_id", "name", "event"} && data["event"] == JObject(MembersOf(ProgressEvent(), serde))
    ensures data["call_id"] == JString("call") && data["name"] == JString("shell")
  {
    assert |"call_id"| == 7 && |"name"| == 4 && |"event"| == 5;
    var event := Record("progress", ProgressEvent());
    data := ThreeData("tool_stream", Field("call_id", String("call")), Field("name", String("shell")),
                      Field("event", event), serde);
    assert JsonOf(event, serde) == JObject(MembersOf(ProgressEvent(), serde));
  }

  lemma ProgressDecodes(data: map<string, Json>, members: map<string, Json>)
    requires data.Keys == {"call_id", "name", "event"} && data["event"] == JObject(members)
    requires data["call_id"] == JString("call") && data["name"] == JString("shell")
    requires members.Keys == {"event", "message", "percent"} && members["event"] == JString("progress")
    requires members["message"] == JString("half way") && members["percent"] == JNull
    ensures DecodeToolProgress(EventObject("tool_stream", data)) == Some(ToolProgress("call", "shell", "half way"))
  {
    assert "event" in data.Keys;
    var all := EventObject("tool_stream", data).members;
    assert all["data"] == JObject(data) && all.Keys == {"event", "data"};
  }

  lemma ProgressNeedsEvent()
    ensures NeedsEvent(DecodeToolProgress)
  {
    forall data | DecodeToolProgress(EventObject("tool_stream", data)).Some?
      ensures "event" in data
    {
      var members := EventObject("tool_stream", data).members;
      assert "data" in members && members["data"] == JObject(data);
      assert "event" in data.Keys;
    }
  }

  lemma ProgressHasEvent()
    ensures Lookup(ProgressFields(), "event").Some?
  {
    assert ProgressFields()[2].name == "event";
    LookupFinds(ProgressFields(), "event");
  }

  lemma VariantDecodes<E>(variant: string, fields: seq<Field>, serde: WireValue -> Json, decode: Json -> Option<E>)
    requires NamesAllowed(Payload(variant, fields)) && Projectable(variant, fields)
    ensures Decoded(Variant(EVENT_TYPE_ID, variant, fields), serde, decode)
            == decode(EventObject(variant, DataOf(variant, fields, serde)))
  {
  }

  lemma FlatIsRefused<E(!new)>(fields: seq<Field>, serde: WireValue -> Json, decode: Json -> Option<E>, event: E)
    requires NamesAllowed(Payload("tool_stream", fields)) && Projectable("tool_stream", fields)
    requires decode(EventObject("tool_stream", DataOf("tool_stream", fields, serde))) == Some(event)
    requires NeedsEvent(decode) && Lookup(fields, "event").Some?
    ensures Decoded(Variant(EVENT_TYPE_ID, "tool_stream", fields), serde, decode) == Some(event)
    ensures Decoded(Flat("tool_stream", fields), serde, decode) == None
  {
    VariantDecodes("tool_stream", fields, serde, decode);
    FlatDecodesExactly("tool_stream", fields, serde, decode);
  }

  /** The variant is decoded and the flat record of the same fields is refused. */
  lemma FlatLosesToolStream(fields: seq<Field>, serde: WireValue -> Json)
    requires fields == ProgressFields()
    ensures Decoded(Variant(EVENT_TYPE_ID, "tool_stream", fields), serde, DecodeToolProgress)
            == Some(ToolProgress("call", "shell", "half way"))
    ensures Decoded(Flat("tool_stream", fields), serde, DecodeToolProgress) == None
  {
    ProgressIsProjectable();
    ProgressIsAllowed();
    ProgressHasEvent();
    ProgressNeedsEvent();
    var data := ProgressData(serde);
    var members := ProgressMembers(serde);
    ProgressDecodes(data, members);
    FlatIsRefused(fields, serde, DecodeToolProgress, ToolProgress("call", "shell", "half way"));
  }

  /** The order of the payload fields does not matter. */
  lemma OrderDoesNotMatter(variant: string, a: seq<Field>, b: seq<Field>, serde: WireValue -> Json)
    requires multiset(a) == multiset(b)
    ensures Meaning(Variant(EVENT_TYPE_ID, variant, a), serde) == Meaning(Variant(EVENT_TYPE_ID, variant, b), serde)
  {
    PermutedNames(a, b);
    assert NamesAllowed(Payload(variant, a)) <==> NamesAllowed(Payload(variant, b));
    assert Projectable(variant, a) <==> Projectable(variant, b);
    if Distinct(Names(a)) {
      forall name
        ensures name in DataOf(variant, a, serde) <==> name in DataOf(variant, b, serde)
        ensures name in DataOf(variant, a, serde) ==> DataOf(variant, a, serde)[name] == DataOf(variant, b, serde)[name]
      {
        DataNames(variant, a, serde, name);
        DataNames(variant, b, serde, name);
        LookupIgnoresOrder(a, b, name);
        if Lookup(a, name).Some? {
          var f := Field(name, Lookup(a, name).value);
          LookupIsMembership(a, name, f.value);
          DataValues(variant, a, serde, f);
          DataValues(variant, b, serde, f);
        }
      }
      assert DataOf(variant, a, serde) == DataOf(variant, b, serde);
    }
  }
}
