/**
 The normal form of a rendered API shape (echo-sdk-protocol/src/inventory.rs, `normalize_shape`):
 unstable keys and parameter names are dropped at every depth.
 */
module ShapeNormal {
  import opened WireValues

  const UNSTABLE := {"id", "impls", "items", "fields", "variants", "implementations", "span",
                     "default_unstable", "is_stripped", "has_stripped_fields"}

  function Normalize(j: Json): Json
    decreases j, 0
  {
    match j
    case JObject(members) =>
      JObject(map k | k in members && k !in UNSTABLE ::
                (if k == "inputs" && members[k].JArray? then NormalizeInputs(members[k].elements)
                 else Normalize(members[k])))
    case JArray(elements) => JArray(seq(|elements|, i requires 0 <= i < |elements| => Normalize(elements[i])))
    case _ => j
  }

  /** Inputs are pairs of a parameter name and a type; the name goes. */
  function NormalizeInputs(inputs: seq<Json>): Json
    decreases inputs, 0
  {
    JArray(seq(|inputs|, i requires 0 <= i < |inputs| => NormalizeInput(inputs[i])))
  }

  function NormalizeInput(input: Json): Json
    decreases input, 1
  {
    if IsPair(input) then JArray([Normalize(input.elements[1])]) else Normalize(input)
  }

  predicate IsPair(input: Json) {
    input.JArray? && |input.elements| == 2
  }

  /** No unstable key and no parameter name at any depth. */
  predicate IsNormal(j: Json) {
    match j
    case JObject(members) =>
      && (forall k :: k in members ==> k !in UNSTABLE && IsNormal(members[k]))
      && ("inputs" in members && members["inputs"].JArray? ==>
            forall i :: 0 <= i < |members["inputs"].elements| ==> !IsPair(members["inputs"].elements[i]))
    case JArray(elements) => forall i :: 0 <= i < |elements| ==> IsNormal(elements[i])
    case _ => true
  }

  lemma {:induction false} NormalizedIsNormal(j: Json)
    ensures IsNormal(Normalize(j))
    decreases j, 0
  {
    match j
    case JObject(members) =>
      forall k | k in members && k !in UNSTABLE
        ensures IsNormal(Normalize(j).members[k])
      {
        if k == "inputs" && members[k].JArray? {
          NormalizedInputsAreNormal(members[k].elements);
        } else {
          NormalizedIsNormal(members[k]);
        }
      }
      if "inputs" in members && members["inputs"].JArray? {
        NormalizedInputsAreNormal(members["inputs"].elements);
      }
    case JArray(elements) =>
      forall i | 0 <= i < |elements|
        ensures IsNormal(Normalize(elements[i]))
      {
        NormalizedIsNormal(elements[i]);
      }
    case _ =>
  }

  lemma {:induction false} NormalizedInputsAreNormal(inputs: seq<Json>)
    ensures IsNormal(NormalizeInputs(inputs))
    ensures forall i :: 0 <= i < |inputs| ==> !IsPair(NormalizeInput(inputs[i]))
    decreases inputs, 0
  {
    forall i | 0 <= i < |inputs|
      ensures IsNormal(NormalizeInput(inputs[i])) && !IsPair(NormalizeInput(inputs[i]))
    {
      NormalizedInputIsNormal(inputs[i]);
    }
  }

  lemma {:induction false} NormalizedInputIsNormal(input: Json)
    ensures IsNormal(NormalizeInput(input)) && !IsPair(NormalizeInput(input))
    decreases input, 1
  {
    if !IsPair(input) {
      NormalizedIsNormal(input);
    } else {
      NormalizedIsNormal(input.elements[1]);
    }
  }

  /** Normal forms are left alone, so normalizing twice is normalizing once. */
  lemma {:induction false} NormalIsFixed(j: Json)
    requires IsNormal(j)
    ensures Normalize(j) == j
  {
    match j
    case JObject(members) =>
      forall k | k in members
        ensures Normalize(j).members[k] == members[k]
      {
        NormalIsFixed(members[k]);
        if k == "inputs" && members[k].JArray? {
          InputsAreFixed(members[k].elements);
        }
      }
      assert Normalize(j).members == members;
    case JArray(elements) =>
      forall i | 0 <= i < |elements|
        ensures Normalize(elements[i]) == elements[i]
      {
        NormalIsFixed(elements[i]);
      }
    case _ =>
  }

  lemma {:induction false} InputsAreFixed(inputs: seq<Json>)
    requires forall i :: 0 <= i < |inputs| ==> IsNormal(inputs[i]) && !IsPair(inputs[i])
    ensures NormalizeInputs(inputs) == JArray(inputs)
  {
    forall i | 0 <= i < |inputs|
      ensures NormalizeInput(inputs[i]) == inputs[i]
    {
      NormalIsFixed(inputs[i]);
    }
    assert NormalizeInputs(inputs).elements == inputs;
  }

  lemma NormalizeIsIdempotent(j: Json)
    ensures Normalize(Normalize(j)) == Normalize(j)
  {
    NormalizedIsNormal(j);
    NormalIsFixed(Normalize(j));
  }

  // ----- What is kept -----

  /** `n` keeps everything of `j` but unstable keys and parameter names: a leaf as it is, an array by
      position, and an object under its own stable keys. */
  predicate Keeps(j: Json, n: Json)
    decreases j, 0
  {
    match j
    case JObject(members) =>
      && n.JObject? && n.members.Keys == members.Keys - UNSTABLE
      && forall k :: k in n.members ==>
           if k == "inputs" && members[k].JArray? then KeepsInputs(members[k].elements, n.members[k])
           else Keeps(members[k], n.members[k])
    case JArray(elements) =>
      && n.JArray? && |n.elements| == |elements|
      && forall i :: 0 <= i < |elements| ==> Keeps(elements[i], n.elements[i])
    case _ => n == j
  }

  /** Of a pair the second component is kept, alone; any other input is kept as it is. */
  predicate KeepsInputs(inputs: seq<Json>, n: Json)
    decreases inputs, 0
  {
    && n.JArray? && |n.elements| == |inputs|
    && forall i :: 0 <= i < |inputs| ==>
         if IsPair(inputs[i]) then
           && n.elements[i].JArray? && |n.elements[i].elements| == 1
           && Keeps(inputs[i].elements[1], n.elements[i].elements[0])
         else Keeps(inputs[i], n.elements[i])
  }

  lemma {:induction false} ElementsAreKept(elements: seq<Json>, n: Json)
    ensures Keeps(JArray(elements), n) <==> n == Normalize(JArray(elements))
    decreases elements, 1
  {
    if n.JArray? && |n.elements| == |elements| {
      forall i | 0 <= i < |elements|
        ensures Keeps(elements[i], n.elements[i]) <==> n.elements[i] == Normalize(elements[i])
      {
        KeptExactly(elements[i], n.elements[i]);
      }
      if Keeps(JArray(elements), n) {
        assert n.elements == Normalize(JArray(elements)).elements;
      }
    }
  }

  lemma {:induction false} InputsAreKept(inputs: seq<Json>, n: Json)
    ensures KeepsInputs(inputs, n) <==> n == NormalizeInputs(inputs)
    decreases inputs, 1
  {
    if n.JArray? && |n.elements| == |inputs| {
      forall i | 0 <= i < |inputs|
        ensures (if IsPair(inputs[i]) then
                   && n.elements[i].JArray? && |n.elements[i].elements| == 1
                   && Keeps(inputs[i].elements[1], n.elements[i].elements[0])
                 else Keeps(inputs[i], n.elements[i]))
                <==> n.elements[i] == NormalizeInput(inputs[i])
      {
        if !IsPair(inputs[i]) {
          KeptExactly(inputs[i], n.elements[i]);
        } else if n.elements[i].JArray? && |n.elements[i].elements| == 1 {
          assert inputs[i].elements[1] < inputs[i];
          KeptExactly(inputs[i].elements[1], n.elements[i].elements[0]);
          assert n.elements[i].elements == [n.elements[i].elements[0]];
        }
      }
      if KeepsInputs(inputs, n) {
        assert n.elements == NormalizeInputs(inputs).elements;
      }
    }
  }

  /** The normal form is the one shape that keeps everything else. */
  lemma {:induction false} KeptExactly(j: Json, n: Json)
    ensures Keeps(j, n) <==> n == Normalize(j)
    decreases j, 2
  {
    match j {
      case JObject(members) =>
        var normal := Normalize(j).members;
        assert normal.Keys == members.Keys - UNSTABLE;
        if n.JObject? && n.members.Keys == members.Keys - UNSTABLE {
          forall k | k in n.members
            ensures (if k == "inputs" && members[k].JArray? then KeepsInputs(members[k].elements, n.members[k])
                     else Keeps(members[k], n.members[k]))
                    <==> n.members[k] == normal[k]
          {
            if k == "inputs" && members[k].JArray? {
              InputsAreKept(members[k].elements, n.members[k]);
            } else {
              KeptExactly(members[k], n.members[k]);
            }
          }
          assert Keeps(j, n) ==> n.members == normal;
        }
      case JArray(elements) => ElementsAreKept(elements, n);
      case _ =>
    }
  }
}
