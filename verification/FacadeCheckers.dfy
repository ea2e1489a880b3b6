/**
 The checkers of the facade family table (echo-sdk-protocol/src/facade.rs) and of the method catalog
 (echo-sdk-protocol/src/catalog.rs): each reports exactly the violations there are, and tables that
 pass both pair every catalog method with one family slot.
 */
module FacadeCheckers {
  import opened Prelude
  import opened Sorting
  import opened FacadeRoutes

  // ----- The family table -----

  /** A place in a family's method list. */
  datatype Slot = Slot(name: string, family: string)

  datatype TableProblem =
    | DuplicateFamily(family: string)
    | WildcardMethod(name: string)
    | UnknownMethod(family: string, name: string)
    | OwnedTwice(name: string, owner: string, family: string)
    | NoSourcePrefixes(family: string)
    | NoValidation(family: string)
    | Unowned(name: string)

  function SlotsOf(family: string, methods: seq<string>): (slots: seq<Slot>)
    ensures |slots| == |methods|
    ensures forall i :: 0 <= i < |methods| ==> slots[i] == Slot(methods[i], family)
  {
    seq(|methods|, i requires 0 <= i < |methods| => Slot(methods[i], family))
  }

  /** The families' method lists, one after the other. */
  function Slots(families: seq<Descriptor>): seq<Slot> {
    if families == [] then []
    else
      var last := families[|families| - 1];
      Slots(families[..|families| - 1]) + SlotsOf(last.family, last.methods)
  }

  function LastOwner(slots: seq<Slot>, name: string): Option<string> {
    if slots == [] then None
    else if slots[|slots| - 1].name == name then Some(slots[|slots| - 1].family)
    else LastOwner(slots[..|slots| - 1], name)
  }

  ghost predicate SlotProblem(slots: seq<Slot>, catalog: seq<string>, p: TableProblem) {
    match p
    case WildcardMethod(name) => '*' in name && exists i :: 0 <= i < |slots| && slots[i].name == name
    case UnknownMethod(family, name) => name !in catalog && Slot(name, family) in slots
    case OwnedTwice(name, owner, family) =>
      exists i :: 0 <= i < |slots| && slots[i] == Slot(name, family) && LastOwner(slots[..i], name) == Some(owner)
    case _ => false
  }

  ghost predicate RowProblem(families: seq<Descriptor>, p: TableProblem) {
    match p
    case DuplicateFamily(family) =>
      exists i, j :: 0 <= i < j < |families| && families[i].family == families[j].family == family
    case NoSourcePrefixes(family) =>
      exists d :: d in families && d.family == family && d.sourceRouted && d.sourcePrefixes == []
    case NoValidation(family) =>
      exists d :: d in families && d.family == family && family != "intrinsic" && d.validation == []
    case _ => false
  }

  ghost predicate TableViolates(families: seq<Descriptor>, catalog: seq<string>, p: TableProblem) {
    || RowProblem(families, p)
    || SlotProblem(Slots(families), catalog, p)
    || (p.Unowned? && p.name in catalog && LastOwner(Slots(families), p.name).None?)
  }

  /** What one more slot adds. */
  predicate SlotAdds(slots: seq<Slot>, s: Slot, catalog: seq<string>, p: TableProblem) {
    || ('*' in s.name && p == WildcardMethod(s.name))
    || (s.name !in catalog && p == UnknownMethod(s.family, s.name))
    || (LastOwner(slots, s.name).Some? && p == OwnedTwice(s.name, LastOwner(slots, s.name).value, s.family))
  }

  lemma OneMoreSlot(slots: seq<Slot>, s: Slot, catalog: seq<string>, p: TableProblem)
    ensures SlotProblem(slots + [s], catalog, p) <==> SlotProblem(slots, catalog, p) || SlotAdds(slots, s, catalog, p)
  {
    var more := slots + [s];
    assert forall i :: 0 <= i < |slots| ==> more[i] == slots[i] && more[..i] == slots[..i];
    assert more[|slots|] == s && more[..|slots|] == slots;
  }

  lemma {:induction false} OwnersAreSlots(slots: seq<Slot>, name: string)
    ensures LastOwner(slots, name).Some? <==> exists i :: 0 <= i < |slots| && slots[i].name == name
  {
    if slots != [] {
      var init := slots[..|slots| - 1];
      OwnersAreSlots(init, name);
      assert forall i :: 0 <= i < |init| ==> slots[i] == init[i];
    }
  }

  predicate RowAdds(families: seq<Descriptor>, d: Descriptor, p: TableProblem) {
    || ((exists i :: 0 <= i < |families| && families[i].family == d.family) && p == DuplicateFamily(d.family))
    || (d.sourceRouted && d.sourcePrefixes == [] && p == NoSourcePrefixes(d.family))
    || (d.family != "intrinsic" && d.validation == [] && p == NoValidation(d.family))
  }

  lemma OneMoreRow(families: seq<Descriptor>, d: Descriptor, p: TableProblem)
    ensures RowProblem(families + [d], p) <==> RowProblem(families, p) || RowAdds(families, d, p)
  {
    var more := families + [d];
    assert forall i :: 0 <= i < |families| ==> more[i] == families[i];
    assert more[|families|] == d;
  }

  /** `owned` holds the last owner of each method. */
  ghost predicate Owns(slots: seq<Slot>, owned: map<string, string>) {
    forall name :: LastOwner(slots, name) == (if name in owned then Some(owned[name]) else None)
  }

  lemma OwnsOneMore(slots: seq<Slot>, owned: map<string, string>, s: Slot)
    requires Owns(slots, owned)
    ensures Owns(slots + [s], owned[s.name := s.family])
  {
    assert (slots + [s])[..|slots|] == slots;
  }

  /** The loop over one row's methods; `known` is what was reported before. */
  method CheckMethods(descriptor: Descriptor, catalog: seq<string>,
                      ghost slots: seq<Slot>, ghost known: set<TableProblem>,
                      problems: seq<TableProblem>, owned: map<string, string>)
    returns (reported: seq<TableProblem>, owners: map<string, string>)
    requires Owns(slots, owned)
    requires forall p :: p in problems <==> p in known || SlotProblem(slots, catalog, p)
    ensures Owns(slots + SlotsOf(descriptor.family, descriptor.methods), owners)
    ensures forall p :: p in reported <==>
              p in known || SlotProblem(slots + SlotsOf(descriptor.family, descriptor.methods), catalog, p)
  {
    reported, owners := problems, owned;
    ghost var seen := slots;
    var i := 0;
    while i < |descriptor.methods|
      invariant 0 <= i <= |descriptor.methods|
      invariant seen == slots + SlotsOf(descriptor.family, descriptor.methods[..i]) && Owns(seen, owners)
      invariant forall p :: p in reported <==> p in known || SlotProblem(seen, catalog, p)
    {
      var name := descriptor.methods[i];
      ghost var s := Slot(name, descriptor.family);
      assert SlotsOf(descriptor.family, descriptor.methods[..i + 1])
          == SlotsOf(descriptor.family, descriptor.methods[..i]) + [s];
      var added := (if '*' in name then [WildcardMethod(name)] else [])
        + (if name !in catalog then [UnknownMethod(descriptor.family, name)] else [])
        + (if name in owners then [OwnedTwice(name, owners[name], descriptor.family)] else []);
      forall p
        ensures p in added <==> SlotAdds(seen, s, catalog, p)
        ensures SlotProblem(seen + [s], catalog, p) <==> SlotProblem(seen, catalog, p) || SlotAdds(seen, s, catalog, p)
      {
        OneMoreSlot(seen, s, catalog, p);
      }
      OwnsOneMore(seen, owners, s);
      reported, owners, seen := reported + added, owners[name := descriptor.family], seen + [s];
      i := i + 1;
    }
    assert descriptor.methods[..i] == descriptor.methods;
  }

  /** The violations found in some rows, without those of methods that no row owns. */
  ghost predicate Reports(problems: seq<TableProblem>, families: seq<Descriptor>, catalog: seq<string>) {
    forall p :: p in problems <==> RowProblem(families, p) || SlotProblem(Slots(families), catalog, p)
  }

  /** One row. */
  method CheckRow(ghost rows: seq<Descriptor>, descriptor: Descriptor, catalog: seq<string>, seenFamilies: seq<string>,
                  problems: seq<TableProblem>, owned: map<string, string>)
    returns (reported: seq<TableProblem>, owners: map<string, string>)
    requires seenFamilies == FamilyNames(rows)
    requires Owns(Slots(rows), owned) && Reports(problems, rows, catalog)
    ensures Owns(Slots(rows + [descriptor]), owners) && Reports(reported, rows + [descriptor], catalog)
  {
    assert (rows + [descriptor])[..|rows|] == rows;
    var before := if descriptor.family in seenFamilies then [DuplicateFamily(descriptor.family)] else [];
    ghost var known := set p | p in problems + before && (p in before || RowProblem(rows, p));
    reported, owners := CheckMethods(descriptor, catalog, Slots(rows), known, problems + before, owned);
    var family := descriptor.family;
    var after := (if descriptor.sourceRouted && descriptor.sourcePrefixes == [] then [NoSourcePrefixes(family)] else [])
      + (if family != "intrinsic" && descriptor.validation == [] then [NoValidation(family)] else []);
    forall p
      ensures p in before || p in after <==> RowAdds(rows, descriptor, p)
      ensures RowProblem(rows + [descriptor], p) <==> RowProblem(rows, p) || RowAdds(rows, descriptor, p)
    {
      OneMoreRow(rows, descriptor, p);
    }
    reported := reported + after;
  }

  /** The last loop: catalog methods that no family owns. */
  method CheckOwners(ghost slots: seq<Slot>, catalog: seq<string>, owned: map<string, string>)
    returns (problems: seq<TableProblem>)
    requires Owns(slots, owned)
    ensures forall p :: p in problems <==> p.Unowned? && p.name in catalog && LastOwner(slots, p.name).None?
  {
    problems := [];
    for n := 0 to |catalog|
      invariant forall p :: p in problems <==> p.Unowned? && p.name in catalog[..n] && LastOwner(slots, p.name).None?
    {
      assert catalog[..n + 1] == catalog[..n] + [catalog[n]];
      assert LastOwner(slots, catalog[n]).None? <==> catalog[n] !in owned;
      if catalog[n] !in owned {
        problems := problems + [Unowned(catalog[n])];
      }
    }
    assert catalog[..|catalog|] == catalog;
  }

  /** `validate_facade_route_table`: reports exactly the violations. */
  method ValidateFacadeRouteTable(families: seq<Descriptor>, catalog: seq<string>) returns (problems: seq<TableProblem>)
    ensures forall p :: p in problems <==> TableViolates(families, catalog, p)
    ensures problems == [] <==> TableIsSound(families, catalog)
  {
    problems := [];
    var owned: map<string, string> := map[];
    var seenFamilies: seq<string> := [];
    var i := 0;
    while i < |families|
      invariant 0 <= i <= |families|
      invariant seenFamilies == FamilyNames(families[..i])
      invariant Owns(Slots(families[..i]), owned) && Reports(problems, families[..i], catalog)
    {
      assert families[..i + 1] == families[..i] + [families[i]];
      problems, owned := CheckRow(families[..i], families[i], catalog, seenFamilies, problems, owned);
      seenFamilies := seenFamilies + [families[i].family];
      i := i + 1;
    }
    assert families[..i] == families;
    var unowned := CheckOwners(Slots(families), catalog, owned);
    problems := problems + unowned;
    SoundIffNoViolation(families, catalog);
    assert problems != [] ==> problems[0] in problems;
  }

  // ----- What the absence of violations means -----

  function FlatMethods(families: seq<Descriptor>): (names: seq<string>) {
    var slots := Slots(families);
    seq(|slots|, i requires 0 <= i < |slots| => slots[i].name)
  }

  function FamilyNames(families: seq<Descriptor>): (names: seq<string>)
    ensures |names| == |families| && forall i :: 0 <= i < |names| ==> names[i] == families[i].family
  {
    Each(families, (d: Descriptor) => d.family)
  }

  ghost predicate TableIsSound(families: seq<Descriptor>, catalog: seq<string>) {
    && Distinct(FamilyNames(families))
    && Distinct(FlatMethods(families))
    && (forall name :: name in FlatMethods(families) <==> name in catalog)
    && (forall name :: name in catalog ==> '*' !in name)
    && forall d :: d in families ==>
         (d.sourceRouted ==> d.sourcePrefixes != []) && (d.family != "intrinsic" ==> d.validation != [])
  }

  lemma SoundHasNoDuplicate(families: seq<Descriptor>, catalog: seq<string>)
    requires TableIsSound(families, catalog)
    ensures forall i, j :: 0 <= i < j < |families| ==> families[i].family != families[j].family
  {
    var names := FamilyNames(families);
    forall i, j | 0 <= i < j < |families|
      ensures families[i].family != families[j].family
    {
      assert names[i] != names[j];
    }
  }

  lemma SoundSlotsAreListed(families: seq<Descriptor>, catalog: seq<string>)
    requires TableIsSound(families, catalog)
    ensures forall s :: s in Slots(families) ==> s.name in catalog && '*' !in s.name
  {
    var slots, flat := Slots(families), FlatMethods(families);
    forall s | s in slots
      ensures s.name in flat
    {
      var i :| 0 <= i < |slots| && slots[i] == s;
      assert flat[i] == s.name;
    }
  }

  lemma SoundHasNoOwner(families: seq<Descriptor>, catalog: seq<string>, i: nat)
    requires TableIsSound(families, catalog) && i < |Slots(families)|
    ensures LastOwner(Slots(families)[..i], Slots(families)[i].name).None?
  {
    var slots, flat := Slots(families), FlatMethods(families);
    OwnersAreSlots(slots[..i], slots[i].name);
    forall j | 0 <= j < i
      ensures slots[..i][j].name != slots[i].name
    {
      assert flat[j] != flat[i];
    }
  }

  lemma SoundHasNoUnowned(families: seq<Descriptor>, catalog: seq<string>, name: string)
    requires TableIsSound(families, catalog) && name in catalog
    ensures LastOwner(Slots(families), name).Some?
  {
    var slots, flat := Slots(families), FlatMethods(families);
    OwnersAreSlots(slots, name);
    var i :| 0 <= i < |flat| && flat[i] == name;
    assert slots[i].name == name;
  }

  lemma SoundHasNoViolation(families: seq<Descriptor>, catalog: seq<string>, p: TableProblem)
    requires TableIsSound(families, catalog)
    ensures !TableViolates(families, catalog, p)
  {
    SoundHasNoDuplicate(families, catalog);
    SoundSlotsAreListed(families, catalog);
    match p
    case OwnedTwice(name, owner, family) =>
      forall i | 0 <= i < |Slots(families)| && Slots(families)[i] == Slot(name, family)
        ensures LastOwner(Slots(families)[..i], name).None?
      {
        SoundHasNoOwner(families, catalog, i);
      }
    case Unowned(name) =>
      if name in catalog {
        SoundHasNoUnowned(families, catalog, name);
      }
    case WildcardMethod(name) =>
      assert forall i :: 0 <= i < |Slots(families)| ==> Slots(families)[i] in Slots(families);
    case _ =>
  }

  lemma NoViolationIsSound(families: seq<Descriptor>, catalog: seq<string>)
    requires forall p :: !TableViolates(families, catalog, p)
    ensures TableIsSound(families, catalog)
  {
    var slots, flat := Slots(families), FlatMethods(families);
    forall i, j | 0 <= i < j < |families|
      ensures families[i].family != families[j].family
    {
      assert !TableViolates(families, catalog, DuplicateFamily(families[i].family));
    }
    forall i, j | 0 <= i < j < |flat|
      ensures flat[i] != flat[j]
    {
      OwnersAreSlots(slots[..j], flat[j]);
      assert slots[..j][i] == slots[i];
      var owner := LastOwner(slots[..j], flat[j]);
      assert owner.Some? ==> !TableViolates(families, catalog, OwnedTwice(flat[j], owner.value, slots[j].family));
    }
    forall i | 0 <= i < |flat|
      ensures flat[i] in catalog && '*' !in flat[i]
    {
      assert slots[i] == Slot(flat[i], slots[i].family);
      assert !TableViolates(families, catalog, UnknownMethod(slots[i].family, flat[i]));
      assert !TableViolates(families, catalog, WildcardMethod(flat[i]));
    }
    forall name | name in catalog
      ensures name in flat
    {
      assert !TableViolates(families, catalog, Unowned(name));
      OwnersAreSlots(slots, name);
      var i :| 0 <= i < |slots| && slots[i].name == name;
      assert flat[i] == name;
    }
    forall d | d in families
      ensures (d.sourceRouted ==> d.sourcePrefixes != []) && (d.family != "intrinsic" ==> d.validation != [])
    {
      assert !TableViolates(families, catalog, NoSourcePrefixes(d.family));
      assert !TableViolates(families, catalog, NoValidation(d.family));
    }
  }

  lemma SoundIffNoViolation(families: seq<Descriptor>, catalog: seq<string>)
    ensures TableIsSound(families, catalog) <==> forall p :: !TableViolates(families, catalog, p)
  {
    if TableIsSound(families, catalog) {
      forall p
        ensures !TableViolates(families, catalog, p)
      {
        SoundHasNoViolation(families, catalog, p);
      }
    }
    if forall p :: !TableViolates(families, catalog, p) {
      NoViolationIsSound(families, catalog);
    }
  }

  // ----- The method catalog -----

  datatype Method = Method(name: string, notification: bool, paramsSchema: string, resultSchema: Option<string>)

  datatype CatalogProblem =
    | OutsideNamespace(name: string)
    | NoUnderscore(name: string)
    | CollidesWithStandard(name: string)
    | NoParamsSchema(name: string)
    | ResultOnNotification(name: string)
    | NoResultSchema(name: string)
    | DuplicateEntry(name: string)

  predicate MethodAdds(m: Method, official: set<string>, p: CatalogProblem) {
    && p.name == m.name
    && match p
       case OutsideNamespace(_) => !("_echo_agent" <= m.name)
       case NoUnderscore(_) => !("_" <= m.name)
       case CollidesWithStandard(_) => m.name in official
       case NoParamsSchema(_) => m.paramsSchema == []
       case ResultOnNotification(_) => m.notification && m.resultSchema.Some?
       case NoResultSchema(_) => !m.notification && m.resultSchema.None?
       case DuplicateEntry(_) => false
  }

  /** The checks of a method by itself, in the source's order. */
  function CheckMethod(m: Method, official: set<string>): (problems: seq<CatalogProblem>)
    ensures forall p :: p in problems <==> MethodAdds(m, official, p)
  {
    (if "_echo_agent" <= m.name then [] else [OutsideNamespace(m.name)])
    + (if "_" <= m.name then [] else [NoUnderscore(m.name)])
    + (if m.name in official then [CollidesWithStandard(m.name)] else [])
    + (if m.paramsSchema == [] then [NoParamsSchema(m.name)] else [])
    + (if m.notification && m.resultSchema.Some? then [ResultOnNotification(m.name)] else [])
    + (if !m.notification && m.resultSchema.None? then [NoResultSchema(m.name)] else [])
  }

  ghost predicate CatalogViolates(catalog: seq<Method>, official: set<string>, p: CatalogProblem) {
    || (exists m :: m in catalog && MethodAdds(m, official, p))
    || (p.DuplicateEntry? && exists i, j :: 0 <= i < j < |catalog| && catalog[i].name == catalog[j].name == p.name)
  }

  function Names(catalog: seq<Method>): (names: seq<string>)
    ensures |names| == |catalog| && forall i :: 0 <= i < |names| ==> names[i] == catalog[i].name
  {
    Each(catalog, (m: Method) => m.name)
  }

  lemma OneMoreMethod(catalog: seq<Method>, m: Method, official: set<string>, p: CatalogProblem)
    ensures CatalogViolates(catalog + [m], official, p) <==>
            || CatalogViolates(catalog, official, p)
            || MethodAdds(m, official, p)
            || (p == DuplicateEntry(m.name) && m.name in Names(catalog))
  {
    var more := catalog + [m];
    assert forall i :: 0 <= i < |catalog| ==> more[i] == catalog[i];
    assert more[|catalog|] == m;
  }

  /** `validate_catalog`: reports exactly the violations. */
  method ValidateCatalog(catalog: seq<Method>, official: set<string>) returns (problems: seq<CatalogProblem>)
    ensures forall p :: p in problems <==> CatalogViolates(catalog, official, p)
    ensures problems == [] ==> Distinct(Names(catalog))
  {
    problems := [];
    var seen: seq<string> := [];
    var i := 0;
    while i < |catalog|
      invariant 0 <= i <= |catalog|
      invariant seen == Names(catalog[..i])
      invariant forall p :: p in problems <==> CatalogViolates(catalog[..i], official, p)
    {
      var m := catalog[i];
      ghost var next := catalog[..i + 1];
      assert next == catalog[..i] + [m];
      var added := CheckMethod(m, official) + (if m.name in seen then [DuplicateEntry(m.name)] else []);
      forall p
        ensures CatalogViolates(next, official, p) <==> CatalogViolates(catalog[..i], official, p) || p in added
      {
        OneMoreMethod(catalog[..i], m, official, p);
      }
      problems, seen := problems + added, seen + [m.name];
      i := i + 1;
    }
    assert catalog[..i] == catalog;
    if problems == [] {
      forall i, j | 0 <= i < j < |catalog|
        ensures catalog[i].name != catalog[j].name
      {
        assert !CatalogViolates(catalog, official, DuplicateEntry(catalog[i].name));
      }
    }
  }

  /** When both checkers pass, the families' method lists are the catalog's names in some order: each
      method has exactly one slot, and there are as many slots as methods. */
  lemma SlotsArePermutation(families: seq<Descriptor>, catalog: seq<Method>)
    requires TableIsSound(families, Names(catalog)) && Distinct(Names(catalog))
    ensures multiset(FlatMethods(families)) == multiset(Names(catalog))
    ensures |FlatMethods(families)| == |catalog|
  {
    var flat, names := FlatMethods(families), Names(catalog);
    DistinctIffMultiplicityOne(flat);
    DistinctIffMultiplicityOne(names);
    forall x
      ensures multiset(flat)[x] == multiset(names)[x]
    {
      assert x in flat <==> x in multiset(flat);
      assert x in names <==> x in multiset(names);
    }
    assert multiset(flat) == multiset(names);
    assert |multiset(flat)| == |flat| && |multiset(names)| == |names|;
  }
}
