/**
 The facade operation catalog (echo-sdk-protocol/src/facade.rs): route obligations aggregated into one
 entry per route, the family routes that exist without any, and the language-facing filter.
 */
module FacadeCatalog {
  import opened Prelude
  import opened Sorting
  import opened FacadeRoutes

  datatype FeatureSemantics = Default | AnyOf | AllOf

  datatype Obligation = Obligation(
    route: string,
    surface: string,
    family: Option<string>,
    wireMethod: Option<string>,
    operation: Option<string>,
    handlerOperation: Option<string>,
    requiredFeature: Option<string>,
    requiredFeatures: seq<string>,
    featureSemantics: FeatureSemantics,
    digests: seq<string>)

  /** An operation with its wire schema and signature digest, which are functions of these two names. */
  datatype OperationSignature = OperationSignature(family: string, operation: string)

  /** A route of the catalog. `encoded` says that it describes its arguments and its result as wire
      values rather than leaving them null. */
  datatype Route = Route(
    route: string,
    surface: string,
    family: Option<string>,
    wireMethod: Option<string>,
    operation: Option<string>,
    handlerOperation: Option<string>,
    requiredFeature: Option<string>,
    requiredFeatures: seq<string>,
    featureSemantics: FeatureSemantics,
    digests: seq<string>,
    encoded: bool,
    operations: seq<OperationSignature>,
    items: nat)

  /** `families` is the table that the catalog lists beside the routes. */
  datatype Catalog = Catalog(scope: Option<string>, families: seq<Descriptor>, routes: seq<Route>, totalItems: nat)

  // ----- One route -----

  function FindFamily(families: seq<Descriptor>, family: string): Option<Descriptor> {
    if families == [] then None
    else if families[0].family == family then Some(families[0])
    else FindFamily(families[1..], family)
  }

  function AsList(feature: Option<string>): seq<string> {
    if feature.Some? then [feature.value] else []
  }

  function FamilySemantics(feature: Option<string>): FeatureSemantics {
    if feature.Some? then AnyOf else Default
  }

  function Signatures(d: Descriptor): (signatures: seq<OperationSignature>)
    ensures |signatures| == |d.operations|
    ensures forall i :: 0 <= i < |signatures| ==> signatures[i] == OperationSignature(d.family, d.operations[i])
  {
    seq(|d.operations|, i requires 0 <= i < |d.operations| => OperationSignature(d.family, d.operations[i]))
  }

  /** The entry of a route that some obligation reaches. */
  function RouteFrom(families: seq<Descriptor>, o: Obligation, items: nat): Route {
    if o.surface == "family" then
      var d := if o.family.Some? then FindFamily(families, o.family.value) else None;
      var feature := if d.Some? then d.value.requiredFeature else None;
      Route(o.route, o.surface, o.family, o.wireMethod, o.operation, o.handlerOperation,
            feature, AsList(feature), FamilySemantics(feature), [], true,
            if d.Some? then Signatures(d.value) else [], items)
    else
      Route(o.route, o.surface, o.family, o.wireMethod, o.operation, o.handlerOperation,
            o.requiredFeature, o.requiredFeatures, o.featureSemantics, o.digests, o.surface == "invoke", [], items)
  }

  function FamilyRouteId(d: Descriptor): string {
    "family:" + d.family
  }

  predicate HasOwnRoute(d: Descriptor) {
    d.operations != [] && d.methods != []
  }

  /** The entry of a family route that no obligation reaches. */
  function FamilyRoute(d: Descriptor): Route
    requires d.methods != []
  {
    Route(FamilyRouteId(d), "family", Some(d.family), Some(d.methods[0]), None, None,
          d.requiredFeature, AsList(d.requiredFeature), FamilySemantics(d.requiredFeature), [], true, Signatures(d), 0)
  }

  // ----- What the catalog means -----

  function Count(obligations: seq<Obligation>, route: string): nat {
    if obligations == [] then 0
    else
      Count(obligations[..|obligations| - 1], route)
      + (if obligations[|obligations| - 1].route == route then 1 else 0)
  }

  function Last(obligations: seq<Obligation>, route: string): Option<Obligation> {
    if obligations == [] then None
    else if obligations[|obligations| - 1].route == route then Some(obligations[|obligations| - 1])
    else Last(obligations[..|obligations| - 1], route)
  }

  function Saturated(n: nat): nat {
    if n <= U64_MAX then n else U64_MAX
  }

  /** The first family, with operations and a method, whose route has this id. */
  function FirstOwnRoute(families: seq<Descriptor>, route: string): (d: Option<Descriptor>)
    ensures d.Some? ==> HasOwnRoute(d.value) && FamilyRouteId(d.value) == route
  {
    if families == [] then None
    else
      var last, earlier := families[|families| - 1], FirstOwnRoute(families[..|families| - 1], route);
      if earlier.Some? then earlier
      else if HasOwnRoute(last) && FamilyRouteId(last) == route then Some(last) else None
  }

  function FromObligations(families: seq<Descriptor>, obligations: seq<Obligation>, route: string): Option<Route> {
    var last := Last(obligations, route);
    if last.Some? then Some(RouteFrom(families, last.value, Saturated(Count(obligations, route)))) else None
  }

  function FromFamilies(families: seq<Descriptor>, route: string): Option<Route> {
    var d := FirstOwnRoute(families, route);
    if d.Some? then Some(FamilyRoute(d.value)) else None
  }

  /** The entry a route id has to have, if any: of its last obligation, else of its family. */
  function Expected(families: seq<Descriptor>, obligations: seq<Obligation>, route: string): Option<Route> {
    var reached := FromObligations(families, obligations, route);
    if reached.Some? then reached else FromFamilies(families, route)
  }

  /** The entry with an id; ids are unique wherever this is used. */
  function RouteWith(routes: seq<Route>, id: string): Option<Route> {
    if routes == [] then None
    else if routes[|routes| - 1].route == id then Some(routes[|routes| - 1])
    else RouteWith(routes[..|routes| - 1], id)
  }

  predicate StrictlyIncreasing(routes: seq<Route>) {
    forall i, j :: 0 <= i < j < |routes| ==>
      StringLe(routes[i].route, routes[j].route) && routes[i].route != routes[j].route
  }

  /** Route ids increase, and every id has exactly the entry it has to have. */
  ghost predicate IsCatalog(families: seq<Descriptor>, obligations: seq<Obligation>, routes: seq<Route>) {
    && StrictlyIncreasing(routes)
    && forall id :: RouteWith(routes, id) == Expected(families, obligations, id)
  }

  // ----- Building it -----

  method CountItems(obligations: seq<Obligation>) returns (items: map<string, nat>)
    ensures forall id :: Saturated(Count(obligations, id)) == (if id in items then items[id] else 0)
  {
    items := map[];
    var i := 0;
    while i < |obligations|
      invariant 0 <= i <= |obligations|
      invariant forall id :: Saturated(Count(obligations[..i], id)) == (if id in items then items[id] else 0)
    {
      var route := obligations[i].route;
      assert obligations[..i + 1][..i] == obligations[..i];
      var counter := if route in items then items[route] else 0;
      items := items[route := if counter < U64_MAX then counter + 1 else U64_MAX];
      i := i + 1;
    }
    assert obligations[..i] == obligations;
  }

  method LastObligations(obligations: seq<Obligation>) returns (last: map<string, Obligation>)
    ensures forall id :: Last(obligations, id) == (if id in last then Some(last[id]) else None)
  {
    last := map[];
    var i := 0;
    while i < |obligations|
      invariant 0 <= i <= |obligations|
      invariant forall id :: Last(obligations[..i], id) == (if id in last then Some(last[id]) else None)
    {
      assert obligations[..i + 1][..i] == obligations[..i];
      last := last[obligations[i].route := obligations[i]];
      i := i + 1;
    }
    assert obligations[..i] == obligations;
  }

  ghost predicate UniqueIds(routes: seq<Route>) {
    DistinctBy(routes, (r: Route) => r.route)
  }

  lemma {:induction false} RouteWithIsMember(routes: seq<Route>, id: string)
    ensures RouteWith(routes, id).None? ==> forall r :: r in routes ==> r.route != id
    ensures RouteWith(routes, id).Some? ==>
              RouteWith(routes, id).value in routes && RouteWith(routes, id).value.route == id
  {
    if routes != [] {
      var init := routes[..|routes| - 1];
      assert routes == init + [routes[|routes| - 1]];
      RouteWithIsMember(init, id);
    }
  }

  lemma AppendRoute(routes: seq<Route>, r: Route, id: string)
    ensures RouteWith(routes + [r], id) == if r.route == id then Some(r) else RouteWith(routes, id)
  {
    assert (routes + [r])[..|routes|] == routes;
  }

  /** One entry per route that an obligation names. */
  method ObligationRoutes(families: seq<Descriptor>, obligations: seq<Obligation>) returns (routes: seq<Route>)
    ensures UniqueIds(routes)
    ensures forall id :: RouteWith(routes, id) == FromObligations(families, obligations, id)
  {
    var items := CountItems(obligations);
    var last := LastObligations(obligations);
    routes := [];
    var remaining := last.Keys;
    while remaining != {}
      invariant remaining <= last.Keys && UniqueIds(routes)
      invariant forall id :: RouteWith(routes, id)
                             == if id in remaining then None else FromObligations(families, obligations, id)
    {
      var id :| id in remaining;
      RouteWithIsMember(routes, id);
      LastIsNamed(obligations, id);
      var r := RouteFrom(families, last[id], if id in items then items[id] else 0);
      forall other
        ensures RouteWith(routes + [r], other) == if other == id then Some(r) else RouteWith(routes, other)
      {
        AppendRoute(routes, r, other);
      }
      routes, remaining := routes + [r], remaining - {id};
    }
  }

  lemma {:induction false} LastIsNamed(obligations: seq<Obligation>, id: string)
    ensures Last(obligations, id).Some? ==> Last(obligations, id).value.route == id
    ensures Last(obligations, id).None? <==> Count(obligations, id) == 0
  {
    if obligations != [] {
      LastIsNamed(obligations[..|obligations| - 1], id);
    }
  }

  function Completed(reached: Option<Route>, families: seq<Descriptor>, id: string): Option<Route> {
    if reached.Some? then reached else FromFamilies(families, id)
  }

  /** Family routes that no obligation reached, after those that some did. */
  method AddFamilyRoutes(families: seq<Descriptor>, reached: seq<Route>) returns (routes: seq<Route>)
    requires UniqueIds(reached)
    ensures UniqueIds(routes)
    ensures forall id :: RouteWith(routes, id) == Completed(RouteWith(reached, id), families, id)
  {
    routes := reached;
    var i := 0;
    while i < |families|
      invariant 0 <= i <= |families| && UniqueIds(routes)
      invariant forall id :: RouteWith(routes, id) == Completed(RouteWith(reached, id), families[..i], id)
    {
      var d := families[i];
      assert families[..i + 1][..i] == families[..i];
      if HasOwnRoute(d) {
        RouteWithIsMember(routes, FamilyRouteId(d));
        if RouteWith(routes, FamilyRouteId(d)).None? {
          forall id
            ensures RouteWith(routes + [FamilyRoute(d)], id)
                    == if FamilyRouteId(d) == id then Some(FamilyRoute(d)) else RouteWith(routes, id)
          {
            AppendRoute(routes, FamilyRoute(d), id);
          }
          routes := routes + [FamilyRoute(d)];
        }
      }
      i := i + 1;
    }
    assert families[..i] == families;
  }

  function ByRoute(): (Route, Route) -> bool {
    (a: Route, b: Route) => StringLe(a.route, b.route)
  }

  lemma RouteWithIffMember(routes: seq<Route>, r: Route)
    requires UniqueIds(routes)
    ensures r in routes <==> RouteWith(routes, r.route) == Some(r)
  {
    RouteWithIsMember(routes, r.route);
  }

  lemma SameEntries(a: seq<Route>, b: seq<Route>, id: string)
    requires UniqueIds(a) && UniqueIds(b) && forall r :: r in a <==> r in b
    ensures RouteWith(a, id) == RouteWith(b, id)
  {
    RouteWithIsMember(a, id);
    RouteWithIsMember(b, id);
  }

  lemma IncreasingIds(sorted: seq<Route>)
    requires Sorted(sorted, ByRoute()) && UniqueIds(sorted)
    ensures StrictlyIncreasing(sorted)
  {
    forall i, j | 0 <= i < j < |sorted|
      ensures StringLe(sorted[i].route, sorted[j].route) && sorted[i].route != sorted[j].route
    {
      assert ByRoute()(sorted[i], sorted[j]);
    }
  }

  lemma SortedIdsAreUnique(routes: seq<Route>)
    requires UniqueIds(routes)
    ensures UniqueIds(Sort(routes, ByRoute()))
  {
    SortKeepsMembers(routes, ByRoute());
    SortKeepsDistinct(routes, ByRoute());
    var sorted := Sort(routes, ByRoute());
    forall i, j | 0 <= i < j < |sorted|
      ensures sorted[i].route != sorted[j].route
    {
      assert sorted[i] in routes && sorted[j] in routes && sorted[i] != sorted[j];
    }
  }

  /** Sorting puts the ids in increasing order and loses no entry. */
  lemma SortedRoutes(routes: seq<Route>)
    requires UniqueIds(routes)
    ensures StrictlyIncreasing(Sort(routes, ByRoute()))
    ensures forall id :: RouteWith(Sort(routes, ByRoute()), id) == RouteWith(routes, id)
  {
    RoutesAreOrdered();
    SortSorts(routes, ByRoute());
    SortKeepsMembers(routes, ByRoute());
    SortedIdsAreUnique(routes);
    IncreasingIds(Sort(routes, ByRoute()));
    forall id
      ensures RouteWith(Sort(routes, ByRoute()), id) == RouteWith(routes, id)
    {
      SameEntries(Sort(routes, ByRoute()), routes, id);
    }
  }

  lemma RoutesAreOrdered()
    ensures TotalPreorder(ByRoute())
  {
    StringsAreOrdered();
    forall a: Route, b: Route
      ensures ByRoute()(a, b) || ByRoute()(b, a)
    {
      assert ByString()(a.route, b.route) || ByString()(b.route, a.route);
    }
    forall a: Route, b: Route, c: Route | ByRoute()(a, b) && ByRoute()(b, c)
      ensures ByRoute()(a, c)
    {
      StringLeIsTransitive(a.route, b.route, c.route);
    }
  }

  /** `build_facade_operation_catalog`. */
  method BuildFacadeOperationCatalog(families: seq<Descriptor>, obligations: seq<Obligation>) returns (catalog: Catalog)
    ensures IsCatalog(families, obligations, catalog.routes)
    ensures forall r :: r in catalog.routes <==> IsEntry(families, obligations, r)
    ensures catalog.families == families && catalog.totalItems == |obligations|
  {
    var routes := ObligationRoutes(families, obligations);
    routes := AddFamilyRoutes(families, routes);
    SortedRoutes(routes);
    EntriesAreExact(families, obligations, Sort(routes, ByRoute()));
    return Catalog(None, families, Sort(routes, ByRoute()), |obligations|);
  }

  // ----- The entries, told by positions -----

  /** Obligation `k` is the last that names the route. */
  predicate IsLastFor(obligations: seq<Obligation>, route: string, k: nat) {
    && k < |obligations| && obligations[k].route == route
    && forall i :: k < i < |obligations| ==> obligations[i].route != route
  }

  function Naming(obligations: seq<Obligation>, route: string): set<nat> {
    set i: nat | i < |obligations| && obligations[i].route == route
  }

  /** Family `k` is the first of that name. */
  predicate IsNamed(families: seq<Descriptor>, family: string, k: nat) {
    && k < |families| && families[k].family == family
    && forall i :: 0 <= i < k ==> families[i].family != family
  }

  /** Family `k` is the first, with operations and a method, whose own route this is. */
  predicate IsOwnFor(families: seq<Descriptor>, route: string, k: nat) {
    && k < |families| && families[k].operations != [] && families[k].methods != []
    && "family:" + families[k].family == route
    && forall i :: 0 <= i < k ==>
         families[i].operations == [] || families[i].methods == [] || "family:" + families[i].family != route
  }

  /** The entry has the family's feature, as its only one, and a signature for each of its operations. */
  predicate ShowsFamily(r: Route, d: Descriptor) {
    && r.digests == [] && r.encoded && r.requiredFeature == d.requiredFeature
    && (match d.requiredFeature
        case Some(feature) => r.requiredFeatures == [feature] && r.featureSemantics == AnyOf
        case None => r.requiredFeatures == [] && r.featureSemantics == Default)
    && |r.operations| == |d.operations|
    && forall i :: 0 <= i < |d.operations| ==> r.operations[i] == OperationSignature(d.family, d.operations[i])
  }

  /** The entry of an obligation of no family of the table. */
  predicate ShowsNoFamily(r: Route) {
    && r.digests == [] && r.encoded && r.operations == []
    && r.requiredFeature == None && r.requiredFeatures == [] && r.featureSemantics == Default
  }

  /** Its own features and digests, and wire values exactly on the surface that is invoked. */
  predicate ShowsItem(r: Route, o: Obligation) {
    && r.requiredFeature == o.requiredFeature && r.requiredFeatures == o.requiredFeatures
    && r.featureSemantics == o.featureSemantics && r.digests == o.digests
    && r.operations == [] && r.encoded == (o.surface == "invoke")
  }

  predicate IsHandledAs(r: Route, o: Obligation) {
    && r.route == o.route && r.surface == o.surface && r.family == o.family
    && r.wireMethod == o.wireMethod && r.operation == o.operation && r.handlerOperation == o.handlerOperation
  }

  ghost predicate ReflectsObligation(families: seq<Descriptor>, o: Obligation, r: Route) {
    && IsHandledAs(r, o)
    && if o.surface != "family" then ShowsItem(r, o)
       else if o.family.Some? && exists k: nat :: IsNamed(families, o.family.value, k)
       then exists k: nat :: IsNamed(families, o.family.value, k) && ShowsFamily(r, families[k])
       else ShowsNoFamily(r)
  }

  predicate ReflectsFamily(d: Descriptor, r: Route) {
    && r.surface == "family" && r.family == Some(d.family)
    && d.methods != [] && r.wireMethod == Some(d.methods[0])
    && r.operation == None && r.handlerOperation == None && ShowsFamily(r, d)
  }

  /** An entry of the catalog: of the last obligation that names its route, or, if none does, of the
      family whose route it is. It counts the obligations that name it, up to what a counter holds. */
  ghost predicate IsEntry(families: seq<Descriptor>, obligations: seq<Obligation>, r: Route) {
    && r.items == (if |Naming(obligations, r.route)| <= U64_MAX then |Naming(obligations, r.route)| else U64_MAX)
    && if exists k: nat :: IsLastFor(obligations, r.route, k)
       then exists k: nat :: IsLastFor(obligations, r.route, k) && ReflectsObligation(families, obligations[k], r)
       else exists k: nat :: IsOwnFor(families, r.route, k) && ReflectsFamily(families[k], r)
  }

  lemma {:induction false} CountsNaming(obligations: seq<Obligation>, route: string)
    ensures Count(obligations, route) == |Naming(obligations, route)|
  {
    if obligations != [] {
      var n := |obligations| - 1;
      CountsNaming(obligations[..n], route);
      assert Naming(obligations, route)
             == Naming(obligations[..n], route) + (if obligations[n].route == route then {n} else {});
    }
  }

  lemma {:induction false} LastByPosition(obligations: seq<Obligation>, route: string, k: nat)
    ensures IsLastFor(obligations, route, k) ==> Last(obligations, route) == Some(obligations[k])
  {
    if obligations != [] {
      var n := |obligations| - 1;
      if IsLastFor(obligations, route, k) && k < n {
        assert IsLastFor(obligations[..n], route, k);
        LastByPosition(obligations[..n], route, k);
      }
    }
  }

  lemma {:induction false} LastHasPosition(obligations: seq<Obligation>, route: string) returns (k: nat)
    requires Last(obligations, route).Some?
    ensures IsLastFor(obligations, route, k)
  {
    var n := |obligations| - 1;
    if obligations[n].route == route {
      k := n;
    } else {
      k := LastHasPosition(obligations[..n], route);
    }
  }

  lemma {:induction false} FamilyByPosition(families: seq<Descriptor>, family: string, k: nat)
    ensures IsNamed(families, family, k) ==> FindFamily(families, family) == Some(families[k])
  {
    if IsNamed(families, family, k) && k > 0 {
      var rest := families[1..];
      assert rest[k - 1] == families[k] && forall i :: 0 <= i < k - 1 ==> rest[i] == families[i + 1];
      FamilyByPosition(rest, family, k - 1);
      assert families[0].family != family;
    }
  }

  lemma {:induction false} FamilyHasPosition(families: seq<Descriptor>, family: string) returns (k: nat)
    requires FindFamily(families, family).Some?
    ensures IsNamed(families, family, k)
  {
    k := 0;
    if families[0].family != family {
      var rest := families[1..];
      assert forall i :: 0 <= i < |rest| ==> rest[i] == families[i + 1];
      k := FamilyHasPosition(rest, family);
      k := k + 1;
      assert forall i :: 0 < i < k ==> families[i] == rest[i - 1];
    }
  }

  lemma {:induction false} OwnByPosition(families: seq<Descriptor>, route: string, k: nat)
    ensures IsOwnFor(families, route, k) ==> FirstOwnRoute(families, route) == Some(families[k])
  {
    if IsOwnFor(families, route, k) {
      var n := |families| - 1;
      if k < n {
        assert IsOwnFor(families[..n], route, k);
        OwnByPosition(families[..n], route, k);
      } else if FirstOwnRoute(families[..n], route).Some? {
        var j := OwnHasPosition(families[..n], route);
        assert false;
      }
    }
  }

  lemma {:induction false} OwnHasPosition(families: seq<Descriptor>, route: string) returns (k: nat)
    requires FirstOwnRoute(families, route).Some?
    ensures IsOwnFor(families, route, k)
  {
    var n := |families| - 1;
    if FirstOwnRoute(families[..n], route).Some? {
      k := OwnHasPosition(families[..n], route);
    } else {
      k := n;
      forall i | 0 <= i < n
        ensures families[i].operations == [] || families[i].methods == [] || FamilyRouteId(families[i]) != route
      {
        NoOwnRoute(families[..n], route, i);
      }
    }
  }

  lemma {:induction false} NoOwnRoute(families: seq<Descriptor>, route: string, i: nat)
    requires FirstOwnRoute(families, route).None? && i < |families|
    ensures !(HasOwnRoute(families[i]) && FamilyRouteId(families[i]) == route)
  {
    var n := |families| - 1;
    if i < n {
      NoOwnRoute(families[..n], route, i);
    }
  }

  lemma ShownFamilyIsExact(d: Descriptor, r: Route)
    ensures ShowsFamily(r, d) <==>
              && r.digests == [] && r.encoded && r.requiredFeature == d.requiredFeature
              && r.requiredFeatures == AsList(d.requiredFeature)
              && r.featureSemantics == FamilySemantics(d.requiredFeature) && r.operations == Signatures(d)
  {
  }

  lemma ObligationIsExact(families: seq<Descriptor>, o: Obligation, items: nat, r: Route)
    ensures r == RouteFrom(families, o, items) <==> r.items == items && ReflectsObligation(families, o, r)
  {
    if o.surface == "family" && o.family.Some? {
      var family := o.family.value;
      forall k: nat | IsNamed(families, family, k)
        ensures FindFamily(families, family) == Some(families[k])
      {
        FamilyByPosition(families, family, k);
      }
      if FindFamily(families, family).Some? {
        var k := FamilyHasPosition(families, family);
        ShownFamilyIsExact(families[k], r);
      }
    }
  }

  lemma EntryIsExact(families: seq<Descriptor>, obligations: seq<Obligation>, r: Route)
    ensures IsEntry(families, obligations, r) <==> Expected(families, obligations, r.route) == Some(r)
  {
    var id := r.route;
    CountsNaming(obligations, id);
    LastIsNamed(obligations, id);
    if Last(obligations, id).Some? {
      var k := LastHasPosition(obligations, id);
      forall j: nat | IsLastFor(obligations, id, j)
        ensures obligations[j] == obligations[k]
      {
        LastByPosition(obligations, id, j);
        LastByPosition(obligations, id, k);
      }
      LastByPosition(obligations, id, k);
      ObligationIsExact(families, obligations[k], Saturated(Count(obligations, id)), r);
    } else {
      forall j: nat
        ensures !IsLastFor(obligations, id, j)
      {
        LastByPosition(obligations, id, j);
      }
      FamilyEntryIsExact(families, r);
    }
  }

  lemma FamilyEntryIsExact(families: seq<Descriptor>, r: Route)
    ensures (r.items == 0 && exists k: nat :: IsOwnFor(families, r.route, k) && ReflectsFamily(families[k], r))
            <==> FromFamilies(families, r.route) == Some(r)
  {
    forall k: nat | IsOwnFor(families, r.route, k)
      ensures FirstOwnRoute(families, r.route) == Some(families[k])
    {
      OwnByPosition(families, r.route, k);
    }
    if FirstOwnRoute(families, r.route).Some? {
      var k := OwnHasPosition(families, r.route);
      ShownFamilyIsExact(families[k], r);
    }
  }

  /** The catalog holds every entry there is to hold, and nothing else. */
  lemma EntriesAreExact(families: seq<Descriptor>, obligations: seq<Obligation>, routes: seq<Route>)
    requires IsCatalog(families, obligations, routes)
    ensures forall r :: r in routes <==> IsEntry(families, obligations, r)
  {
    forall r
      ensures r in routes <==> IsEntry(families, obligations, r)
    {
      RouteWithIffMember(routes, r);
      EntryIsExact(families, obligations, r);
      assert RouteWith(routes, r.route) == Expected(families, obligations, r.route);
    }
  }

  // ----- Conservation -----

  function SumItems(routes: seq<Route>): nat {
    if routes == [] then 0 else SumItems(routes[..|routes| - 1]) + routes[|routes| - 1].items
  }

  /** The obligations that the routes' ids account for. */
  function SumCounts(routes: seq<Route>, obligations: seq<Obligation>): nat {
    if routes == [] then 0
    else SumCounts(routes[..|routes| - 1], obligations) + Count(obligations, routes[|routes| - 1].route)
  }

  lemma {:induction false} OneMoreObligation(routes: seq<Route>, obligations: seq<Obligation>, o: Obligation)
    requires UniqueIds(routes)
    ensures SumCounts(routes, obligations + [o])
            == SumCounts(routes, obligations) + (if RouteWith(routes, o.route).Some? then 1 else 0)
  {
    if routes != [] {
      var init := routes[..|routes| - 1];
      assert (obligations + [o])[..|obligations|] == obligations;
      OneMoreObligation(init, obligations, o);
      RouteWithIsMember(init, o.route);
      assert forall r :: r in init ==> r.route != routes[|routes| - 1].route;
    }
  }

  lemma {:induction false} NoObligations(routes: seq<Route>)
    ensures SumCounts(routes, []) == 0
  {
    if routes != [] {
      NoObligations(routes[..|routes| - 1]);
    }
  }

  /** When every obligation's route has an entry, the routes account for every obligation once. */
  lemma {:induction false} EveryObligationCounts(routes: seq<Route>, obligations: seq<Obligation>)
    requires UniqueIds(routes)
    requires forall o :: o in obligations ==> RouteWith(routes, o.route).Some?
    ensures SumCounts(routes, obligations) == |obligations|
  {
    if obligations == [] {
      NoObligations(routes);
    } else {
      var init, last := obligations[..|obligations| - 1], obligations[|obligations| - 1];
      assert obligations == init + [last];
      EveryObligationCounts(routes, init);
      OneMoreObligation(routes, init, last);
    }
  }

  ghost predicate Overflows(obligations: seq<Obligation>, id: string) {
    Count(obligations, id) > U64_MAX
  }

  lemma {:induction false} SumOfSaturated(routes: seq<Route>, obligations: seq<Obligation>)
    requires forall r :: r in routes ==> r.items == Saturated(Count(obligations, r.route))
    ensures SumItems(routes) <= SumCounts(routes, obligations)
    ensures SumItems(routes) == SumCounts(routes, obligations) <==>
            forall r :: r in routes ==> !Overflows(obligations, r.route)
  {
    if routes != [] {
      var init, last := routes[..|routes| - 1], routes[|routes| - 1];
      assert routes == init + [last];
      SumOfSaturated(init, obligations);
    }
  }

  lemma EntriesCount(families: seq<Descriptor>, obligations: seq<Obligation>, routes: seq<Route>, r: Route)
    requires IsCatalog(families, obligations, routes) && r in routes
    ensures r.items == Saturated(Count(obligations, r.route))
  {
    RouteWithIffMember(routes, r);
    assert RouteWith(routes, r.route) == Expected(families, obligations, r.route);
    LastIsNamed(obligations, r.route);
  }

  /** The routes' items add up to the total, unless a single route has more than a counter can hold. */
  lemma ItemsAddUp(families: seq<Descriptor>, obligations: seq<Obligation>, catalog: Catalog)
    requires IsCatalog(families, obligations, catalog.routes) && catalog.totalItems == |obligations|
    ensures SumItems(catalog.routes) == catalog.totalItems <==> forall id :: !Overflows(obligations, id)
  {
    var routes := catalog.routes;
    forall r | r in routes
      ensures r.items == Saturated(Count(obligations, r.route))
    {
      EntriesCount(families, obligations, routes, r);
    }
    forall o | o in obligations
      ensures RouteWith(routes, o.route).Some?
    {
      NamedRoutesHaveEntries(families, obligations, routes, o);
    }
    EveryObligationCounts(routes, obligations);
    SumOfSaturated(routes, obligations);
    forall id | Overflows(obligations, id)
      ensures exists r :: r in routes && Overflows(obligations, r.route)
    {
      LastIsNamed(obligations, id);
      assert RouteWith(routes, id) == Expected(families, obligations, id);
      RouteWithIsMember(routes, id);
    }
  }

  lemma {:induction false} CountsOccurrences(obligations: seq<Obligation>, o: Obligation)
    requires o in obligations
    ensures Count(obligations, o.route) > 0
  {
    var init, last := obligations[..|obligations| - 1], obligations[|obligations| - 1];
    assert obligations == init + [last];
    if o != last {
      CountsOccurrences(init, o);
    }
  }

  lemma NamedRoutesHaveEntries(families: seq<Descriptor>, obligations: seq<Obligation>,
                               routes: seq<Route>, o: Obligation)
    requires IsCatalog(families, obligations, routes) && o in obligations
    ensures RouteWith(routes, o.route).Some?
  {
    CountsOccurrences(obligations, o);
    LastIsNamed(obligations, o.route);
    assert RouteWith(routes, o.route) == Expected(families, obligations, o.route);
  }

  lemma {:induction false} OwnRouteFound(families: seq<Descriptor>, d: Descriptor)
    requires d in families && HasOwnRoute(d)
    ensures FirstOwnRoute(families, FamilyRouteId(d)).Some?
  {
    var init, last := families[..|families| - 1], families[|families| - 1];
    assert families == init + [last];
    if d != last {
      OwnRouteFound(init, d);
    }
  }

  /** Every family with operations and a method has exactly one entry under its family route, whether
      or not an obligation reached it. */
  lemma FamilyRoutesExist(families: seq<Descriptor>, obligations: seq<Obligation>, routes: seq<Route>, d: Descriptor)
    requires IsCatalog(families, obligations, routes) && d in families && HasOwnRoute(d)
    ensures exists r :: r in routes && r.route == FamilyRouteId(d)
                        && forall s :: s in routes && s.route == r.route ==> s == r
  {
    var id := FamilyRouteId(d);
    OwnRouteFound(families, d);
    assert RouteWith(routes, id) == Expected(families, obligations, id);
    RouteWithIsMember(routes, id);
    var r := RouteWith(routes, id).value;
    forall s | s in routes && s.route == r.route
      ensures s == r
    {
      RouteWithIffMember(routes, s);
    }
  }

  lemma {:induction false} FamilyIsFound(families: seq<Descriptor>, d: Descriptor)
    requires d in families && forall e :: e in families && e.family == d.family ==> e == d
    ensures FindFamily(families, d.family) == Some(d)
  {
    if families[0].family != d.family {
      assert families == [families[0]] + families[1..];
      FamilyIsFound(families[1..], d);
    }
  }

  lemma {:induction false} FoundFamilyIsNamed(families: seq<Descriptor>, family: string)
    ensures FindFamily(families, family).Some? ==> FindFamily(families, family).value.family == family
  {
    if families != [] {
      FoundFamilyIsNamed(families[1..], family);
    }
  }

  /** What a client may rely on under a family route: features, signatures and encodings. */
  predicate SameContract(a: Route, b: Route) {
    && a.requiredFeature == b.requiredFeature && a.requiredFeatures == b.requiredFeatures
    && a.featureSemantics == b.featureSemantics && a.digests == b.digests
    && a.encoded == b.encoded && a.operations == b.operations
  }

  /** No obligation reaches the family's route, or the last that does is one of the family's own. */
  predicate ReachedByOwn(obligations: seq<Obligation>, d: Descriptor) {
    var last := Last(obligations, FamilyRouteId(d));
    last.None? || (last.value.surface == "family" && last.value.family == Some(d.family))
  }

  lemma {:induction false} OwnRouteIsOwn(families: seq<Descriptor>, d: Descriptor)
    requires d in families && HasOwnRoute(d) && forall e :: e in families && e.family == d.family ==> e == d
    ensures FirstOwnRoute(families, FamilyRouteId(d)) == Some(d)
  {
    var init, last := families[..|families| - 1], families[|families| - 1];
    assert families == init + [last];
    assert forall e :: FamilyRouteId(e) == FamilyRouteId(d) ==> e.family == FamilyRouteId(e)[7..] == d.family;
    if d in init {
      OwnRouteIsOwn(init, d);
    } else {
      var earlier := FirstOwnRoute(init, FamilyRouteId(d));
      if earlier.Some? {
        OwnRouteIsMember(init, FamilyRouteId(d));
        assert false;
      }
    }
  }

  lemma {:induction false} OwnRouteIsMember(families: seq<Descriptor>, route: string)
    ensures FirstOwnRoute(families, route).Some? ==> FirstOwnRoute(families, route).value in families
  {
    if families != [] {
      OwnRouteIsMember(families[..|families| - 1], route);
    }
  }

  /** The catalog's entry under a family's route carries the family's own contract if and only if no
      obligation reaches it or the last that does names the family on the family surface. Then no
      item's features or signatures leak into it. */
  lemma FamilyContractIsKept(families: seq<Descriptor>, obligations: seq<Obligation>, routes: seq<Route>,
                             d: Descriptor, r: Route)
    requires IsCatalog(families, obligations, routes) && r in routes && r.route == FamilyRouteId(d)
    requires d in families && HasOwnRoute(d) && forall e :: e in families && e.family == d.family ==> e == d
    ensures SameContract(r, FamilyRoute(d)) <==> ReachedByOwn(obligations, d)
  {
    RouteWithIffMember(routes, r);
    assert RouteWith(routes, r.route) == Expected(families, obligations, r.route);
    FamilyIsFound(families, d);
    OwnRouteIsOwn(families, d);
    assert FamilyRoute(d).operations[0].family == d.family;
    var last := Last(obligations, r.route);
    if last.Some? && last.value.family.Some? {
      FoundFamilyIsNamed(families, last.value.family.value);
    }
  }

  // ----- The language-facing catalog -----

  function Retained(routes: seq<Route>): seq<Route> {
    if routes == [] then []
    else (if routes[0].surface != "intrinsic" then [routes[0]] else []) + Retained(routes[1..])
  }

  /** `filter_external_facade_operation_catalog`. */
  function FilterExternal(catalog: Catalog): Catalog {
    Catalog(Some("external_contract"), catalog.families, Retained(catalog.routes), |Retained(catalog.routes)|)
  }

  lemma {:induction false} RetainedMembers(routes: seq<Route>)
    ensures forall r :: r in Retained(routes) <==> r in routes && r.surface != "intrinsic"
  {
    if routes != [] {
      assert routes == [routes[0]] + routes[1..];
      RetainedMembers(routes[1..]);
    }
  }

  lemma {:induction false} RetainedInOrder(routes: seq<Route>)
    requires StrictlyIncreasing(routes)
    ensures StrictlyIncreasing(Retained(routes))
  {
    if routes != [] {
      var rest := routes[1..];
      assert forall i :: 0 <= i < |rest| ==> rest[i] == routes[i + 1];
      RetainedInOrder(rest);
      RetainedMembers(rest);
      var tail := Retained(rest);
      forall i | 0 <= i < |tail|
        ensures StringLe(routes[0].route, tail[i].route) && routes[0].route != tail[i].route
      {
        assert tail[i] in rest;
      }
    }
  }

  lemma {:induction false} RetainedTwice(routes: seq<Route>)
    ensures Retained(Retained(routes)) == Retained(routes)
  {
    if routes != [] {
      RetainedTwice(routes[1..]);
      if routes[0].surface != "intrinsic" {
        assert Retained(routes)[1..] == Retained(routes[1..]);
      } else {
        assert Retained(routes) == Retained(routes[1..]);
      }
    }
  }

  /** The filter keeps exactly the routes that are not intrinsic, in order, and is idempotent; its
      total counts routes, not items. */
  lemma FilterIsExact(catalog: Catalog)
    ensures forall r :: r in FilterExternal(catalog).routes <==> r in catalog.routes && r.surface != "intrinsic"
    ensures StrictlyIncreasing(catalog.routes) ==> StrictlyIncreasing(FilterExternal(catalog).routes)
    ensures FilterExternal(FilterExternal(catalog)) == FilterExternal(catalog)
    ensures FilterExternal(catalog).totalItems == |FilterExternal(catalog).routes|
    ensures FilterExternal(catalog).families == catalog.families
    ensures FilterExternal(catalog).scope == Some("external_contract")
  {
    RetainedMembers(catalog.routes);
    RetainedTwice(catalog.routes);
    if StrictlyIncreasing(catalog.routes) {
      RetainedInOrder(catalog.routes);
    }
  }
}
