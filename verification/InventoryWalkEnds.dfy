/**
 On which documents the public-API walk ends (echo-sdk-protocol/src/inventory.rs). The visited set
 cuts the walk where it comes back to a module in the same namespace. It cuts neither a cycle that
 enters a module under a name, because the namespace has grown by then, nor a cycle of re-exports
 that never enters a module. Those two are all that can keep the walk from its result.
 */
module InventoryWalkEnds {
  import opened Prelude
  import opened Reachability
  import opened InventoryWalk
  import opened InventoryRules

  // ----- The walk without its namespaces: finitely many places -----

  /** Inside a module, or looking at an item that was found under a name. */
  datatype Stand = In(key: Key) | Look(key: Key, alias: Option<string>)

  function Erase(n: Node): Stand {
    match n
    case Visit(k, _) => In(k)
    case At(k, _, alias) => Look(k, alias)
  }

  function Place(s: Stand, namespace: string): Node {
    match s
    case In(k) => Visit(k, namespace)
    case Look(k, alias) => At(k, namespace, alias)
  }

  function Nexts(g: Graph, s: Stand): set<Stand> {
    set m | m in Expand(g, Place(s, "")).next :: Erase(m)
  }

  function Edges(g: Graph): (Stand, Stand) -> bool {
    (s: Stand, t: Stand) => t in Nexts(g, s)
  }

  /** Re-exports under a name. */
  function NamedUses(g: Graph): (Stand, Stand) -> bool {
    (s: Stand, t: Stand) => s.Look? && t.Look? && t in Nexts(g, s)
  }

  /** A module found under a name, which the walk enters in a longer namespace. */
  predicate IsEntry(g: Graph, s: Stand) {
    s.Look? && HasItem(g, s.key) && ItemAt(g, s.key).inner.Known? && Nexts(g, s) != {}
  }

  /** No module entered under a name can be entered under that name again from within. */
  ghost predicate NeverGrows(g: Graph, root: Stand) {
    forall s :: IsEntry(g, s) && Reaches(Edges(g), root, s) ==> !Reaches(Edges(g), In(s.key), s)
  }

  /** No re-export leads back to itself by re-exports alone. */
  ghost predicate UsesResolve(g: Graph, root: Stand) {
    forall s, t :: NamedUses(g)(s, t) && Reaches(Edges(g), root, s) ==> !Reaches(NamedUses(g), t, s)
  }

  /** Every cycle in reach comes back to a module by glob re-exports, in the same namespace. */
  ghost predicate CyclesAreCut(g: Graph, root: Stand) {
    NeverGrows(g, root) && UsesResolve(g, root)
  }

  // ----- Namespaces neither add nor remove a step -----

  lemma {:induction false} ChildrenAnywhere(g: Graph, document: string, children: seq<Id>, a: string, b: string, id: Id)
    requires At(Key(document, id), a, None) in WalkedChildren(g, document, children, a)
    ensures At(Key(document, id), b, None) in WalkedChildren(g, document, children, b)
  {
    if children[0] != id || !IsPublicChild(g, document, children[0]) {
      ChildrenAnywhere(g, document, children[1..], a, b, id);
    }
  }

  /** A step taken in one namespace can be taken in every other; it keeps the namespace, or prolongs
      it where a module is entered under a name. */
  lemma StepAnywhere(g: Graph, s: Stand, a: string, m: Node, b: string) returns (m': Node)
    requires m in Expand(g, Place(s, a)).next
    ensures m' in Expand(g, Place(s, b)).next && Erase(m') == Erase(m)
    ensures if s.Look? && HasItem(g, s.key) && ItemAt(g, s.key).inner.Known? then |m'.namespace| > |b| && m'.Visit?
            else m'.namespace == b
  {
    match s
    case In(k) =>
      ChildrenAnywhere(g, k.document, ItemAt(g, k).children, a, b, m.key.id);
      m' := At(m.key, b, None);
    case Look(k, alias) =>
      m' := Expand(g, Place(s, b)).next[0];
  }

  lemma StepIsEdge(g: Graph, n: Node, m: Node)
    requires m in Expand(g, n).next
    ensures Edges(g)(Erase(n), Erase(m))
    ensures if IsEntry(g, Erase(n)) then Erase(m) == In(n.key) else m.namespace == n.namespace
  {
    var m' := StepAnywhere(g, Erase(n), n.namespace, m, "");
    var again := StepAnywhere(g, Erase(n), "", m', n.namespace);
    assert Place(Erase(n), n.namespace) == n;
  }

  // ----- Where every cycle is cut, the walk ends -----

  ghost function AllItems(g: Graph): set<Key> {
    set document, id | document in g.documents && id in g.documents[document].index :: Key(document, id)
  }

  ghost predicate Entering(g: Graph, s: Stand, k: Key) {
    exists alias :: IsEntry(g, Look(k, alias)) && Reaches(Edges(g), s, Look(k, alias))
  }

  /** The modules that can still be entered under a name. */
  ghost function Entries(g: Graph, s: Stand): set<Key> {
    set k | k in AllItems(g) && Entering(g, s, k)
  }

  ghost predicate Naming(g: Graph, s: Stand, k: Key) {
    exists alias :: Reaches(NamedUses(g), s, Look(k, alias))
  }

  /** The items on the chain of named re-exports from here. */
  ghost function Chain(g: Graph, s: Stand): set<Key> {
    set k | k in AllItems(g) && Naming(g, s, k)
  }

  /** Modules that can still be entered in this namespace. */
  ghost function Unvisited(g: Graph, namespace: string, visited: set<(Key, string)>): set<Key> {
    set k | k in AllItems(g) && (k, namespace) !in visited
  }

  lemma SubsetSize<T>(a: set<T>, b: set<T>)
    requires a <= b
    ensures |a| <= |b| && (a != b ==> |a| < |b|)
  {
    assert b == a + (b - a);
  }

  lemma EntriesShrink(g: Graph, s: Stand, t: Stand)
    requires Edges(g)(s, t)
    ensures |Entries(g, t)| <= |Entries(g, s)|
    ensures Entries(g, t) <= Entries(g, s)
  {
    forall k | k in Entries(g, t)
      ensures k in Entries(g, s)
    {
      var alias :| IsEntry(g, Look(k, alias)) && Reaches(Edges(g), t, Look(k, alias));
      ReachesBefore(Edges(g), s, t, Look(k, alias));
    }
    SubsetSize(Entries(g, t), Entries(g, s));
  }

  /** Entering a module under a name uses that module up. */
  lemma EntryUsesUp(g: Graph, root: Stand, s: Stand)
    requires NeverGrows(g, root) && Reaches(Edges(g), root, s) && IsEntry(g, s) && Edges(g)(s, In(s.key))
    ensures |Entries(g, In(s.key))| < |Entries(g, s)|
  {
    EntriesShrink(g, s, In(s.key));
    ReachesSelf(Edges(g), s);
    assert s == Look(s.key, s.alias);
    assert s.key in Entries(g, s);
    if s.key in Entries(g, In(s.key)) {
      var alias :| IsEntry(g, Look(s.key, alias)) && Reaches(Edges(g), In(s.key), Look(s.key, alias));
      ReachesAfter(Edges(g), root, s, In(s.key));
      ReachesThrough(Edges(g), root, In(s.key), Look(s.key, alias));
      assert false;
    }
    SubsetSize(Entries(g, In(s.key)), Entries(g, s));
  }

  /** A named re-export is off the chain that it starts. */
  lemma ChainShrinks(g: Graph, root: Stand, s: Stand, t: Stand)
    requires UsesResolve(g, root) && Reaches(Edges(g), root, s) && NamedUses(g)(s, t)
    ensures |Chain(g, t)| < |Chain(g, s)|
  {
    forall k | k in Chain(g, t)
      ensures k in Chain(g, s)
    {
      var alias :| Reaches(NamedUses(g), t, Look(k, alias));
      ReachesBefore(NamedUses(g), s, t, Look(k, alias));
    }
    ReachesSelf(NamedUses(g), s);
    assert s == Look(s.key, s.alias) && s.key in Chain(g, s);
    if s.key in Chain(g, t) {
      var alias :| Reaches(NamedUses(g), t, Look(s.key, alias));
      SameUse(g, s, t, alias);
      NamedUsesAreEdges(g, t, Look(s.key, alias));
      ReachesAfter(Edges(g), root, s, t);
      ReachesThrough(Edges(g), root, t, Look(s.key, alias));
      assert false;
    }
    SubsetSize(Chain(g, t), Chain(g, s));
  }

  /** A re-export leads where it leads, whatever name led to it. */
  lemma SameUse(g: Graph, s: Stand, t: Stand, alias: Option<string>)
    requires NamedUses(g)(s, t)
    ensures NamedUses(g)(Look(s.key, alias), t)
  {
    var m :| m in Expand(g, Place(s, "")).next && Erase(m) == t;
    assert m in Expand(g, Place(Look(s.key, alias), "")).next;
  }

  lemma NamedUsesAreEdges(g: Graph, s: Stand, t: Stand)
    requires Reaches(NamedUses(g), s, t)
    ensures Reaches(Edges(g), s, t)
  {
    var path :| Connects(NamedUses(g), path, s, t);
    forall k | 0 < k < |path|
      ensures Edges(g)(path[k - 1], path[k])
    {
      assert NamedUses(g)(path[k - 1], path[k]);
    }
    assert Connects(Edges(g), path, s, t);
  }

  lemma UnvisitedShrinks(g: Graph, namespace: string, before: set<(Key, string)>, after: set<(Key, string)>)
    requires before <= after
    ensures |Unvisited(g, namespace, after)| <= |Unvisited(g, namespace, before)|
    ensures forall k :: k in Unvisited(g, namespace, before) && (k, namespace) in after ==>
              |Unvisited(g, namespace, after)| < |Unvisited(g, namespace, before)|
  {
    SubsetSize(Unvisited(g, namespace, after), Unvisited(g, namespace, before));
  }

  lemma {:induction false} VisitedGrows(g: Graph, p: Progress, n: Node, fuel: nat)
    requires Walk(g, p, n, fuel).Ended?
    ensures p.visited <= Walk(g, p, n, fuel).at.visited
    decreases fuel, 0, 0
  {
    match n
    case Visit(k, namespace) =>
      if (k, namespace) !in p.visited {
        VisitedGrowsForAll(g, Entered(p, k, namespace), k.document, ItemAt(g, k).children, namespace, fuel - 1);
      }
    case At(_, _, _) =>
      var e := Expand(g, n);
      if e.next != [] {
        VisitedGrows(g, Recorded(p, n, e.records), e.next[0], fuel - 1);
      }
  }

  lemma {:induction false} VisitedGrowsForAll(g: Graph, p: Progress, document: string, children: seq<Id>,
                                              namespace: string, fuel: nat)
    requires WalkAll(g, p, document, children, namespace, fuel).Ended?
    ensures p.visited <= WalkAll(g, p, document, children, namespace, fuel).at.visited
    decreases fuel, 1, |children|
  {
    if children != [] {
      if !IsPublicChild(g, document, children[0]) {
        VisitedGrowsForAll(g, p, document, children[1..], namespace, fuel);
      } else {
        var child := At(Key(document, children[0]), namespace, None);
        VisitedGrows(g, p, child, fuel);
        VisitedGrowsForAll(g, Walk(g, p, child, fuel).at, document, children[1..], namespace, fuel);
      }
    }
  }

  /** From any public place some depth of nested calls suffices. The measure: modules still to be
      entered under a name, then modules not yet visited in this namespace, then the chain of named
      re-exports. */
  lemma {:induction false} WalkComesToAnEnd(g: Graph, root: Stand, p: Progress, n: Node) returns (fuel: nat)
    requires CyclesAreCut(g, root) && Reaches(Edges(g), root, Erase(n))
    ensures !Walk(g, p, n, fuel).Unfinished?
    decreases |Entries(g, Erase(n))|, |Unvisited(g, n.namespace, p.visited)|,
              if n.At? then |Chain(g, Erase(n))| else 0, 0
  {
    match n
    case Visit(k, namespace) =>
      fuel := 1;
      if (k, namespace) !in p.visited && HasItem(g, k) {
        var q := Entered(p, k, namespace);
        assert k in Unvisited(g, namespace, p.visited);
        UnvisitedShrinks(g, namespace, p.visited, q.visited);
        var below := ChildrenComeToAnEnd(g, root, q, n, ItemAt(g, k).children);
        fuel := below + 1;
      }
    case At(_, _, _) =>
      fuel := 1;
      var e := Expand(g, n);
      if e.fault.None? && e.next != [] {
        var next := e.next[0];
        StepIsEdge(g, n, next);
        ReachesAfter(Edges(g), root, Erase(n), Erase(next));
        EntriesShrink(g, Erase(n), Erase(next));
        if IsEntry(g, Erase(n)) {
          EntryUsesUp(g, root, Erase(n));
        } else if next.At? {
          ChainShrinks(g, root, Erase(n), Erase(next));
        } else {
          ItemIsOnItsChain(g, Erase(n));
        }
        var below := WalkComesToAnEnd(g, root, Recorded(p, n, e.records), next);
        fuel := below + 1;
      }
  }

  lemma ItemIsOnItsChain(g: Graph, s: Stand)
    requires s.Look? && HasItem(g, s.key)
    ensures |Chain(g, s)| > 0
  {
    ReachesSelf(NamedUses(g), s);
    assert s == Look(s.key, s.alias) && s.key in Chain(g, s);
  }

  lemma {:induction false} ChildrenComeToAnEnd(g: Graph, root: Stand, p: Progress, n: Node, children: seq<Id>)
    returns (fuel: nat)
    requires CyclesAreCut(g, root) && n.Visit? && Reaches(Edges(g), root, Erase(n))
    requires forall m :: m in WalkedChildren(g, n.key.document, children, n.namespace) ==> m in Expand(g, n).next
    ensures !WalkAll(g, p, n.key.document, children, n.namespace, fuel).Unfinished?
    decreases |Entries(g, Erase(n))|, |Unvisited(g, n.namespace, p.visited)|, |AllItems(g)| + 1, |children|
  {
    var document := n.key.document;
    fuel := 0;
    if children != [] && HasItem(g, Key(document, children[0])) {
      if !IsPublicChild(g, document, children[0]) {
        fuel := ChildrenComeToAnEnd(g, root, p, n, children[1..]);
      } else {
        var child := At(Key(document, children[0]), n.namespace, None);
        assert child in WalkedChildren(g, document, children, n.namespace);
        StepIsEdge(g, n, child);
        ReachesAfter(Edges(g), root, Erase(n), Erase(child));
        EntriesShrink(g, Erase(n), Erase(child));
        SubsetSize(Chain(g, Erase(child)), AllItems(g));
        fuel := WalkComesToAnEnd(g, root, p, child);
        if Walk(g, p, child, fuel).Ended? {
          var q := Walk(g, p, child, fuel).at;
          VisitedGrows(g, p, child, fuel);
          UnvisitedShrinks(g, n.namespace, p.visited, q.visited);
          var rest := ChildrenComeToAnEnd(g, root, q, n, children[1..]);
          var both := if fuel < rest then rest else fuel;
          MoreFuel(g, p, child, fuel, both);
          MoreFuelForAll(g, q, document, children[1..], n.namespace, rest, both);
          fuel := both;
        }
      }
    }
  }

  // ----- A cycle that grows leaves infinitely many public nodes -----

  /** An edge can be walked in every namespace. */
  lemma EdgeIsStep(g: Graph, s: Stand, t: Stand, namespace: string) returns (m: Node)
    requires Edges(g)(s, t)
    ensures Leads(g)(Place(s, namespace), m) && Erase(m) == t
    ensures if IsEntry(g, s) then |m.namespace| > |namespace| else m.namespace == namespace
  {
    var n :| n in Expand(g, Place(s, "")).next && Erase(n) == t;
    m := StepAnywhere(g, s, "", n, namespace);
  }

  /** So can a path, and the namespace never gets shorter on the way. */
  lemma {:induction false} PathIsWalk(g: Graph, path: seq<Stand>, s: Stand, t: Stand, namespace: string)
    returns (longer: string)
    requires Connects(Edges(g), path, s, t)
    ensures |longer| >= |namespace| && Reaches(Leads(g), Place(s, namespace), Place(t, longer))
    decreases |path|
  {
    if |path| == 1 {
      ReachesSelf(Leads(g), Place(s, namespace));
      return namespace;
    }
    var shorter := path[..|path| - 1];
    var before := shorter[|shorter| - 1];
    assert Edges(g)(before, t);
    var there := PathIsWalk(g, shorter, s, before, namespace);
    var m := EdgeIsStep(g, before, t, there);
    ReachesAfter(Leads(g), Place(s, namespace), Place(before, there), m);
    assert m == Place(t, m.namespace);
    longer := m.namespace;
  }

  lemma PublicSomewhere(g: Graph, root: Node, s: Stand) returns (namespace: string)
    requires Reaches(Edges(g), Erase(root), s)
    ensures Public(g, root, Place(s, namespace))
  {
    var path :| Connects(Edges(g), path, Erase(root), s);
    namespace := PathIsWalk(g, path, Erase(root), s, root.namespace);
    assert root == Place(Erase(root), root.namespace);
  }

  /** Once around a growing cycle. */
  lemma OneTurnDeeper(g: Graph, root: Node, s: Stand, namespace: string) returns (longer: string)
    requires IsEntry(g, s) && Reaches(Edges(g), In(s.key), s) && Public(g, root, Place(s, namespace))
    ensures |longer| > |namespace| && Public(g, root, Place(s, longer))
  {
    var t :| t in Nexts(g, s);
    var m := EdgeIsStep(g, s, t, namespace);
    StepIsEdge(g, Place(s, namespace), m);
    ReachesAfter(Leads(g), root, Place(s, namespace), m);
    var path :| Connects(Edges(g), path, In(s.key), s);
    longer := PathIsWalk(g, path, In(s.key), s, m.namespace);
    ReachesThrough(Leads(g), root, m, Place(s, longer));
  }

  lemma {:induction false} EverDeeper(g: Graph, root: Node, s: Stand, depth: nat) returns (namespace: string)
    requires IsEntry(g, s) && Reaches(Edges(g), In(s.key), s) && Reaches(Edges(g), Erase(root), s)
    ensures |namespace| >= depth && Public(g, root, Place(s, namespace))
  {
    if depth == 0 {
      namespace := PublicSomewhere(g, root, s);
    } else {
      var before := EverDeeper(g, root, s, depth - 1);
      namespace := OneTurnDeeper(g, root, s, before);
    }
  }

  lemma {:induction false} LongestNamespace(seen: set<Node>) returns (bound: nat)
    ensures forall n :: n in seen ==> |n.namespace| <= bound
  {
    if seen == {} {
      return 0;
    }
    var n :| n in seen;
    bound := LongestNamespace(seen - {n});
    assert seen == (seen - {n}) + {n};
    if bound < |n.namespace| {
      bound := |n.namespace|;
    }
  }

  /** No finite set of nodes that holds the root is closed under the rules, so the walk has no state
      to stop in. */
  lemma GrowthIsNeverDone(g: Graph, root: Node, s: Stand, seen: set<Node>, items: set<Record>)
    requires IsEntry(g, s) && Reaches(Edges(g), Erase(root), s) && Reaches(Edges(g), In(s.key), s)
    ensures !(root in seen && DoneSince(g, {}, {}, seen, items))
  {
    if root in seen && DoneSince(g, {}, {}, seen, items) {
      var bound := LongestNamespace(seen);
      var namespace := EverDeeper(g, root, s, bound + 1);
      SeenIsPublic(g, root, seen, items);
      assert false;
    }
  }

  // ----- A cycle of named re-exports is followed without end -----

  /** The next item of the cycle is on the cycle. */
  lemma CycleGoesOn(g: Graph, s: Stand, t: Stand) returns (u: Stand)
    requires NamedUses(g)(s, t) && Reaches(NamedUses(g), t, s)
    ensures NamedUses(g)(t, u) && Reaches(NamedUses(g), u, t)
  {
    var path :| Connects(NamedUses(g), path, t, s);
    if |path| == 1 {
      u := t;
      ReachesSelf(NamedUses(g), t);
    } else {
      u := path[1];
      var rest := path[1..];
      forall k | 0 < k < |rest|
        ensures NamedUses(g)(rest[k - 1], rest[k])
      {
        assert NamedUses(g)(path[k], path[k + 1]);
      }
      assert Connects(NamedUses(g), rest, u, s);
      ReachesAfter(NamedUses(g), u, s, t);
    }
  }

  lemma UseStep(g: Graph, s: Stand, t: Stand, namespace: string)
    requires NamedUses(g)(s, t)
    ensures Expand(g, Place(s, namespace)).fault.None?
    ensures Expand(g, Place(s, namespace)).next == [Place(t, namespace)]
  {
    var next := EdgeIsStep(g, s, t, namespace);
    assert next == Expand(g, Place(s, namespace)).next[0];
  }

  /** Wherever the walk stands, and whatever it has gathered, it does not get through a re-export that
      leads back to itself by re-exports alone: no depth of nested calls suffices. */
  lemma {:induction false} UseCycleNeverEnds(g: Graph, s: Stand, t: Stand, p: Progress, namespace: string, fuel: nat)
    requires NamedUses(g)(s, t) && Reaches(NamedUses(g), t, s)
    ensures Walk(g, p, Place(s, namespace), fuel).Unfinished?
    decreases fuel
  {
    if fuel > 0 {
      UseStep(g, s, t, namespace);
      var u := CycleGoesOn(g, s, t);
      var n := Place(s, namespace);
      UseCycleNeverEnds(g, t, u, Recorded(p, n, Expand(g, n).records), namespace, fuel - 1);
    }
  }

  /** Some walk from here came to an end. */
  ghost predicate GotThrough(g: Graph, n: Node) {
    exists p, fuel :: Walk(g, p, n, fuel).Ended?
  }

  /** The walk that ends has got through every node that it leaves behind. */
  lemma {:induction false} SeenGotThrough(g: Graph, p: Progress, n: Node, fuel: nat, m: Node)
    requires Walk(g, p, n, fuel).Ended? && m in Walk(g, p, n, fuel).at.seen
    ensures m in p.seen || GotThrough(g, m)
    decreases fuel, 0, 0
  {
    if m != n {
      match n
      case Visit(k, namespace) =>
        if (k, namespace) !in p.visited {
          SeenGotThroughForAll(g, Entered(p, k, namespace), k.document, ItemAt(g, k).children, namespace, fuel - 1, m);
        }
      case At(_, _, _) =>
        var e := Expand(g, n);
        if e.next != [] {
          SeenGotThrough(g, Recorded(p, n, e.records), e.next[0], fuel - 1, m);
        }
    }
  }

  lemma {:induction false} SeenGotThroughForAll(g: Graph, p: Progress, document: string, children: seq<Id>,
                                                namespace: string, fuel: nat, m: Node)
    requires WalkAll(g, p, document, children, namespace, fuel).Ended?
    requires m in WalkAll(g, p, document, children, namespace, fuel).at.seen
    ensures m in p.seen || GotThrough(g, m)
    decreases fuel, 1, |children|
  {
    if children != [] {
      if !IsPublicChild(g, document, children[0]) {
        SeenGotThroughForAll(g, p, document, children[1..], namespace, fuel, m);
      } else {
        var child := At(Key(document, children[0]), namespace, None);
        var q := Walk(g, p, child, fuel).at;
        SeenGotThroughForAll(g, q, document, children[1..], namespace, fuel, m);
        if m in q.seen {
          SeenGotThrough(g, p, child, fuel, m);
        }
      }
    }
  }

  // ----- Exactly when the walk ends -----

  /** A walk that ends with a result met no cycle that is not cut. */
  lemma EndedMeansCut(g: Graph, root: Node, fuel: nat)
    requires Walk(g, START, root, fuel).Ended?
    ensures CyclesAreCut(g, Erase(root))
  {
    var at := Walk(g, START, root, fuel).at;
    ReachesSelf(Leads(g), root);
    WalkIsSound(g, root, START, root, fuel);
    forall s | IsEntry(g, s) && Reaches(Edges(g), Erase(root), s)
      ensures !Reaches(Edges(g), In(s.key), s)
    {
      if Reaches(Edges(g), In(s.key), s) {
        GrowthIsNeverDone(g, root, s, at.seen, at.items);
        assert false;
      }
    }
    SeenIsPublic(g, root, at.seen, at.items);
    forall s, t | NamedUses(g)(s, t) && Reaches(Edges(g), Erase(root), s)
      ensures !Reaches(NamedUses(g), t, s)
    {
      if Reaches(NamedUses(g), t, s) {
        var namespace := PublicSomewhere(g, root, s);
        SeenGotThrough(g, START, root, fuel, Place(s, namespace));
        var p, depth :| Walk(g, p, Place(s, namespace), depth).Ended?;
        UseCycleNeverEnds(g, s, t, p, namespace, depth);
        assert false;
      }
    }
  }

  /** The walk ends with a result if and only if every cycle in reach is cut and no public node is
      faulty. Cut cycles always let it end. Where nothing raises an error, nothing else does; where
      something does, the walk may come upon the error before it comes upon the cycle
      (`FaultBeforeCycleEnds`). */
  lemma WalkEndsExactly(g: Graph, k: Key, namespace: string)
    ensures CyclesAreCut(g, In(k)) ==> Ends(g, k, namespace)
    ensures (exists fuel :: Walk(g, START, Visit(k, namespace), fuel).Ended?)
            <==> CyclesAreCut(g, In(k)) && IsFaultFree(g, Visit(k, namespace))
    ensures IsFaultFree(g, Visit(k, namespace)) ==> (Ends(g, k, namespace) <==> CyclesAreCut(g, In(k)))
  {
    var root := Visit(k, namespace);
    FaultFreeRaisesNone(g, root);
    if CyclesAreCut(g, In(k)) {
      ReachesSelf(Edges(g), In(k));
      var fuel := WalkComesToAnEnd(g, In(k), START, root);
      EndedIsExact(g, root, fuel);
    }
    forall fuel | !Walk(g, START, root, fuel).Unfinished?
      ensures Walk(g, START, root, fuel).Ended? <==> IsFaultFree(g, root)
      ensures Walk(g, START, root, fuel).Ended? ==> CyclesAreCut(g, In(k))
    {
      EndedIsExact(g, root, fuel);
      if Walk(g, START, root, fuel).Ended? {
        EndedMeansCut(g, root, fuel);
      }
    }
  }

  // ----- An error that comes before the cycle -----

  /** Steps that do not come back to `n`. */
  function LeadsPast(g: Graph, n: Node): (Node, Node) -> bool {
    (a: Node, b: Node) => b in Expand(g, a).next && b != n
  }

  /** Walked nodes lead past an open module to walked nodes only, and those raise no error. */
  lemma WalkedHasNoFault(g: Graph, n: Node, child: Node, m: Node, p: Progress)
    requires child != n && child in p.seen && DoneSince(g, {}, {n}, p.seen, p.items)
    requires Reaches(LeadsPast(g, n), child, m)
    ensures Expand(g, m).fault.None?
  {
    var path :| Connects(LeadsPast(g, n), path, child, m);
    var closed := iset a | a in p.seen && a != n;
    forall a, b | a in closed && LeadsPast(g, n)(a, b)
      ensures b in closed
    {
      assert Done(g, a, p.seen, p.items);
    }
    ReachesIsLeast(LeadsPast(g, n), path, child, m, closed);
    assert Done(g, m, p.seen, p.items);
  }

  /** The child can be walked to an end: it is missing, not walked, or has only cut cycles in reach. */
  ghost predicate IsHarmless(g: Graph, document: string, id: Id) {
    IsPublicChild(g, document, id) ==> CyclesAreCut(g, Look(Key(document, id), None))
  }

  lemma {:induction false} FaultComesFirst(g: Graph, root: Node, p: Progress, n: Node,
                                           children: seq<Id>, i: nat, m: Node)
    returns (fuel: nat)
    requires n.Visit? && Sound(g, root, p.seen, p.items, p.visited) && Public(g, root, n)
    requires DoneSince(g, {}, {n}, p.seen, p.items)
    requires forall c :: c in WalkedChildren(g, n.key.document, children, n.namespace) ==> c in Expand(g, n).next
    requires i < |children| && forall j :: 0 <= j <= i ==> IsHarmless(g, n.key.document, children[j])
    requires IsPublicChild(g, n.key.document, children[i])
    requires Reaches(LeadsPast(g, n), At(Key(n.key.document, children[i]), n.namespace, None), m)
    requires Expand(g, m).fault.Some?
    ensures WalkAll(g, p, n.key.document, children, n.namespace, fuel).Failed?
    decreases |children|
  {
    var document := n.key.document;
    fuel := 0;
    if HasItem(g, Key(document, children[0])) {
      assert IsHarmless(g, document, children[0]);
      var rest := children[1..];
      assert i > 0 ==> rest[i - 1] == children[i];
      assert forall j :: 0 <= j < i ==> rest[j] == children[j + 1];
      if !IsPublicChild(g, document, children[0]) {
        fuel := FaultComesFirst(g, root, p, n, rest, i - 1, m);
      } else {
        var child := At(Key(document, children[0]), n.namespace, None);
        assert child in WalkedChildren(g, document, children, n.namespace);
        assert Leads(g)(n, child);
        ReachesAfter(Leads(g), root, n, child);
        ReachesSelf(Edges(g), Erase(child));
        fuel := WalkComesToAnEnd(g, Erase(child), p, child);
        WalkIsSound(g, root, p, child, fuel);
        if Walk(g, p, child, fuel).Ended? {
          var q := Walk(g, p, child, fuel).at;
          DoneGrows(g, {}, {n}, p.seen, p.items, q.seen, q.items);
          if i == 0 {
            WalkedHasNoFault(g, n, child, m, q);
            assert false;
          }
          var more := FaultComesFirst(g, root, q, n, rest, i - 1, m);
          var both := if fuel < more then more else fuel;
          MoreFuel(g, p, child, fuel, both);
          MoreFuelForAll(g, q, document, rest, n.namespace, more, both);
          fuel := both;
        }
      }
    }
  }

  /** An error in reach of a child of the root, without coming back to the root, ends the walk if no
      child up to that one has an uncut cycle in reach, whatever the later children lead to. */
  lemma FaultBeforeCycleEnds(g: Graph, k: Key, namespace: string, i: nat, m: Node)
    requires HasItem(g, k) && i < |ItemAt(g, k).children|
    requires forall j :: 0 <= j <= i ==> IsHarmless(g, k.document, ItemAt(g, k).children[j])
    requires IsPublicChild(g, k.document, ItemAt(g, k).children[i])
    requires var child := At(Key(k.document, ItemAt(g, k).children[i]), namespace, None);
             Reaches(LeadsPast(g, Visit(k, namespace)), child, m)
    requires Expand(g, m).fault.Some?
    ensures exists fuel :: Walk(g, START, Visit(k, namespace), fuel).Failed?
    ensures Ends(g, k, namespace)
  {
    var root := Visit(k, namespace);
    ReachesSelf(Leads(g), root);
    var below := FaultComesFirst(g, root, Entered(START, k, namespace), root, ItemAt(g, k).children, i, m);
    assert Walk(g, START, root, below + 1).Failed?;
  }

  // ----- An input on which it does not -----

  /** A root module that re-exports itself by name: `pub use crate as x`. */
  function SelfNamed(): Graph {
    Graph(map["d" := Document(
                map["0" := Item(Some("d"), true, false, ["1"], Rustdoc("m"), Known(Module, Ok([]))),
                    "1" := Item(None, true, false, [], Rustdoc("u"),
                                Use(Import("crate", false, Some("x"), Some("0"))))],
                map[])],
          map[])
  }

  /** The three nodes of that graph, in any namespace. */
  predicate IsSelfNamedNode(n: Node) {
    match n
    case Visit(k, _) => k == Key("d", "0")
    case At(k, _, alias) => (k == Key("d", "1") && alias == None) || (k == Key("d", "0") && alias == Some("x"))
  }

  lemma SelfNamedSteps(n: Node)
    requires IsSelfNamedNode(n)
    ensures Expand(SelfNamed(), n).fault.None?
    ensures |Expand(SelfNamed(), n).next| == 1 && IsSelfNamedNode(Expand(SelfNamed(), n).next[0])
    ensures Erase(Expand(SelfNamed(), n).next[0])
            == if n.Visit? then Look(Key("d", "1"), None)
               else if n.alias.None? then Look(Key("d", "0"), Some("x")) else In(Key("d", "0"))
  {
    if n.Visit? {
      assert WalkedChildren(SelfNamed(), "d", ["1"], n.namespace) == [At(Key("d", "1"), n.namespace, None)];
    } else {
      assert ItemName(ItemAt(SelfNamed(), Key("d", "0")), Some("x")) == Some("x");
    }
  }

  /** Nodes closed under the rules, none of which raises an error, hold every public node. */
  lemma ClosedHasNoFault(g: Graph, root: Node, closed: iset<Node>)
    requires root in closed
    requires forall n :: n in closed ==> Expand(g, n).fault.None?
    requires forall n, m :: n in closed && m in Expand(g, n).next ==> m in closed
    ensures IsFaultFree(g, root)
  {
    forall n | Public(g, root, n)
      ensures Expand(g, n).fault.None?
    {
      var path :| Connects(Leads(g), path, root, n);
      assert forall a, b :: a in closed && Leads(g)(a, b) ==> b in closed;
      ReachesIsLeast(Leads(g), path, root, n, closed);
    }
    FaultFreeRaisesNone(g, root);
  }

  lemma SelfNamedHasNoFault(namespace: string)
    ensures IsFaultFree(SelfNamed(), Visit(Key("d", "0"), namespace))
  {
    var closed := iset m | IsSelfNamedNode(m);
    forall n | n in closed
      ensures Expand(SelfNamed(), n).fault.None?
      ensures forall m :: m in Expand(SelfNamed(), n).next ==> m in closed
    {
      SelfNamedSteps(n);
    }
    ClosedHasNoFault(SelfNamed(), Visit(Key("d", "0"), namespace), closed);
  }

  lemma SelfNamedGrows()
    ensures !CyclesAreCut(SelfNamed(), In(Key("d", "0")))
  {
    var g, inside := SelfNamed(), In(Key("d", "0"));
    var use, entry := Look(Key("d", "1"), None), Look(Key("d", "0"), Some("x"));
    SelfNamedSteps(Place(inside, ""));
    SelfNamedSteps(Place(use, ""));
    SelfNamedSteps(Place(entry, ""));
    assert Edges(g)(inside, use) && Edges(g)(use, entry) && Edges(g)(entry, inside);
    ReachesSelf(Edges(g), entry);
    ReachesBefore(Edges(g), use, entry, entry);
    ReachesBefore(Edges(g), inside, use, entry);
    assert IsEntry(g, entry);
  }

  /** The walk of that graph never ends, in whatever namespace it starts. */
  lemma SelfNamedNeverEnds(namespace: string)
    ensures !Ends(SelfNamed(), Key("d", "0"), namespace)
  {
    SelfNamedHasNoFault(namespace);
    SelfNamedGrows();
    WalkEndsExactly(SelfNamed(), Key("d", "0"), namespace);
  }
}
