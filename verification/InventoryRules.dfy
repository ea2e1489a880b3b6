/**
 What the public-API walk is for (echo-sdk-protocol/src/inventory.rs): which records the documents
 make public, under which paths, and what counts as an error. The rules speak of documents, names
 and paths only; `InventoryWalk` says how the walk follows them.
 */
module InventoryRules {
  import opened Prelude
  import opened Reachability
  import opened InventoryWalk

  // ----- Names, paths and targets -----

  predicate Joins(namespace: string, name: string, path: string) {
    path == if namespace == "" then name else namespace + "::" + name
  }

  /** The name an item is published under: the one it was found by, else its own; never an empty one. */
  predicate GoesBy(item: Item, alias: Option<string>, name: string) {
    name != "" && (if alias.Some? then alias.value == name else item.name == Some(name))
  }

  predicate IsModule(item: Item) {
    item.inner.Known? && item.inner.kind == Module
  }

  predicate EndsSegment(source: string, end: int) {
    2 <= end <= |source| && source[end - 2..end] == "::"
  }

  /** What follows the last separator of a path, or all of it. */
  ghost predicate IsLastSegment(source: string, segment: string) {
    || (segment == source && forall end :: !EndsSegment(source, end))
    || exists end :: EndsSegment(source, end) && segment == source[end..]
                     && forall later :: later > end ==> !EndsSegment(source, later)
  }

  /** The item that a `use` means: of its own document, or of the crate that its summary names. */
  predicate Finds(g: Graph, document: string, id: Id, target: Key) {
    && HasItem(g, target)
    && if HasItem(g, Key(document, id)) then target == Key(document, id)
       else
         && document in g.documents && id in g.documents[document].paths
         && var path := g.documents[document].paths[id].path;
            path != [] && target.document == path[0]
            && path[0] in g.idsByPath && path in g.idsByPath[path[0]] && g.idsByPath[path[0]][path] == target.id
  }

  ghost predicate FindsNone(g: Graph, document: string, id: Id) {
    forall target :: !Finds(g, document, id, target)
  }

  // ----- The rules -----

  /** Child `i` of a module is looked at: it and all before it are there. */
  predicate IsLookedAt(g: Graph, k: Key, i: int)
    requires HasItem(g, k)
  {
    && 0 <= i < |ItemAt(g, k).children|
    && forall j :: 0 <= j <= i ==> HasItem(g, Key(k.document, ItemAt(g, k).children[j]))
  }

  /** A module nests its public children. */
  ghost predicate Nests(g: Graph, k: Key, namespace: string, b: Node) {
    && b.At? && b.namespace == namespace && b.alias.None? && b.key.document == k.document
    && HasItem(g, k) && HasItem(g, b.key) && ItemAt(g, b.key).public && !ItemAt(g, b.key).hidden
    && exists i :: IsLookedAt(g, k, i) && ItemAt(g, k).children[i] == b.key.id
  }

  /** A module item is entered under its path. */
  ghost predicate Enters(g: Graph, k: Key, namespace: string, alias: Option<string>, b: Node) {
    && HasItem(g, k) && IsModule(ItemAt(g, k)) && b.Visit? && b.key == k
    && exists name :: GoesBy(ItemAt(g, k), alias, name) && Joins(namespace, name, b.namespace)
  }

  /** A `use` re-exports its target under a name, or splices it into the namespace if it is a module. */
  ghost predicate Reexports(g: Graph, k: Key, namespace: string, b: Node) {
    && HasItem(g, k) && ItemAt(g, k).inner.Use? && ItemAt(g, k).inner.use.target.Some?
    && var use := ItemAt(g, k).inner.use;
       && Finds(g, k.document, use.target.value, b.key) && b.namespace == namespace
       && if use.isGlob then b.Visit? && IsModule(ItemAt(g, b.key))
          else b.At? && b.alias.Some?
               && if use.name.Some? then b.alias == use.name else IsLastSegment(use.source, b.alias.value)
  }

  ghost predicate Publishes(g: Graph, a: Node, b: Node) {
    match a
    case Visit(k, namespace) => Nests(g, k, namespace, b)
    case At(k, namespace, alias) => Enters(g, k, namespace, alias, b) || Reexports(g, k, namespace, b)
  }

  /** An item of a known kind makes a record of its own, and one per member below its own path. */
  ghost predicate MakesOwn(g: Graph, k: Key, namespace: string, alias: Option<string>, x: Record) {
    && HasItem(g, k) && ItemAt(g, k).inner.Known?
    && exists name, path ::
         && GoesBy(ItemAt(g, k), alias, name) && Joins(namespace, name, path)
         && if IsModule(ItemAt(g, k)) then x == Record(path, ItemAt(g, k).shape)
            else
              && ItemAt(g, k).inner.members.Ok?
              && (|| x == Record(path, ItemAt(g, k).shape)
                  || exists m :: && m in ItemAt(g, k).inner.members.value
                                 && x.shape == m.shape && Joins(path, m.path, x.path))
  }

  /** A `use` of an item that no document holds makes a reference to it. */
  ghost predicate MakesReference(g: Graph, k: Key, namespace: string, x: Record) {
    && HasItem(g, k) && ItemAt(g, k).inner.Use? && !ItemAt(g, k).inner.use.isGlob
    && var use := ItemAt(g, k).inner.use;
       match use.target
       case None =>
         && x.shape == External(use.source)
         && Joins(namespace, if use.name.Some? then use.name.value else use.source, x.path)
       case Some(id) =>
         && FindsNone(g, k.document, id)
         && k.document in g.documents && id in g.documents[k.document].paths
         && var summary := g.documents[k.document].paths[id];
            && IsSummaryKind(summary.kind) && x.shape == External(JoinPath(summary.path))
            && Joins(namespace,
                      if use.name.Some? then use.name.value
                      else if summary.path != [] then summary.path[|summary.path| - 1] else use.source,
                      x.path)
  }

  ghost predicate Makes(g: Graph, n: Node, x: Record) {
    n.At? && (MakesOwn(g, n.key, n.namespace, n.alias, x) || MakesReference(g, n.key, n.namespace, x))
  }

  // ----- Errors -----

  ghost predicate ModuleFaults(g: Graph, k: Key, error: InventoryError) {
    if !HasItem(g, k) then error == MissingItem(k.document, k.id)
    else
      exists i :: 0 <= i < |ItemAt(g, k).children| && !HasItem(g, Key(k.document, ItemAt(g, k).children[i]))
                  && (i > 0 ==> IsLookedAt(g, k, i - 1))
                  && error == MissingItem(k.document, ItemAt(g, k).children[i])
  }

  /** A glob of something that is no module. */
  predicate GlobFaults(target: Item, source: string, error: InventoryError) {
    match target.inner
    case NoInner => error == UnresolvedGlob(source)
    case Known(kind, _) => kind != Module && error == UnresolvedGlob(source)
    case Use(_) => error == UnsupportedItemKind("use")
    case Skipped(key) => error == UnsupportedItemKind(key)
    case Unknown(key) => error == UnsupportedItemKind(key)
  }

  ghost predicate UseFaults(g: Graph, document: string, use: Import, error: InventoryError) {
    match use.target
    case None => use.isGlob && error == UnresolvedGlob(use.source)
    case Some(id) =>
      || (&& use.isGlob
          && exists target :: Finds(g, document, id, target) && GlobFaults(ItemAt(g, target), use.source, error))
      || (&& FindsNone(g, document, id)
          && if !(document in g.documents && id in g.documents[document].paths) then error == MissingItem(document, id)
             else if use.isGlob then error == UnresolvedGlob(use.source)
             else
               && !IsSummaryKind(g.documents[document].paths[id].kind)
               && error == UnsupportedItemKind(g.documents[document].paths[id].kind))
  }

  ghost predicate ItemFaults(g: Graph, k: Key, alias: Option<string>, error: InventoryError) {
    if !HasItem(g, k) then error == MissingItem(k.document, k.id)
    else match ItemAt(g, k).inner
      case NoInner => error == UnsupportedItemKind("<missing inner>")
      case Unknown(key) => error == UnsupportedItemKind(key)
      case Skipped(_) => false
      case Use(use) => UseFaults(g, k.document, use, error)
      case Known(kind, members) =>
        if forall name :: !GoesBy(ItemAt(g, k), alias, name) then error == UnsupportedItemKind("unnamed")
        else kind != Module && members == Err(error)
  }

  ghost predicate Faults(g: Graph, n: Node, error: InventoryError) {
    match n
    case Visit(k, _) => ModuleFaults(g, k, error)
    case At(k, _, alias) => ItemFaults(g, k, alias, error)
  }

  // ----- The walk follows the rules -----

  lemma {:induction false} LastSegmentFromIsLast(source: string, end: nat)
    requires end <= |source| && forall later :: later > end ==> !EndsSegment(source, later)
    ensures IsLastSegment(source, LastSegmentFrom(source, end))
    decreases end
  {
    if end >= 2 {
      if source[end - 2..end] == "::" {
        assert EndsSegment(source, end);
      } else {
        LastSegmentFromIsLast(source, end - 1);
      }
    }
  }

  lemma LastSegmentIsLast(source: string, segment: string)
    ensures IsLastSegment(source, segment) <==> segment == LastSegment(source)
  {
    LastSegmentFromIsLast(source, |source|);
    if IsLastSegment(source, segment) {
      OneLastSegment(source, segment, LastSegment(source));
    }
  }

  lemma OneLastSegment(source: string, a: string, b: string)
    requires IsLastSegment(source, a) && IsLastSegment(source, b)
    ensures a == b
  {
    if exists end :: EndsSegment(source, end) {
      var e :| EndsSegment(source, e) && a == source[e..] && forall later :: later > e ==> !EndsSegment(source, later);
      var f :| EndsSegment(source, f) && b == source[f..] && forall later :: later > f ==> !EndsSegment(source, later);
      assert e == f;
    }
  }

  lemma TargetIsFound(g: Graph, document: string, id: Id, target: Key)
    ensures Finds(g, document, id, target) <==> ResolveTarget(g, document, id) == Some(target)
  {
  }

  lemma NothingIsFound(g: Graph, document: string, id: Id)
    ensures FindsNone(g, document, id) <==> ResolveTarget(g, document, id).None?
  {
    forall target
      ensures Finds(g, document, id, target) <==> ResolveTarget(g, document, id) == Some(target)
    {
      TargetIsFound(g, document, id, target);
    }
  }

  lemma NameOfItem(item: Item, alias: Option<string>, name: string)
    ensures GoesBy(item, alias, name) <==> ItemName(item, alias) == Some(name)
  {
  }

  /** The path of several segments is theirs, joined. */
  lemma {:induction false} JoinedPath(a: seq<string>, b: seq<string>)
    ensures |a| == 1 ==> JoinPath(a) == a[0]
    ensures a != [] && b != [] ==> JoinPath(a + b) == JoinPath(a) + "::" + JoinPath(b)
  {
    if a != [] && b != [] {
      assert (a + b)[0] == a[0] && (a + b)[1..] == a[1..] + b;
      if |a| > 1 {
        JoinedPath(a[1..], b);
        assert JoinPath(a) == a[0] + "::" + JoinPath(a[1..]);
      } else {
        assert a[1..] + b == b;
      }
    }
  }

  // Children: those that are walked are those that are looked at.

  ghost predicate ChildAt(g: Graph, document: string, children: seq<Id>, i: int, id: Id) {
    && 0 <= i < |children| && children[i] == id
    && forall j :: 0 <= j <= i ==> HasItem(g, Key(document, children[j]))
  }

  lemma {:induction false} WalkedIsLookedAt(g: Graph, document: string, children: seq<Id>, namespace: string, id: Id)
    ensures At(Key(document, id), namespace, None) in WalkedChildren(g, document, children, namespace)
            <==> IsPublicChild(g, document, id) && exists i :: ChildAt(g, document, children, i, id)
  {
    forall i | ChildAt(g, document, children, i, id)
      ensures children != [] && HasItem(g, Key(document, children[0]))
    {
    }
    if children != [] && HasItem(g, Key(document, children[0])) {
      var rest := children[1..];
      WalkedIsLookedAt(g, document, rest, namespace, id);
      if i :| ChildAt(g, document, rest, i, id) {
        assert ChildAt(g, document, children, i + 1, id) by {
          forall j | 0 <= j <= i + 1
            ensures HasItem(g, Key(document, children[j]))
          {
            assert j > 0 ==> rest[j - 1] == children[j];
          }
        }
      }
      if i :| ChildAt(g, document, children, i, id) && i > 0 {
        assert ChildAt(g, document, rest, i - 1, id) by {
          assert forall j :: 0 <= j <= i - 1 ==> rest[j] == children[j + 1];
        }
      }
      if children[0] == id {
        assert ChildAt(g, document, children, 0, id);
      }
    }
  }

  ghost predicate MissingAt(g: Graph, document: string, children: seq<Id>, i: int) {
    && 0 <= i < |children| && !HasItem(g, Key(document, children[i]))
    && forall j :: 0 <= j < i ==> HasItem(g, Key(document, children[j]))
  }

  lemma {:induction false} FirstMissingIsFirst(g: Graph, document: string, children: seq<Id>, error: InventoryError)
    ensures FirstMissing(g, document, children) == Some(error)
            <==> exists i :: MissingAt(g, document, children, i) && error == MissingItem(document, children[i])
  {
    if children != [] {
      var rest := children[1..];
      assert forall j :: 0 <= j < |rest| ==> rest[j] == children[j + 1];
      FirstMissingIsFirst(g, document, rest, error);
      if HasItem(g, Key(document, children[0])) {
        if i :| MissingAt(g, document, rest, i) && error == MissingItem(document, rest[i]) {
          assert MissingAt(g, document, children, i + 1) by {
            forall j | 0 <= j < i + 1
              ensures HasItem(g, Key(document, children[j]))
            {
              assert j > 0 ==> rest[j - 1] == children[j];
            }
          }
        }
        if i :| MissingAt(g, document, children, i) && error == MissingItem(document, children[i]) {
          assert i > 0;
          assert MissingAt(g, document, rest, i - 1);
        }
      } else {
        assert MissingAt(g, document, children, 0);
        forall i | MissingAt(g, document, children, i)
          ensures i == 0
        {
        }
      }
    }
  }

  lemma ModuleSteps(g: Graph, k: Key, namespace: string, b: Node)
    ensures b in Expand(g, Visit(k, namespace)).next <==> Nests(g, k, namespace, b)
  {
    if HasItem(g, k) && b.At? && b.namespace == namespace && b.alias.None? && b.key.document == k.document {
      var children := ItemAt(g, k).children;
      WalkedIsLookedAt(g, k.document, children, namespace, b.key.id);
      assert b == At(Key(k.document, b.key.id), namespace, None);
      forall i
        ensures ChildAt(g, k.document, children, i, b.key.id) <==> IsLookedAt(g, k, i) && children[i] == b.key.id
      {
      }
    }
  }

  lemma ModuleErrors(g: Graph, k: Key, namespace: string, error: InventoryError)
    ensures Expand(g, Visit(k, namespace)).fault == Some(error) <==> ModuleFaults(g, k, error)
  {
    if HasItem(g, k) {
      var children := ItemAt(g, k).children;
      FirstMissingIsFirst(g, k.document, children, error);
      forall i
        ensures MissingAt(g, k.document, children, i) <==>
                && 0 <= i < |children| && !HasItem(g, Key(k.document, children[i]))
                && (i > 0 ==> IsLookedAt(g, k, i - 1))
      {
      }
    }
  }

  lemma NamedBy(item: Item, alias: Option<string>)
    ensures ItemName(item, alias).Some? ==> GoesBy(item, alias, ItemName(item, alias).value)
    ensures forall name :: GoesBy(item, alias, name) ==> ItemName(item, alias) == Some(name)
  {
  }

  lemma ItemSteps(g: Graph, k: Key, namespace: string, alias: Option<string>, b: Node)
    ensures b in Expand(g, At(k, namespace, alias)).next
            <==> Enters(g, k, namespace, alias, b) || Reexports(g, k, namespace, b)
  {
    if HasItem(g, k) {
      match ItemAt(g, k).inner
      case Known(_, _) => NamedBy(ItemAt(g, k), alias);
      case Use(use) => UseSteps(g, k, namespace, b);
      case _ =>
    }
  }

  lemma UseSteps(g: Graph, k: Key, namespace: string, b: Node)
    requires HasItem(g, k) && ItemAt(g, k).inner.Use?
    ensures b in ExpandImport(g, k.document, ItemAt(g, k).inner.use, namespace).next <==> Reexports(g, k, namespace, b)
  {
    var use := ItemAt(g, k).inner.use;
    if use.target.Some? {
      TargetIsFound(g, k.document, use.target.value, b.key);
      if b.At? && b.alias.Some? {
        LastSegmentIsLast(use.source, b.alias.value);
      }
      var found := ResolveTarget(g, k.document, use.target.value);
      if found.Some? {
        LastSegmentIsLast(use.source, LastSegment(use.source));
      }
    }
  }

  lemma ItemErrors(g: Graph, k: Key, namespace: string, alias: Option<string>, error: InventoryError)
    ensures Expand(g, At(k, namespace, alias)).fault == Some(error) <==> ItemFaults(g, k, alias, error)
  {
    if HasItem(g, k) {
      match ItemAt(g, k).inner
      case Known(_, _) => NamedBy(ItemAt(g, k), alias);
      case Use(use) => UseErrors(g, k.document, use, namespace, error);
      case _ =>
    }
  }

  lemma UseErrors(g: Graph, document: string, use: Import, namespace: string, error: InventoryError)
    ensures ExpandImport(g, document, use, namespace).fault == Some(error) <==> UseFaults(g, document, use, error)
  {
    if use.target.Some? {
      var id := use.target.value;
      NothingIsFound(g, document, id);
      var found := ResolveTarget(g, document, id);
      forall target
        ensures Finds(g, document, id, target) <==> found == Some(target)
      {
        TargetIsFound(g, document, id, target);
      }
    }
  }

  lemma ItemRecords(g: Graph, n: Node, x: Record)
    requires n.At?
    ensures x in Expand(g, n).records <==> Makes(g, n, x)
  {
    if HasItem(g, n.key) {
      match ItemAt(g, n.key).inner
      case Known(_, _) => KnownRecords(g, n.key, n.namespace, n.alias, x);
      case Use(use) => UseRecords(g, n.key, n.namespace, x);
      case _ =>
    }
  }

  lemma KnownRecords(g: Graph, k: Key, namespace: string, alias: Option<string>, x: Record)
    requires HasItem(g, k) && ItemAt(g, k).inner.Known?
    ensures x in ExpandKnown(g, k, namespace, alias).records <==> MakesOwn(g, k, namespace, alias, x)
  {
    var item := ItemAt(g, k);
    NamedBy(item, alias);
    if ItemName(item, alias).Some? {
      var path := NamespacePath(namespace, ItemName(item, alias).value);
      assert Joins(namespace, ItemName(item, alias).value, path);
      if !IsModule(item) && item.inner.members.Ok? {
        MemberRecords(path, item.inner.members.value, x);
      }
    }
  }

  lemma MemberRecords(path: string, members: seq<Record>, x: Record)
    ensures x in Below(path, members) <==> exists m :: m in members && x.shape == m.shape && Joins(path, m.path, x.path)
  {
    var below := Below(path, members);
    if m :| m in members && x.shape == m.shape && Joins(path, m.path, x.path) {
      var i :| 0 <= i < |members| && members[i] == m;
      assert below[i] == x;
    }
  }

  lemma UseRecords(g: Graph, k: Key, namespace: string, x: Record)
    requires HasItem(g, k) && ItemAt(g, k).inner.Use?
    ensures x in ExpandImport(g, k.document, ItemAt(g, k).inner.use, namespace).records
            <==> MakesReference(g, k, namespace, x)
  {
    var use := ItemAt(g, k).inner.use;
    if use.target.Some? {
      NothingIsFound(g, k.document, use.target.value);
    }
  }

  // ----- What the walk yields, by the rules alone -----

  ghost function Rules(g: Graph): (Node, Node) -> bool {
    (a: Node, b: Node) => Publishes(g, a, b)
  }

  /** The node is in the least set that holds the root and is closed under nesting and re-exports. */
  ghost predicate IsPublic(g: Graph, root: Node, n: Node) {
    Reaches(Rules(g), root, n)
  }

  lemma StepsAreRules(g: Graph, a: Node, b: Node)
    ensures Leads(g)(a, b) <==> Rules(g)(a, b)
  {
    match a
    case Visit(k, namespace) => ModuleSteps(g, k, namespace, b);
    case At(k, namespace, alias) => ItemSteps(g, k, namespace, alias, b);
  }

  lemma PublicByRules(g: Graph, root: Node, n: Node)
    ensures IsPublic(g, root, n) <==> Public(g, root, n)
  {
    forall a, b
      ensures Leads(g)(a, b) <==> Rules(g)(a, b)
    {
      StepsAreRules(g, a, b);
    }
    SameReach(Leads(g), Rules(g), root, n);
  }

  lemma ErrorsAreFaults(g: Graph, n: Node, error: InventoryError)
    ensures Expand(g, n).fault == Some(error) <==> Faults(g, n, error)
  {
    match n
    case Visit(k, namespace) => ModuleErrors(g, k, namespace, error);
    case At(k, namespace, alias) => ItemErrors(g, k, namespace, alias, error);
  }

  lemma RecordsAreMade(g: Graph, n: Node, x: Record)
    ensures x in Expand(g, n).records <==> Makes(g, n, x)
  {
    if n.At? {
      ItemRecords(g, n, x);
    }
  }

  ghost predicate IsFaultFree(g: Graph, root: Node) {
    forall n, error :: IsPublic(g, root, n) ==> !Faults(g, n, error)
  }

  ghost predicate IsFaulty(g: Graph, root: Node, error: InventoryError) {
    exists n :: IsPublic(g, root, n) && Faults(g, n, error)
  }

  ghost predicate IsMade(g: Graph, root: Node, x: Record) {
    exists n :: IsPublic(g, root, n) && Makes(g, n, x)
  }

  lemma RaisedIsFaulty(g: Graph, root: Node, error: InventoryError)
    ensures Raises(g, root, error) <==> IsFaulty(g, root, error)
  {
    forall n
      ensures IsPublic(g, root, n) <==> Public(g, root, n)
      ensures Faults(g, n, error) <==> Expand(g, n).fault == Some(error)
    {
      PublicByRules(g, root, n);
      ErrorsAreFaults(g, n, error);
    }
  }

  lemma RecordedIsMade(g: Graph, root: Node, x: Record)
    ensures IsRecorded(g, root, x) <==> IsMade(g, root, x)
  {
    forall n
      ensures IsPublic(g, root, n) <==> Public(g, root, n)
      ensures Makes(g, n, x) <==> x in Expand(g, n).records
    {
      PublicByRules(g, root, n);
      RecordsAreMade(g, n, x);
    }
  }

  lemma FaultFreeRaisesNone(g: Graph, root: Node)
    ensures IsFaultFree(g, root) <==> forall n :: Public(g, root, n) ==> Expand(g, n).fault.None?
  {
    forall n, error
      ensures IsPublic(g, root, n) <==> Public(g, root, n)
      ensures Faults(g, n, error) <==> Expand(g, n).fault == Some(error)
    {
      PublicByRules(g, root, n);
      ErrorsAreFaults(g, n, error);
    }
    forall n | Public(g, root, n) && Expand(g, n).fault.Some?
      ensures IsPublic(g, root, n) && Faults(g, n, Expand(g, n).fault.value)
    {
      PublicByRules(g, root, n);
      ErrorsAreFaults(g, n, Expand(g, n).fault.value);
    }
  }

  /** `extract_public_items_with_dependencies`, from the root module, on every input on which the walk
      ends (`InventoryWalkEnds.WalkEndsExactly` says on which): it succeeds exactly when no public node
      is faulty, and then yields exactly the records that public nodes make, although the walk returns
      early at modules whose children are still being walked. */
  method ExtractPublicItems(g: Graph, k: Key, namespace: string) returns (r: Result<set<Record>, InventoryError>)
    requires Ends(g, k, namespace)
    ensures r.Ok? <==> IsFaultFree(g, Visit(k, namespace))
    ensures r.Ok? ==> forall x :: x in r.value <==> IsMade(g, Visit(k, namespace), x)
    ensures r.Err? ==> IsFaulty(g, Visit(k, namespace), r.error)
  {
    ghost var root, fuel :| root == Visit(k, namespace) && !Walk(g, START, root, fuel).Unfinished?;
    EndedIsExact(g, root, fuel);
    FaultFreeRaisesNone(g, root);
    var state := new WalkState();
    var walked := state.WalkModule(g, k, namespace, fuel);
    if walked.Err? {
      RaisedIsFaulty(g, root, walked.error);
      return Err(walked.error);
    }
    forall x
      ensures IsRecorded(g, root, x) <==> IsMade(g, root, x)
    {
      RecordedIsMade(g, root, x);
    }
    return Ok(state.items);
  }
}
