/**
 The public-API walk over rustdoc documents (echo-sdk-protocol/src/inventory.rs): modules nest
 public children, `use` items re-export one item under a name or splice a whole module into the
 current namespace, and a visited set cuts the walk at modules already entered in a namespace,
 including modules whose children are still being walked.
 */
module InventoryWalk {
  import opened Prelude
  import opened Reachability

  type Id = string

  datatype ItemKind =
    | Module | Function | Method | Struct | StructField | Enum | Variant | Union | Trait | TraitImpl
    | TraitAlias | TypeAlias | Macro | ProcMacro | Constant | Static | ExternType | Primitive

  datatype InventoryError =
    | MissingItem(document: string, id: Id)
    | UnresolvedGlob(source: string)
    | UnsupportedItemKind(kind: string)

  /** A rendered API shape: an item's own, or the reference to an item of an unknown document. */
  datatype Shape = Rustdoc(json: string) | External(source: string)

  datatype Record = Record(path: string, shape: Shape)

  datatype Import = Import(source: string, isGlob: bool, name: Option<string>, target: Option<Id>)

  /** The one-key `inner` object. `members` stands for the records of the item's fields, variants
      and impls below the item's own path, or the error their expansion raises. */
  datatype Inner =
    | NoInner
    | Use(use: Import)
    | Skipped(key: string)
    | Unknown(key: string)
    | Known(kind: ItemKind, members: Result<seq<Record>, InventoryError>)

  datatype Item = Item(name: Option<string>, public: bool, hidden: bool, children: seq<Id>, shape: Shape, inner: Inner)

  datatype Summary = Summary(path: seq<string>, kind: string)

  datatype Document = Document(index: map<Id, Item>, paths: map<Id, Summary>)

  datatype Graph = Graph(documents: map<string, Document>, idsByPath: map<string, map<seq<string>, Id>>)

  /** An item of one document. */
  datatype Key = Key(document: string, id: Id)

  // ----- The document graph -----

  predicate HasItem(g: Graph, k: Key) {
    k.document in g.documents && k.id in g.documents[k.document].index
  }

  function ItemAt(g: Graph, k: Key): Item
    requires HasItem(g, k)
  {
    g.documents[k.document].index[k.id]
  }

  function SummaryAt(g: Graph, k: Key): Option<Summary> {
    if k.document in g.documents && k.id in g.documents[k.document].paths
    then Some(g.documents[k.document].paths[k.id]) else None
  }

  function ResolveTarget(g: Graph, document: string, id: Id): (target: Option<Key>)
    ensures target.Some? ==> HasItem(g, target.value)
  {
    if HasItem(g, Key(document, id)) then Some(Key(document, id))
    else
      match SummaryAt(g, Key(document, id))
      case None => None
      case Some(summary) =>
        if summary.path == [] || summary.path[0] !in g.idsByPath || summary.path !in g.idsByPath[summary.path[0]]
        then None
        else
          var target := Key(summary.path[0], g.idsByPath[summary.path[0]][summary.path]);
          if HasItem(g, target) then Some(target) else None
  }

  /** `kind_from_summary`, as a check: the walk records no kind. */
  predicate IsSummaryKind(kind: string) {
    kind in {"module", "function", "struct", "enum", "union", "trait", "trait_alias", "type_alias", "macro",
             "proc_macro", "proc_attribute", "proc_derive", "constant", "static", "extern_type", "primitive"}
  }

  function NamespacePath(namespace: string, name: string): string {
    if namespace == "" then name else namespace + "::" + name
  }

  function JoinPath(segments: seq<string>): string {
    if segments == [] then ""
    else if |segments| == 1 then segments[0]
    else segments[0] + "::" + JoinPath(segments[1..])
  }

  /** `source.rsplit("::").next()`: what follows the last separator. */
  function LastSegment(source: string): string {
    LastSegmentFrom(source, |source|)
  }

  function LastSegmentFrom(source: string, end: nat): string
    requires end <= |source|
  {
    if end < 2 then source
    else if source[end - 2..end] == "::" then source[end..]
    else LastSegmentFrom(source, end - 1)
  }

  // ----- The rules of the walk, one node at a time -----

  /** Where the walk can stand: entering a module in a namespace, or looking at an item there. */
  datatype Node =
    | Visit(key: Key, namespace: string)
    | At(key: Key, namespace: string, alias: Option<string>)

  /** Records made at a node, nodes walked from it, and the error raised at it. */
  datatype Expansion = Expansion(records: seq<Record>, next: seq<Node>, fault: Option<InventoryError>)

  function Fails(error: InventoryError): Expansion {
    Expansion([], [], Some(error))
  }

  predicate IsPublicChild(g: Graph, document: string, id: Id) {
    HasItem(g, Key(document, id))
    && ItemAt(g, Key(document, id)).public && !ItemAt(g, Key(document, id)).hidden
  }

  /** The children that `walk_module` walks, up to the first that is missing. */
  function WalkedChildren(g: Graph, document: string, children: seq<Id>, namespace: string): (next: seq<Node>)
    ensures forall n :: n in next ==>
              n.At? && n.key.document == document && n.namespace == namespace && n.alias.None?
              && n.key.id in children && IsPublicChild(g, document, n.key.id)
  {
    if children == [] || !HasItem(g, Key(document, children[0])) then []
    else if IsPublicChild(g, document, children[0])
    then [At(Key(document, children[0]), namespace, None)] + WalkedChildren(g, document, children[1..], namespace)
    else WalkedChildren(g, document, children[1..], namespace)
  }

  function FirstMissing(g: Graph, document: string, children: seq<Id>): Option<InventoryError> {
    if children == [] then None
    else if !HasItem(g, Key(document, children[0])) then Some(MissingItem(document, children[0]))
    else FirstMissing(g, document, children[1..])
  }

  function ExpandVisit(g: Graph, k: Key, namespace: string): Expansion {
    if !HasItem(g, k) then Fails(MissingItem(k.document, k.id))
    else
      Expansion([], WalkedChildren(g, k.document, ItemAt(g, k).children, namespace),
                FirstMissing(g, k.document, ItemAt(g, k).children))
  }

  function ItemName(item: Item, alias: Option<string>): Option<string> {
    var name := if alias.Some? then alias else item.name;
    if name == Some("") then None else name
  }

  /** The members of an item, below the item's own path. */
  function Below(path: string, members: seq<Record>): (below: seq<Record>)
    ensures |below| == |members|
    ensures forall i :: 0 <= i < |members| ==>
              below[i] == Record(NamespacePath(path, members[i].path), members[i].shape)
  {
    seq(|members|, i requires 0 <= i < |members| => Record(NamespacePath(path, members[i].path), members[i].shape))
  }

  function ExpandKnown(g: Graph, k: Key, namespace: string, alias: Option<string>): Expansion
    requires HasItem(g, k) && ItemAt(g, k).inner.Known?
  {
    var item := ItemAt(g, k);
    match ItemName(item, alias)
    case None => Fails(UnsupportedItemKind("unnamed"))
    case Some(name) =>
      var path := NamespacePath(namespace, name);
      if item.inner.kind.Module? then Expansion([Record(path, item.shape)], [Visit(k, path)], None)
      else match item.inner.members
        case Err(error) => Fails(error)
        case Ok(members) => Expansion([Record(path, item.shape)] + Below(path, members), [], None)
  }

  /** A glob re-export of a resolved item, which must be a module. */
  function ExpandGlob(g: Graph, source: string, target: Key, namespace: string): Expansion
    requires HasItem(g, target)
  {
    match ItemAt(g, target).inner
    case NoInner => Fails(UnresolvedGlob(source))
    case Use(_) => Fails(UnsupportedItemKind("use"))
    case Skipped(key) => Fails(UnsupportedItemKind(key))
    case Unknown(key) => Fails(UnsupportedItemKind(key))
    case Known(kind, _) =>
      if kind.Module? then Expansion([], [Visit(target, namespace)], None) else Fails(UnresolvedGlob(source))
  }

  function ExpandImport(g: Graph, document: string, use: Import, namespace: string): Expansion {
    match use.target
    case None =>
      if use.isGlob then Fails(UnresolvedGlob(use.source))
      else Expansion([Record(NamespacePath(namespace, if use.name.Some? then use.name.value else use.source),
                             External(use.source))], [], None)
    case Some(id) =>
      match ResolveTarget(g, document, id)
      case Some(target) =>
        if use.isGlob then ExpandGlob(g, use.source, target, namespace)
        else
          var name := if use.name.Some? then use.name.value else LastSegment(use.source);
          Expansion([], [At(target, namespace, Some(name))], None)
      case None =>
        match SummaryAt(g, Key(document, id))
        case None => Fails(MissingItem(document, id))
        case Some(summary) =>
          if use.isGlob then Fails(UnresolvedGlob(use.source))
          else if !IsSummaryKind(summary.kind) then Fails(UnsupportedItemKind(summary.kind))
          else
            var alias := if use.name.Some? then use.name.value
                         else if summary.path != [] then summary.path[|summary.path| - 1] else use.source;
            Expansion([Record(NamespacePath(namespace, alias), External(JoinPath(summary.path)))], [], None)
  }

  /** An item leads to at most one further node, and to none when it raises an error. */
  function ExpandAt(g: Graph, k: Key, namespace: string, alias: Option<string>): (e: Expansion)
    ensures |e.next| <= 1
  {
    if !HasItem(g, k) then Fails(MissingItem(k.document, k.id))
    else match ItemAt(g, k).inner
      case NoInner => Fails(UnsupportedItemKind("<missing inner>"))
      case Use(use) => ExpandImport(g, k.document, use, namespace)
      case Skipped(_) => Expansion([], [], None)
      case Unknown(key) => Fails(UnsupportedItemKind(key))
      case Known(_, _) => ExpandKnown(g, k, namespace, alias)
  }

  function Expand(g: Graph, n: Node): Expansion {
    match n
    case Visit(k, namespace) => ExpandVisit(g, k, namespace)
    case At(k, namespace, alias) => ExpandAt(g, k, namespace, alias)
  }

  /** One public nesting or re-export step. */
  function Leads(g: Graph): (Node, Node) -> bool {
    (a: Node, b: Node) => b in Expand(g, a).next
  }

  /** The node belongs to the least set holding `root` and closed under nesting and re-exports. */
  ghost predicate Public(g: Graph, root: Node, n: Node) {
    Reaches(Leads(g), root, n)
  }

  // ----- The walk, as far as `fuel` nested calls go -----

  /** What the walk has gathered: records, visited modules, and every node it has stood at. */
  datatype Progress = Progress(items: set<Record>, visited: set<(Key, string)>, seen: set<Node>)

  const START := Progress({}, {}, {})

  datatype Outcome = Ended(at: Progress) | Failed(error: InventoryError) | Unfinished

  /** `walk_module` at a `Visit`, `walk_item` and `walk_import` at an `At`. */
  function Walk(g: Graph, p: Progress, n: Node, fuel: nat): Outcome
    decreases fuel, 0, 0
  {
    if fuel == 0 then Unfinished
    else match n
      case Visit(k, namespace) =>
        if (k, namespace) in p.visited then Ended(p)
        else if !HasItem(g, k) then Failed(MissingItem(k.document, k.id))
        else WalkAll(g, Entered(p, k, namespace), k.document, ItemAt(g, k).children, namespace, fuel - 1)
      case At(_, _, _) =>
        var e := Expand(g, n);
        if e.fault.Some? then Failed(e.fault.value)
        else if e.next == [] then Ended(Recorded(p, n, e.records))
        else Walk(g, Recorded(p, n, e.records), e.next[0], fuel - 1)
  }

  /** The loop over the children of a module. */
  function WalkAll(g: Graph, p: Progress, document: string, children: seq<Id>, namespace: string, fuel: nat): Outcome
    decreases fuel, 1, |children|
  {
    if children == [] then Ended(p)
    else if !HasItem(g, Key(document, children[0])) then Failed(MissingItem(document, children[0]))
    else if !IsPublicChild(g, document, children[0]) then WalkAll(g, p, document, children[1..], namespace, fuel)
    else
      var child := Walk(g, p, At(Key(document, children[0]), namespace, None), fuel);
      if child.Ended? then WalkAll(g, child.at, document, children[1..], namespace, fuel) else child
  }

  function Entered(p: Progress, k: Key, namespace: string): Progress {
    p.(visited := p.visited + {(k, namespace)}, seen := p.seen + {Visit(k, namespace)})
  }

  function Recorded(p: Progress, n: Node, records: seq<Record>): Progress {
    p.(items := p.items + (set x | x in records), seen := p.seen + {n})
  }

  /** More nested calls change nothing once the walk is through. */
  lemma {:induction false} MoreFuel(g: Graph, p: Progress, n: Node, fuel: nat, more: nat)
    requires fuel <= more && !Walk(g, p, n, fuel).Unfinished?
    ensures Walk(g, p, n, more) == Walk(g, p, n, fuel)
    decreases fuel, 0, 0
  {
    match n
    case Visit(k, namespace) =>
      if (k, namespace) !in p.visited && HasItem(g, k) {
        MoreFuelForAll(g, Entered(p, k, namespace), k.document, ItemAt(g, k).children, namespace, fuel - 1, more - 1);
      }
    case At(_, _, _) =>
      var e := Expand(g, n);
      if e.fault.None? && e.next != [] {
        MoreFuel(g, Recorded(p, n, e.records), e.next[0], fuel - 1, more - 1);
      }
  }

  lemma {:induction false} MoreFuelForAll(g: Graph, p: Progress, document: string, children: seq<Id>, namespace: string,
                                          fuel: nat, more: nat)
    requires fuel <= more && !WalkAll(g, p, document, children, namespace, fuel).Unfinished?
    ensures WalkAll(g, p, document, children, namespace, more) == WalkAll(g, p, document, children, namespace, fuel)
    decreases fuel, 1, |children|
  {
    if children != [] && HasItem(g, Key(document, children[0])) {
      if !IsPublicChild(g, document, children[0]) {
        MoreFuelForAll(g, p, document, children[1..], namespace, fuel, more);
      } else {
        var next := At(Key(document, children[0]), namespace, None);
        MoreFuel(g, p, next, fuel, more);
        if Walk(g, p, next, fuel).Ended? {
          MoreFuelForAll(g, Walk(g, p, next, fuel).at, document, children[1..], namespace, fuel, more);
        }
      }
    }
  }

  /** The walk from a module comes to an end, with a result or with an error. */
  ghost predicate Ends(g: Graph, k: Key, namespace: string) {
    exists fuel :: !Walk(g, START, Visit(k, namespace), fuel).Unfinished?
  }

  // ----- What it means that the walk is through -----

  /** `n` has been walked to the end: no error, everything recorded, everything behind it seen. */
  predicate Done(g: Graph, n: Node, seen: set<Node>, items: set<Record>) {
    && Expand(g, n).fault.None?
    && (forall m :: m in Expand(g, n).next ==> m in seen)
    && (forall x :: x in Expand(g, n).records ==> x in items)
  }

  /** Some public node raises `error`. */
  ghost predicate Raises(g: Graph, root: Node, error: InventoryError) {
    exists n :: Public(g, root, n) && Expand(g, n).fault == Some(error)
  }

  /** The least set of records: those made at public nodes. */
  ghost predicate IsRecorded(g: Graph, root: Node, x: Record) {
    exists n :: Public(g, root, n) && x in Expand(g, n).records
  }

  /** Only public nodes have been seen and only public records are kept. */
  ghost predicate Sound(g: Graph, root: Node, seen: set<Node>, items: set<Record>, visited: set<(Key, string)>) {
    && (forall n :: n in seen ==> Public(g, root, n))
    && (forall x :: x in items ==> IsRecorded(g, root, x))
    && (forall k, namespace :: (k, namespace) in visited <==> Visit(k, namespace) in seen)
  }

  /** Everything first seen since `before` has been walked to the end, but for the nodes in `open`. */
  ghost predicate DoneSince(g: Graph, before: set<Node>, open: set<Node>, seen: set<Node>, items: set<Record>) {
    forall n :: n in seen && n !in before && n !in open ==> Done(g, n, seen, items)
  }

  /** Completing one more node, or one more subtree, keeps what was complete complete. */
  lemma DoneGrows(g: Graph, before: set<Node>, open: set<Node>, seen: set<Node>, items: set<Record>,
                  seen': set<Node>, items': set<Record>)
    requires DoneSince(g, before, open, seen, items)
    requires seen <= seen' && items <= items' && DoneSince(g, seen, {}, seen', items')
    ensures DoneSince(g, before, open, seen', items')
  {
    forall n | n in seen' && n !in before && n !in open
      ensures Done(g, n, seen', items')
    {
      if n in seen {
        assert Done(g, n, seen, items);
      }
    }
  }

  lemma OneNodeDone(g: Graph, before: set<Node>, node: Node, seen: set<Node>, items: set<Record>)
    requires DoneSince(g, before, {node}, seen, items) && Done(g, node, seen, items)
    ensures DoneSince(g, before, {}, seen, items)
  {
    forall n | n in seen && n !in before
      ensures Done(g, n, seen, items)
    {
      assert n == node || n !in {node};
    }
  }

  lemma ItemDone(g: Graph, before: set<Node>, node: Node, seen: set<Node>, items: set<Record>,
                 seen': set<Node>, items': set<Record>)
    requires node.At? && Expand(g, node).fault.None?
    requires seen == before + {node} && forall x :: x in Expand(g, node).records ==> x in items
    requires seen <= seen' && items <= items' && DoneSince(g, seen, {}, seen', items')
    requires Expand(g, node).next != [] ==> Expand(g, node).next[0] in seen'
    ensures DoneSince(g, before, {}, seen', items')
  {
    DoneGrows(g, before, {node}, seen, items, seen', items');
    OneNodeDone(g, before, node, seen', items');
  }

  // ----- The walk is complete and sound -----

  /** What the walk from `n` leaves behind: only public nodes and records, and everything that it
      has newly seen walked to the end. Modules still being walked are `p.seen` and not its concern. */
  ghost predicate Completes(g: Graph, root: Node, p: Progress, q: Progress) {
    && p.seen <= q.seen && p.items <= q.items && p.visited <= q.visited
    && Sound(g, root, q.seen, q.items, q.visited)
    && DoneSince(g, p.seen, {}, q.seen, q.items)
  }

  lemma CompletesTwice(g: Graph, root: Node, p: Progress, q: Progress, r: Progress)
    requires Completes(g, root, p, q) && Completes(g, root, q, r)
    ensures Completes(g, root, p, r)
  {
    DoneGrows(g, p.seen, {}, q.seen, q.items, r.seen, r.items);
  }

  /** However far the walk goes, an error is one that a public node raises, and an end is complete. */
  lemma {:induction false} WalkIsSound(g: Graph, root: Node, p: Progress, n: Node, fuel: nat)
    requires Sound(g, root, p.seen, p.items, p.visited) && Public(g, root, n)
    ensures var outcome := Walk(g, p, n, fuel);
            && (outcome.Failed? ==> Raises(g, root, outcome.error))
            && (outcome.Ended? ==> n in outcome.at.seen && Completes(g, root, p, outcome.at))
    decreases fuel, 0, 0
  {
    if fuel > 0 {
      match n
      case Visit(k, namespace) =>
        if (k, namespace) !in p.visited && HasItem(g, k) {
          var q, children := Entered(p, k, namespace), ItemAt(g, k).children;
          WalkAllIsSound(g, root, q, n, children, fuel - 1);
          var outcome := WalkAll(g, q, k.document, children, namespace, fuel - 1);
          if outcome.Ended? {
            DoneGrows(g, p.seen, {n}, q.seen, q.items, outcome.at.seen, outcome.at.items);
            OneNodeDone(g, p.seen, n, outcome.at.seen, outcome.at.items);
          }
        }
      case At(_, _, _) => ItemIsSound(g, root, p, n, fuel);
    }
  }

  lemma {:induction false} ItemIsSound(g: Graph, root: Node, p: Progress, n: Node, fuel: nat)
    requires Sound(g, root, p.seen, p.items, p.visited) && Public(g, root, n) && n.At? && fuel > 0
    ensures var outcome := Walk(g, p, n, fuel);
            && (outcome.Failed? ==> Raises(g, root, outcome.error))
            && (outcome.Ended? ==> n in outcome.at.seen && Completes(g, root, p, outcome.at))
    decreases fuel - 1, 2, 0
  {
    var e := Expand(g, n);
    if e.fault.None? {
      var q := Recorded(p, n, e.records);
      var r := q;
      if e.next != [] {
        assert Leads(g)(n, e.next[0]);
        ReachesAfter(Leads(g), root, n, e.next[0]);
        WalkIsSound(g, root, q, e.next[0], fuel - 1);
        if Walk(g, q, e.next[0], fuel - 1).Ended? {
          r := Walk(g, q, e.next[0], fuel - 1).at;
          ItemDone(g, p.seen, n, q.seen, q.items, r.seen, r.items);
        }
      } else {
        ItemDone(g, p.seen, n, q.seen, q.items, q.seen, q.items);
      }
    }
  }

  /** The loop over children of the module at `n`; those before were walked without an error. */
  lemma {:induction false} WalkAllIsSound(g: Graph, root: Node, p: Progress, n: Node, children: seq<Id>, fuel: nat)
    requires n.Visit? && Sound(g, root, p.seen, p.items, p.visited) && Public(g, root, n)
    requires FirstMissing(g, n.key.document, children) == Expand(g, n).fault
    requires forall m :: m in WalkedChildren(g, n.key.document, children, n.namespace) ==> m in Expand(g, n).next
    ensures var outcome := WalkAll(g, p, n.key.document, children, n.namespace, fuel);
            && (outcome.Failed? ==> Raises(g, root, outcome.error))
            && (outcome.Ended? ==>
                  && Completes(g, root, p, outcome.at) && Expand(g, n).fault.None?
                  && forall m :: m in WalkedChildren(g, n.key.document, children, n.namespace) ==> m in outcome.at.seen)
    decreases fuel, 1, |children|
  {
    var document := n.key.document;
    if children != [] && HasItem(g, Key(document, children[0])) {
      if !IsPublicChild(g, document, children[0]) {
        WalkAllIsSound(g, root, p, n, children[1..], fuel);
      } else {
        var child := At(Key(document, children[0]), n.namespace, None);
        assert child in WalkedChildren(g, document, children, n.namespace);
        assert Leads(g)(n, child);
        ReachesAfter(Leads(g), root, n, child);
        WalkIsSound(g, root, p, child, fuel);
        if Walk(g, p, child, fuel).Ended? {
          var q := Walk(g, p, child, fuel).at;
          WalkAllIsSound(g, root, q, n, children[1..], fuel);
          var outcome := WalkAll(g, q, document, children[1..], n.namespace, fuel);
          if outcome.Ended? {
            CompletesTwice(g, root, p, q, outcome.at);
          }
        }
      }
    }
  }

  /** A set closed under the walk's rules that holds the root holds every public node. */
  lemma SeenIsPublic(g: Graph, root: Node, seen: set<Node>, items: set<Record>)
    requires root in seen && DoneSince(g, {}, {}, seen, items)
    ensures forall n :: Public(g, root, n) ==> n in seen && Expand(g, n).fault.None?
    ensures forall x :: IsRecorded(g, root, x) ==> x in items
  {
    forall n | Public(g, root, n)
      ensures n in seen && Done(g, n, seen, items)
    {
      var path :| Connects(Leads(g), path, root, n);
      var closed := iset m | m in seen;
      forall a, b | a in closed && Leads(g)(a, b)
        ensures b in closed
      {
        assert Done(g, a, seen, items);
      }
      ReachesIsLeast(Leads(g), path, root, n, closed);
    }
  }

  /** A walk from the start that ends with a result has recorded exactly what the public nodes record. */
  lemma EndedIsExact(g: Graph, root: Node, fuel: nat)
    requires !Walk(g, START, root, fuel).Unfinished?
    ensures var outcome := Walk(g, START, root, fuel);
            && (outcome.Failed? ==> Raises(g, root, outcome.error))
            && (outcome.Ended? <==> forall n :: Public(g, root, n) ==> Expand(g, n).fault.None?)
            && (outcome.Ended? ==> forall x :: x in outcome.at.items <==> IsRecorded(g, root, x))
  {
    ReachesSelf(Leads(g), root);
    WalkIsSound(g, root, START, root, fuel);
    var outcome := Walk(g, START, root, fuel);
    if outcome.Ended? {
      SeenIsPublic(g, root, outcome.at.seen, outcome.at.items);
    }
  }

  // ----- The walk as the source writes it -----

  class WalkState {
    var items: set<Record>
    var visited: set<(Key, string)>
    ghost var seen: set<Node>

    ghost function View(): Progress
      reads this
    {
      Progress(items, visited, seen)
    }

    constructor ()
      ensures View() == START
    {
      items, visited, seen := {}, {}, {};
    }

    method Push(ghost n: Node, records: seq<Record>)
      modifies this
      ensures View() == Recorded(old(View()), n, records)
    {
      items := items + set x | x in records;
      seen := seen + {n};
    }

    /** `fuel` is any depth of nested calls within which the walk ends. */
    method WalkModule(g: Graph, k: Key, namespace: string, ghost fuel: nat) returns (r: Result<(), InventoryError>)
      requires !Walk(g, View(), Visit(k, namespace), fuel).Unfinished?
      modifies this
      ensures var outcome := Walk(g, old(View()), Visit(k, namespace), fuel);
              if r.Ok? then outcome == Ended(View()) else outcome == Failed(r.error)
      decreases fuel, 0
    {
      if (k, namespace) in visited {
        return Ok(());
      }
      visited, seen := visited + {(k, namespace)}, seen + {Visit(k, namespace)};
      if !HasItem(g, k) {
        return Err(MissingItem(k.document, k.id));
      }
      assert View() == Entered(old(View()), k, namespace);
      ghost var entered := View();
      var children := ItemAt(g, k).children;
      var i := 0;
      while i < |children|
        invariant 0 <= i <= |children|
        invariant WalkAll(g, View(), k.document, children[i..], namespace, fuel - 1)
                  == WalkAll(g, entered, k.document, children, namespace, fuel - 1)
      {
        assert children[i..][0] == children[i] && children[i..][1..] == children[i + 1..];
        if !HasItem(g, Key(k.document, children[i])) {
          return Err(MissingItem(k.document, children[i]));
        }
        if IsPublicChild(g, k.document, children[i]) {
          r := WalkItem(g, Key(k.document, children[i]), namespace, None, fuel - 1);
          if r.Err? {
            return;
          }
        }
        i := i + 1;
      }
      return Ok(());
    }

    method WalkItem(g: Graph, k: Key, namespace: string, alias: Option<string>, ghost fuel: nat)
      returns (r: Result<(), InventoryError>)
      requires !Walk(g, View(), At(k, namespace, alias), fuel).Unfinished?
      modifies this
      ensures var outcome := Walk(g, old(View()), At(k, namespace, alias), fuel);
              if r.Ok? then outcome == Ended(View()) else outcome == Failed(r.error)
      decreases fuel, 1
    {
      var expansion := Expand(g, At(k, namespace, alias));
      if expansion.fault.Some? {
        return Err(expansion.fault.value);
      }
      Push(At(k, namespace, alias), expansion.records);
      if expansion.next == [] {
        return Ok(());
      }
      match expansion.next[0]
      case Visit(target, inside) => r := WalkModule(g, target, inside, fuel - 1);
      case At(target, inside, name) => r := WalkItem(g, target, inside, name, fuel - 1);
    }
  }
}
