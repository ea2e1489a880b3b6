/**
 Alias groups of the parity manifest (echo-sdk-protocol/src/inventory.rs, `manifest_entries`): the
 facade paths of one item, of which one is canonical and the others record it.
 */
module AliasGroups {
  import opened Prelude
  import opened Sorting
  import AcceptedScope
  import InventoryWalk

  type Scope = AcceptedScope.Scope

  /** A merged inventory entry. `sourcePaths` and `digests` are in the iteration order of the source's
      ordered collections; `route` stands for the outcome of the routing rules. */
  datatype MergedEntry = MergedEntry(
    path: string,
    kind: InventoryWalk.ItemKind,
    derived: bool,
    sourcePaths: seq<string>,
    digests: seq<string>,
    route: string)

  datatype ListedEntry = ListedEntry(merged: MergedEntry, canonical: bool, aliasOf: Option<string>, scope: Scope)

  datatype GroupKey = GroupKey(identity: string, digests: seq<string>)

  predicate IsReexportNamespace(path: string) {
    "echo_agent::prelude::" <= path || "echo_agent::advanced::" <= path
  }

  function KeyOf(m: MergedEntry): GroupKey {
    GroupKey(AcceptedScope.SourceIdentity(m.path, m.sourcePaths), m.digests)
  }

  function OwnScope(m: MergedEntry): Scope {
    AcceptedScope.ScopeFor(m.sourcePaths, m.route, false)
  }

  /** A trait implementation that the compiler derives is no entry of its own. */
  predicate IsKept(m: MergedEntry) {
    !(m.kind == InventoryWalk.TraitImpl && m.derived)
  }

  function Keep(merged: seq<MergedEntry>): (kept: seq<MergedEntry>)
    ensures forall m :: m in kept <==> m in merged && !(m.derived && m.kind == InventoryWalk.TraitImpl)
  {
    if merged == [] then []
    else (if IsKept(merged[0]) then [merged[0]] else []) + Keep(merged[1..])
  }

  /** The kept entries stand at `at`, in their old order, and no other entry is kept. */
  ghost predicate IsKeptAt(merged: seq<MergedEntry>, kept: seq<MergedEntry>, at: seq<nat>) {
    && |at| == |kept|
    && (forall i, j :: 0 <= i < j < |at| ==> at[i] < at[j])
    && (forall i :: 0 <= i < |at| ==> at[i] < |merged| && kept[i] == merged[at[i]])
    && forall k: nat :: k < |merged| ==> (k in at <==> IsKept(merged[k]))
  }

  lemma {:induction false} KeepAppend(merged: seq<MergedEntry>, m: MergedEntry)
    ensures Keep(merged + [m]) == Keep(merged) + (if IsKept(m) then [m] else [])
  {
    if merged == [] {
      assert merged + [m] == [m];
    } else {
      assert (merged + [m])[1..] == merged[1..] + [m];
      KeepAppend(merged[1..], m);
    }
  }

  lemma KeptGrows(merged: seq<MergedEntry>, m: MergedEntry, kept: seq<MergedEntry>, at: seq<nat>)
    requires IsKeptAt(merged, kept, at)
    ensures if IsKept(m) then IsKeptAt(merged + [m], kept + [m], at + [|merged|]) else IsKeptAt(merged + [m], kept, at)
  {
    var all := merged + [m];
    forall k: nat | k < |all|
      ensures k in at + [|merged|] <==> k == |merged| || IsKept(all[k])
      ensures k in at <==> k < |merged| && IsKept(all[k])
    {
      assert k < |merged| ==> all[k] == merged[k];
    }
  }

  /** Keeping drops the derived trait implementations and moves nothing. */
  lemma {:induction false} KeptInOrder(merged: seq<MergedEntry>) returns (at: seq<nat>)
    ensures IsKeptAt(merged, Keep(merged), at)
  {
    at := [];
    if merged != [] {
      var init, last := merged[..|merged| - 1], merged[|merged| - 1];
      assert merged == init + [last];
      at := KeptInOrder(init);
      KeepAppend(init, last);
      KeptGrows(init, last, Keep(init), at);
      at := if IsKept(last) then at + [|init|] else at;
    }
  }

  /** Merging keeps one entry per path (`ProfileMerge.MergeProfiles`). */
  ghost predicate OnePerPath(merged: seq<MergedEntry>) {
    DistinctBy(merged, (m: MergedEntry) => m.path)
  }

  // ----- What the groups mean -----

  function Members(kept: seq<MergedEntry>, key: GroupKey): set<string> {
    set m | m in kept && KeyOf(m) == key :: m.path
  }

  /** Least among the members outside the re-export namespaces if there are any, else least of all. */
  ghost predicate IsCanonicalIn(members: set<string>, c: string) {
    && c in members
    && (IsReexportNamespace(c) ==> forall p :: p in members ==> IsReexportNamespace(p))
    && forall p :: p in members && (IsReexportNamespace(p) ==> IsReexportNamespace(c)) ==> StringLe(c, p)
  }

  /** What a member records: nothing if it is the canonical one, else the canonical one. */
  ghost predicate Records(members: set<string>, path: string, aliasOf: Option<string>) {
    IsCanonicalIn(members, if aliasOf.Some? then aliasOf.value else path) && aliasOf != Some(path)
  }

  ghost predicate EntryRecorded(kept: seq<MergedEntry>, listed: seq<ListedEntry>, i: nat)
    requires i < |kept| == |listed|
  {
    && listed[i].merged == kept[i]
    && listed[i].canonical == listed[i].aliasOf.None?
    && Records(Members(kept, KeyOf(kept[i])), kept[i].path, listed[i].aliasOf)
  }

  /** The kept entries are listed in order, each with its alias. */
  ghost predicate AliasesRecorded(kept: seq<MergedEntry>, listed: seq<ListedEntry>) {
    |listed| == |kept| && forall i :: 0 <= i < |kept| ==> EntryRecorded(kept, listed, i)
  }

  /** The path whose own scope an entry has. */
  function ScopeSource(e: ListedEntry): string {
    if e.aliasOf.Some? then e.aliasOf.value else e.merged.path
  }

  ghost predicate ScopesCopied(listed: seq<ListedEntry>) {
    forall i, j :: 0 <= i < |listed| && 0 <= j < |listed| && listed[j].merged.path == ScopeSource(listed[i]) ==>
      listed[i].scope == OwnScope(listed[j].merged)
  }

  // ----- Choosing the canonical member -----

  function Elements(paths: seq<string>): set<string> {
    set p | p in paths
  }

  function FirstOutside(sorted: seq<string>): Option<string> {
    if sorted == [] then None
    else if !IsReexportNamespace(sorted[0]) then Some(sorted[0])
    else FirstOutside(sorted[1..])
  }

  lemma {:induction false} FirstOutsideIsLeast(sorted: seq<string>)
    requires Sorted(sorted, ByString())
    ensures FirstOutside(sorted).None? ==> forall p :: p in sorted ==> IsReexportNamespace(p)
    ensures FirstOutside(sorted).Some? ==>
              && FirstOutside(sorted).value in sorted
              && !IsReexportNamespace(FirstOutside(sorted).value)
              && forall p :: p in sorted && !IsReexportNamespace(p) ==> StringLe(FirstOutside(sorted).value, p)
  {
    if sorted != [] {
      StringsAreOrdered();
      var rest := sorted[1..];
      assert sorted == [sorted[0]] + rest;
      assert forall p :: p in rest ==> StringLe(sorted[0], p);
      StringLeIsTotal(sorted[0], sorted[0]);
      FirstOutsideIsLeast(rest);
    }
  }

  method ChooseCanonical(paths: seq<string>) returns (sorted: seq<string>, canonical: string)
    requires paths != []
    ensures forall p :: p in sorted <==> p in paths
    ensures IsCanonicalIn(Elements(paths), canonical)
  {
    sorted := Sort(paths, ByString());
    StringsAreOrdered();
    SortKeepsMembers(paths, ByString());
    SortSorts(paths, ByString());
    FirstOutsideIsLeast(sorted);
    StringLeIsTotal(sorted[0], sorted[0]);
    assert forall p :: p in sorted ==> StringLe(sorted[0], p);
    var outside := FirstOutside(sorted);
    canonical := if outside.Some? then outside.value else sorted[0];
  }

  // ----- The passes -----

  lemma OneMoreMember(kept: seq<MergedEntry>, m: MergedEntry, key: GroupKey)
    ensures Members(kept + [m], key) == Members(kept, key) + (if key == KeyOf(m) then {m.path} else {})
  {
  }

  ghost predicate Grouped(kept: seq<MergedEntry>, groups: map<GroupKey, seq<string>>, key: GroupKey) {
    if key in groups then groups[key] != [] && Elements(groups[key]) == Members(kept, key) else Members(kept, key) == {}
  }

  method GroupPaths(kept: seq<MergedEntry>) returns (groups: map<GroupKey, seq<string>>)
    ensures forall key :: Grouped(kept, groups, key)
  {
    groups := map[];
    var i := 0;
    while i < |kept|
      invariant 0 <= i <= |kept|
      invariant forall key :: Grouped(kept[..i], groups, key)
    {
      var m := kept[i];
      var soFar := if KeyOf(m) in groups then groups[KeyOf(m)] else [];
      var after := groups[KeyOf(m) := soFar + [m.path]];
      ghost var upTo := kept[..i + 1];
      assert upTo == kept[..i] + [m];
      forall key
        ensures Grouped(upTo, after, key)
      {
        assert Grouped(kept[..i], groups, key);
        OneMoreMember(kept[..i], m, key);
        assert Elements(soFar + [m.path]) == Elements(soFar) + {m.path};
      }
      groups := after;
      i := i + 1;
    }
    assert kept[..i] == kept;
  }

  /** Records, for the members of one group, which path is canonical. */
  method RecordGroup(memberOf: map<string, Option<string>>, sorted: seq<string>, canonical: string)
    returns (after: map<string, Option<string>>)
    ensures after.Keys == memberOf.Keys + Elements(sorted)
    ensures forall p :: p in after ==>
              after[p] == (if p !in sorted then memberOf[p] else if p == canonical then None else Some(canonical))
  {
    after := memberOf;
    var i := 0;
    while i < |sorted|
      invariant 0 <= i <= |sorted|
      invariant after.Keys == memberOf.Keys + Elements(sorted[..i])
      invariant forall p :: p in after ==>
                  after[p] == (if p !in sorted[..i] then memberOf[p]
                               else if p == canonical then None else Some(canonical))
    {
      assert sorted[..i + 1] == sorted[..i] + [sorted[i]];
      after := after[sorted[i] := if canonical == sorted[i] then None else Some(canonical)];
      i := i + 1;
    }
    assert sorted[..i] == sorted;
  }

  ghost predicate AliasKnown(kept: seq<MergedEntry>, memberOf: map<string, Option<string>>, i: nat)
    requires i < |kept|
  {
    kept[i].path in memberOf && Records(Members(kept, KeyOf(kept[i])), kept[i].path, memberOf[kept[i].path])
  }

  lemma MembersAreOwn(kept: seq<MergedEntry>, key: GroupKey, i: nat)
    requires OnePerPath(kept) && i < |kept|
    ensures kept[i].path in Members(kept, key) <==> KeyOf(kept[i]) == key
  {
    assert kept[i] in kept;
    if kept[i].path in Members(kept, key) {
      var m :| m in kept && KeyOf(m) == key && m.path == kept[i].path;
      var j :| 0 <= j < |kept| && kept[j] == m;
      assert i == j;
    }
  }

  /** The groups are disjoint, so the order in which they are visited does not matter. */
  method RecordAliases(kept: seq<MergedEntry>) returns (memberOf: map<string, Option<string>>)
    requires OnePerPath(kept)
    ensures forall i :: 0 <= i < |kept| ==> AliasKnown(kept, memberOf, i)
  {
    var groups := GroupPaths(kept);
    memberOf := map[];
    var remaining := groups.Keys;
    forall i | 0 <= i < |kept|
      ensures KeyOf(kept[i]) in groups
    {
      assert Grouped(kept, groups, KeyOf(kept[i]));
      MembersAreOwn(kept, KeyOf(kept[i]), i);
    }
    while remaining != {}
      invariant remaining <= groups.Keys
      invariant forall i :: 0 <= i < |kept| ==> KeyOf(kept[i]) in remaining || AliasKnown(kept, memberOf, i)
    {
      var key :| key in remaining;
      assert Grouped(kept, groups, key);
      var sorted, canonical := ChooseCanonical(groups[key]);
      var after := RecordGroup(memberOf, sorted, canonical);
      forall i | 0 <= i < |kept|
        ensures KeyOf(kept[i]) in remaining - {key} || AliasKnown(kept, after, i)
      {
        MembersAreOwn(kept, key, i);
        assert KeyOf(kept[i]) in remaining || AliasKnown(kept, memberOf, i);
        assert kept[i].path in sorted <==> kept[i].path in Elements(groups[key]);
      }
      memberOf := after;
      remaining := remaining - {key};
    }
  }

  ghost predicate PointsToCanonical(listed: seq<ListedEntry>, i: nat)
    requires i < |listed|
  {
    listed[i].aliasOf.Some? ==>
      exists j :: 0 <= j < |listed| && listed[j].canonical && listed[j].merged.path == listed[i].aliasOf.value
  }

  ghost predicate PathsDiffer(listed: seq<ListedEntry>) {
    DistinctBy(listed, (e: ListedEntry) => e.merged.path)
  }

  ghost predicate ScopesAreOwn(listed: seq<ListedEntry>) {
    forall i :: 0 <= i < |listed| ==> listed[i].scope == OwnScope(listed[i].merged)
  }

  method CanonicalScopes(listed: seq<ListedEntry>) returns (scopes: map<string, Scope>)
    requires PathsDiffer(listed) && ScopesAreOwn(listed)
    ensures forall i :: 0 <= i < |listed| && listed[i].canonical ==>
              listed[i].merged.path in scopes && scopes[listed[i].merged.path] == OwnScope(listed[i].merged)
  {
    scopes := map[];
    for n := 0 to |listed|
      invariant forall i :: 0 <= i < n && listed[i].canonical ==>
                  listed[i].merged.path in scopes && scopes[listed[i].merged.path] == OwnScope(listed[i].merged)
    {
      if listed[n].canonical {
        scopes := scopes[listed[n].merged.path := listed[n].scope];
      }
    }
  }

  /** The last loop: every alias takes the scope of the canonical entry it points to. */
  method CopyScopes(before: seq<ListedEntry>) returns (listed: seq<ListedEntry>)
    requires PathsDiffer(before) && ScopesAreOwn(before)
    requires forall i :: 0 <= i < |before| ==> PointsToCanonical(before, i)
    ensures |listed| == |before|
    ensures forall i :: 0 <= i < |before| ==> listed[i] == before[i].(scope := listed[i].scope)
    ensures ScopesCopied(listed)
  {
    var scopes := CanonicalScopes(before);
    listed := before;
    for n := 0 to |before|
      invariant |listed| == |before|
      invariant forall i :: n <= i < |before| ==> listed[i] == before[i]
      invariant forall i :: 0 <= i < n ==>
                  && (before[i].aliasOf.Some? ==> before[i].aliasOf.value in scopes)
                  && listed[i] == before[i].(scope := if before[i].aliasOf.Some? then scopes[before[i].aliasOf.value]
                                                      else before[i].scope)
    {
      assert PointsToCanonical(before, n);
      if listed[n].aliasOf.Some? && listed[n].aliasOf.value in scopes {
        listed := listed[n := listed[n].(scope := scopes[listed[n].aliasOf.value])];
      }
    }
    CopiedScopes(before, listed, scopes);
  }

  lemma CopiedScopes(before: seq<ListedEntry>, listed: seq<ListedEntry>, scopes: map<string, Scope>)
    requires PathsDiffer(before) && ScopesAreOwn(before) && |listed| == |before|
    requires forall i :: 0 <= i < |before| ==> PointsToCanonical(before, i)
    requires forall i :: 0 <= i < |before| && before[i].canonical ==>
               before[i].merged.path in scopes && scopes[before[i].merged.path] == OwnScope(before[i].merged)
    requires forall i :: 0 <= i < |before| ==>
               && (before[i].aliasOf.Some? ==> before[i].aliasOf.value in scopes)
               && listed[i] == before[i].(scope := if before[i].aliasOf.Some? then scopes[before[i].aliasOf.value]
                                                   else before[i].scope)
    ensures ScopesCopied(listed)
  {
    forall i, j | 0 <= i < |listed| && 0 <= j < |listed| && listed[j].merged.path == ScopeSource(listed[i])
      ensures listed[i].scope == OwnScope(listed[j].merged)
    {
      assert before[j].merged.path == ScopeSource(before[i]);
      if before[i].aliasOf.None? {
        assert i == j;
      } else {
        assert PointsToCanonical(before, i);
        var c :| 0 <= c < |before| && before[c].canonical && before[c].merged.path == before[i].aliasOf.value;
        assert c == j;
      }
    }
  }

  /** The entry that an entry's record names: canonical, and of the same group. */
  lemma CanonicalIndex(kept: seq<MergedEntry>, listed: seq<ListedEntry>, i: nat) returns (c: nat)
    requires OnePerPath(kept) && AliasesRecorded(kept, listed) && i < |kept|
    ensures c < |kept| && listed[c].canonical && listed[c].merged == kept[c]
    ensures kept[c].path == (if listed[i].aliasOf.Some? then listed[i].aliasOf.value else kept[i].path)
    ensures KeyOf(kept[c]) == KeyOf(kept[i]) && IsCanonicalIn(Members(kept, KeyOf(kept[i])), kept[c].path)
  {
    assert EntryRecorded(kept, listed, i);
    if listed[i].aliasOf.None? {
      c := i;
    } else {
      var m :| m in kept && KeyOf(m) == KeyOf(kept[i]) && m.path == listed[i].aliasOf.value;
      c :| 0 <= c < |kept| && kept[c] == m;
      assert EntryRecorded(kept, listed, c);
      CanonicalIsUnique(Members(kept, KeyOf(kept[i])), kept[c].path,
                        if listed[c].aliasOf.Some? then listed[c].aliasOf.value else kept[c].path);
    }
  }

  lemma CanonicalIsUnique(members: set<string>, c: string, d: string)
    requires IsCanonicalIn(members, c) && IsCanonicalIn(members, d)
    ensures c == d
  {
    StringLeIsTotal(c, d);
  }

  /** The alias part of `manifest_entries`. */
  method ListEntries(merged: seq<MergedEntry>) returns (listed: seq<ListedEntry>)
    requires OnePerPath(Keep(merged))
    ensures AliasesRecorded(Keep(merged), listed) && ScopesCopied(listed)
  {
    var kept := Keep(merged);
    var memberOf := RecordAliases(kept);
    listed := [];
    for i := 0 to |kept|
      invariant |listed| == i
      invariant forall k :: 0 <= k < i ==>
                  && kept[k].path in memberOf
                  && var aliasOf := memberOf[kept[k].path];
                     listed[k] == ListedEntry(kept[k], aliasOf.None?, aliasOf, OwnScope(kept[k]))
    {
      assert AliasKnown(kept, memberOf, i);
      var aliasOf := memberOf[kept[i].path];
      listed := listed + [ListedEntry(kept[i], aliasOf.None?, aliasOf, OwnScope(kept[i]))];
    }
    forall i | 0 <= i < |kept|
      ensures EntryRecorded(kept, listed, i)
    {
      assert AliasKnown(kept, memberOf, i);
    }
    forall i | 0 <= i < |listed|
      ensures PointsToCanonical(listed, i)
    {
      ghost var c := CanonicalIndex(kept, listed, i);
    }
    ghost var before := listed;
    listed := CopyScopes(listed);
    forall i | 0 <= i < |kept|
      ensures EntryRecorded(kept, listed, i)
    {
      assert EntryRecorded(kept, before, i);
    }
  }

  // ----- What it amounts to -----

  ghost function CanonicalsOf(listed: seq<ListedEntry>, key: GroupKey): set<int> {
    set i | 0 <= i < |listed| && listed[i].canonical && KeyOf(listed[i].merged) == key
  }

  /** Every group has exactly one canonical entry, and it lies outside the re-export namespaces
      unless the whole group lies inside. */
  lemma OneCanonicalPerGroup(kept: seq<MergedEntry>, listed: seq<ListedEntry>, key: GroupKey)
    requires OnePerPath(kept) && AliasesRecorded(kept, listed) && Members(kept, key) != {}
    ensures |CanonicalsOf(listed, key)| == 1
    ensures forall i, p :: i in CanonicalsOf(listed, key) && p in Members(kept, key) ==>
              var c := listed[i].merged.path;
              "echo_agent::prelude::" <= c || "echo_agent::advanced::" <= c ==>
                "echo_agent::prelude::" <= p || "echo_agent::advanced::" <= p
  {
    var p :| p in Members(kept, key);
    var m :| m in kept && KeyOf(m) == key && m.path == p;
    var i :| 0 <= i < |kept| && kept[i] == m;
    var c := CanonicalIndex(kept, listed, i);
    OnlyCanonical(kept, listed, key, c);
  }

  lemma OnlyCanonical(kept: seq<MergedEntry>, listed: seq<ListedEntry>, key: GroupKey, c: nat)
    requires OnePerPath(kept) && AliasesRecorded(kept, listed)
    requires c < |kept| && listed[c].canonical && KeyOf(kept[c]) == key
    ensures CanonicalsOf(listed, key) == {c as int}
    ensures listed[c].merged == kept[c] && IsCanonicalIn(Members(kept, key), kept[c].path)
  {
    assert EntryRecorded(kept, listed, c);
    forall d | d in CanonicalsOf(listed, key)
      ensures d == c
    {
      assert EntryRecorded(kept, listed, d);
      CanonicalIsUnique(Members(kept, key), kept[c].path, kept[d].path);
    }
  }

  /** Both are defined at one path: the least source path, or the facade path where there is no source. */
  predicate SameSource(a: MergedEntry, b: MergedEntry) {
    (if a.sourcePaths == [] then a.path else a.sourcePaths[0])
    == (if b.sourcePaths == [] then b.path else b.sourcePaths[0])
  }

  /** No two canonical entries have one source and the same digests. */
  lemma CanonicalsDiffer(kept: seq<MergedEntry>, listed: seq<ListedEntry>, i: nat, j: nat)
    requires OnePerPath(kept) && AliasesRecorded(kept, listed) && i < |listed| && j < |listed|
    requires listed[i].canonical && listed[j].canonical
    requires listed[i].merged.digests == listed[j].merged.digests && SameSource(listed[i].merged, listed[j].merged)
    ensures i == j
  {
    assert EntryRecorded(kept, listed, i) && EntryRecorded(kept, listed, j);
    OnlyCanonical(kept, listed, KeyOf(kept[i]), i);
    OnlyCanonical(kept, listed, KeyOf(kept[i]), j);
    assert i in {j as int};
  }

  /** Every alias reaches, in one step, the one canonical entry of its own group, and has its scope. */
  lemma AliasesReachCanonical(kept: seq<MergedEntry>, listed: seq<ListedEntry>, i: nat) returns (c: nat)
    requires OnePerPath(kept) && AliasesRecorded(kept, listed) && ScopesCopied(listed)
    requires i < |listed| && listed[i].aliasOf.Some?
    ensures c < |listed| && listed[c].merged.path == listed[i].aliasOf.value
    ensures CanonicalsOf(listed, KeyOf(listed[i].merged)) == {c as int}
    ensures listed[c].aliasOf.None? && listed[c].canonical && !listed[i].canonical
    ensures listed[i].merged.digests == listed[c].merged.digests
    ensures SameSource(listed[i].merged, listed[c].merged)
    ensures listed[i].scope == listed[c].scope
            == AcceptedScope.ScopeFor(listed[c].merged.sourcePaths, listed[c].merged.route, false)
  {
    c := CanonicalIndex(kept, listed, i);
    assert EntryRecorded(kept, listed, i) && EntryRecorded(kept, listed, c);
    OnlyCanonical(kept, listed, KeyOf(kept[i]), c);
  }
}
