/**
 The facade family table (echo-sdk-protocol/src/facade.rs) and the method catalog
 (echo-sdk-protocol/src/catalog.rs): routing by source prefix, and the two checkers.
 */
module FacadeRoutes {
  import opened Prelude

  /** A row of the family table, with the names that the source keeps as enumeration constants. */
  datatype Descriptor = Descriptor(
    family: string,
    sourceRouted: bool,
    methods: seq<string>,
    capability: string,
    requiredFeature: Option<string>,
    operations: seq<string>,
    sourcePrefixes: seq<string>,
    validation: seq<string>)

  /** A prefix that a row declares. */
  datatype Declaration = Declaration(family: string, prefix: string)

  function DeclarationsOf(family: string, prefixes: seq<string>): (declared: seq<Declaration>)
    ensures |declared| == |prefixes|
    ensures forall i :: 0 <= i < |prefixes| ==> declared[i] == Declaration(family, prefixes[i])
  {
    seq(|prefixes|, i requires 0 <= i < |prefixes| => Declaration(family, prefixes[i]))
  }

  function Declarations(families: seq<Descriptor>): seq<Declaration> {
    if families == [] then []
    else
      var last := families[|families| - 1];
      Declarations(families[..|families| - 1]) + DeclarationsOf(last.family, last.sourcePrefixes)
  }

  // ----- Routing by the longest segment-aligned prefix -----

  predicate Matches(source: string, prefix: string) {
    source == prefix || (prefix <= source && "::" <= source[|prefix|..])
  }

  /** A prefix matches its own name and everything below it, and nothing that only starts alike. */
  lemma MatchesBelow(source: string, prefix: string)
    ensures Matches(source, prefix) <==> source == prefix || exists rest :: source == prefix + "::" + rest
  {
    if prefix <= source && "::" <= source[|prefix|..] {
      var rest := source[|prefix| + 2..];
      assert source[|prefix|..] == "::" + rest;
      assert source == prefix + source[|prefix|..] == prefix + "::" + rest;
    }
    if rest :| source == prefix + "::" + rest {
      assert source[..|prefix|] == prefix && source[|prefix|..] == "::" + rest;
    }
  }

  /** The declaration that decides: it matches, no match is longer, and none as long comes earlier. */
  ghost predicate Decides(declared: seq<Declaration>, source: string, i: nat) {
    && i < |declared|
    && Matches(source, declared[i].prefix)
    && forall j :: 0 <= j < |declared| && Matches(source, declared[j].prefix) ==>
         |declared[j].prefix| < |declared[i].prefix| || (|declared[j].prefix| == |declared[i].prefix| && i <= j)
  }

  ghost predicate NoneMatches(declared: seq<Declaration>, source: string) {
    forall i :: 0 <= i < |declared| ==> !Matches(source, declared[i].prefix)
  }

  ghost predicate RoutesTo(declared: seq<Declaration>, source: string, family: string) {
    exists i: nat :: Decides(declared, source, i) && declared[i].family == family
  }

  ghost predicate Routes(declared: seq<Declaration>, source: string, r: Option<string>) {
    if r.None? then NoneMatches(declared, source) else RoutesTo(declared, source, r.value)
  }

  /** `family_for_source`. */
  method FamilyForSource(families: seq<Descriptor>, source: string) returns (r: Option<string>)
    ensures Routes(Declarations(families), source, r)
  {
    var best: Option<(nat, string)> := None;
    ghost var seen: seq<Declaration>, at: nat := [], 0;
    var i := 0;
    while i < |families|
      invariant 0 <= i <= |families|
      invariant seen == Declarations(families[..i])
      invariant if best.None? then NoneMatches(seen, source)
                else Decides(seen, source, at) && best == Some((|seen[at].prefix|, seen[at].family))
    {
      var descriptor := families[i];
      assert families[..i + 1][..i] == families[..i];
      ghost var before := seen;
      var j := 0;
      while j < |descriptor.sourcePrefixes|
        invariant 0 <= j <= |descriptor.sourcePrefixes|
        invariant seen == before + DeclarationsOf(descriptor.family, descriptor.sourcePrefixes[..j])
        invariant if best.None? then NoneMatches(seen, source)
                  else Decides(seen, source, at) && best == Some((|seen[at].prefix|, seen[at].family))
      {
        var prefix := descriptor.sourcePrefixes[j];
        ghost var next := seen + [Declaration(descriptor.family, prefix)];
        assert DeclarationsOf(descriptor.family, descriptor.sourcePrefixes[..j + 1])
            == DeclarationsOf(descriptor.family, descriptor.sourcePrefixes[..j])
               + [Declaration(descriptor.family, prefix)];
        if Matches(source, prefix) && (best.None? || |prefix| > best.value.0) {
          best, at := Some((|prefix|, descriptor.family)), |seen|;
        }
        seen := next;
        j := j + 1;
      }
      assert descriptor.sourcePrefixes[..j] == descriptor.sourcePrefixes;
      i := i + 1;
    }
    assert families[..i] == families;
    r := if best.Some? then Some(best.value.1) else None;
  }

  lemma EqualLengthPrefixesAgree(source: string, p: string, q: string)
    requires Matches(source, p) && Matches(source, q) && |p| == |q|
    ensures p == q
  {
    assert p <= source && q <= source;
    assert p == source[..|p|] && q == source[..|q|];
  }

  /** The deciding prefix is unique as a string, and every other match is a shorter one. */
  lemma LongestPrefixIsUnique(declared: seq<Declaration>, source: string, i: nat, j: nat)
    requires Decides(declared, source, i) && j < |declared| && Matches(source, declared[j].prefix)
    ensures declared[j].prefix == declared[i].prefix || |declared[j].prefix| < |declared[i].prefix|
  {
    if |declared[j].prefix| == |declared[i].prefix| {
      EqualLengthPrefixesAgree(source, declared[i].prefix, declared[j].prefix);
    }
  }

  /** No prefix belongs to two families. */
  ghost predicate Unambiguous(families: seq<Descriptor>) {
    forall d, e :: d in families && e in families && d.family != e.family ==>
      forall p :: p in d.sourcePrefixes ==> p !in e.sourcePrefixes
  }

  lemma {:induction false} DeclaredByARow(families: seq<Descriptor>, k: Declaration)
    ensures k in Declarations(families) <==>
            exists d :: d in families && d.family == k.family && k.prefix in d.sourcePrefixes
  {
    if families != [] {
      var init, last := families[..|families| - 1], families[|families| - 1];
      assert families == init + [last];
      DeclaredByARow(init, k);
      if last.family == k.family && k.prefix in last.sourcePrefixes {
        var i :| 0 <= i < |last.sourcePrefixes| && last.sourcePrefixes[i] == k.prefix;
        assert DeclarationsOf(last.family, last.sourcePrefixes)[i] == k;
      }
    }
  }

  /** The order of the table does not matter as long as no prefix belongs to two families. */
  lemma ReorderingIsHarmless(a: seq<Descriptor>, b: seq<Descriptor>, source: string,
                             r: Option<string>, s: Option<string>)
    requires multiset(a) == multiset(b) && Unambiguous(a)
    requires Routes(Declarations(a), source, r) && Routes(Declarations(b), source, s)
    ensures r == s
  {
    var da, db := Declarations(a), Declarations(b);
    forall k
      ensures k in da <==> k in db
    {
      DeclaredByARow(a, k);
      DeclaredByARow(b, k);
      assert forall d :: d in a <==> d in multiset(a);
      assert forall d :: d in b <==> d in multiset(b);
    }
    assert NoneMatches(da, source) <==> NoneMatches(db, source) by {
      NoneMatchesBySet(da, db, source);
    }
    if r.Some? {
      var i: nat :| Decides(da, source, i) && da[i].family == r.value;
      var j: nat :| Decides(db, source, j) && db[j].family == s.value;
      assert da[i] in db && db[j] in da;
      var x :| 0 <= x < |db| && db[x] == da[i];
      var y :| 0 <= y < |da| && da[y] == db[j];
      LongestPrefixIsUnique(da, source, i, y);
      LongestPrefixIsUnique(db, source, j, x);
      DeclaredByARow(a, da[i]);
      DeclaredByARow(a, da[y]);
    }
  }

  lemma NoneMatchesBySet(da: seq<Declaration>, db: seq<Declaration>, source: string)
    requires forall k :: k in da <==> k in db
    ensures NoneMatches(da, source) <==> NoneMatches(db, source)
  {
    assert NoneMatches(da, source) <==> forall k :: k in da ==> !Matches(source, k.prefix);
    assert NoneMatches(db, source) <==> forall k :: k in db ==> !Matches(source, k.prefix);
  }

  lemma {:induction false} FirstRowDeclaresFirst(families: seq<Descriptor>, n: nat)
    requires families != [] && n < |families[0].sourcePrefixes|
    ensures n < |Declarations(families)|
    ensures forall m :: 0 <= m <= n ==>
              Declarations(families)[m] == Declaration(families[0].family, families[0].sourcePrefixes[m])
  {
    if |families| > 1 {
      var init := families[..|families| - 1];
      assert init[0] == families[0];
      FirstRowDeclaresFirst(init, n);
    }
  }

  lemma {:induction false} FirstWithPrefix(declared: seq<Declaration>, p: string, n: nat) returns (m: nat)
    requires n < |declared| && declared[n].prefix == p
    ensures m <= n && declared[m].prefix == p && forall j :: 0 <= j < m ==> declared[j].prefix != p
  {
    m := 0;
    while declared[m].prefix != p
      invariant m <= n && forall j :: 0 <= j < m ==> declared[j].prefix != p
      decreases n - m
    {
      m := m + 1;
    }
  }

  /** The first declaration of a prefix decides for the source of that very name: no longer prefix
      matches it. */
  lemma FirstOfPrefixDecides(declared: seq<Declaration>, p: string, m: nat)
    requires m < |declared| && declared[m].prefix == p && forall j :: 0 <= j < m ==> declared[j].prefix != p
    ensures RoutesTo(declared, p, declared[m].family)
  {
    forall j | 0 <= j < |declared| && Matches(p, declared[j].prefix)
      ensures |declared[j].prefix| < |p| || (|declared[j].prefix| == |p| && m <= j)
    {
      if |declared[j].prefix| == |p| {
        EqualLengthPrefixesAgree(p, declared[j].prefix, p);
      }
    }
    assert Decides(declared, p, m);
  }

  lemma FirstRowIndex(families: seq<Descriptor>, p: string) returns (m: nat)
    requires families != [] && p in families[0].sourcePrefixes
    ensures m < |Declarations(families)| && Declarations(families)[m] == Declaration(families[0].family, p)
    ensures forall j :: 0 <= j < m ==> Declarations(families)[j].prefix != p
  {
    var n :| 0 <= n < |families[0].sourcePrefixes| && families[0].sourcePrefixes[n] == p;
    FirstRowDeclaresFirst(families, n);
    m := FirstWithPrefix(Declarations(families), p, n);
  }

  /** The family of the first row that declares a prefix gets the source of that very name. */
  lemma FirstDeclarationWins(families: seq<Descriptor>, p: string)
    requires families != [] && p in families[0].sourcePrefixes
    ensures RoutesTo(Declarations(families), p, families[0].family)
  {
    var m := FirstRowIndex(families, p);
    FirstOfPrefixDecides(Declarations(families), p, m);
  }

  function MovedFirst(families: seq<Descriptor>, i: nat): seq<Descriptor>
    requires i < |families|
  {
    [families[i]] + families[..i] + families[i + 1..]
  }

  lemma MovedFirstIsPermutation(families: seq<Descriptor>, i: nat)
    requires i < |families|
    ensures multiset(MovedFirst(families, i)) == multiset(families)
  {
    assert families == families[..i] + [families[i]] + families[i + 1..];
  }

  /** And a prefix that belongs to two families does make the order matter: the condition of
      `ReorderingIsHarmless` is exact. */
  lemma AmbiguityMakesOrderMatter(families: seq<Descriptor>, i: nat, j: nat, p: string)
    requires i < |families| && j < |families| && families[i].family != families[j].family
    requires p in families[i].sourcePrefixes && p in families[j].sourcePrefixes
    ensures multiset(MovedFirst(families, i)) == multiset(MovedFirst(families, j)) == multiset(families)
    ensures RoutesTo(Declarations(MovedFirst(families, i)), p, families[i].family)
    ensures RoutesTo(Declarations(MovedFirst(families, j)), p, families[j].family)
  {
    MovedFirstIsPermutation(families, i);
    MovedFirstIsPermutation(families, j);
    FirstDeclarationWins(MovedFirst(families, i), p);
    FirstDeclarationWins(MovedFirst(families, j), p);
  }
}
