/**
 The scanner-log parser and baseline comparison of scripts/check-cargo-deny-baseline.py.

 A log is a sequence of classified lines: the regular expressions decide the class of a line,
 tried in the order in which the constructors are listed.
 */
module DenyBaseline {
  import opened Prelude
  import opened Sorting

  datatype Line =
    | Header(count: nat, crate: string)
    | Entry(crate: string, version: string, source: string)
    | Closure
    | BrokenClosure
    | Blank
    | Context
    | Summary
    | Other

  datatype Identity = Identity(version: string, source: string)

  datatype Group = Group(name: string, identities: seq<Identity>)

  // ----- Orders -----

  predicate IdentityLe(a: Identity, b: Identity) {
    StringLe(a.version, b.version) && (a.version == b.version ==> StringLe(a.source, b.source))
  }

  function ByIdentity(): (Identity, Identity) -> bool {
    (a: Identity, b: Identity) => IdentityLe(a, b)
  }

  function ByName(): (Group, Group) -> bool {
    (a: Group, b: Group) => StringLe(a.name, b.name)
  }

  lemma IdentitiesAreOrdered()
    ensures TotalPreorder(ByIdentity())
    ensures forall s :: Separates(ByIdentity(), s)
  {
    StringsAreOrdered();
    forall a, b
      ensures IdentityLe(a, b) || IdentityLe(b, a)
      ensures IdentityLe(a, b) && IdentityLe(b, a) ==> a == b
    {
      StringLeIsTotal(a.version, b.version);
      StringLeIsTotal(a.source, b.source);
    }
    forall a, b, c | IdentityLe(a, b) && IdentityLe(b, c)
      ensures IdentityLe(a, c)
    {
      StringLeIsTransitive(a.version, b.version, c.version);
      if a.version == c.version {
        StringLeIsTotal(a.version, b.version);
        StringLeIsTransitive(a.source, b.source, c.source);
      }
    }
  }

  lemma NamesAreOrdered()
    ensures TotalPreorder(ByName())
  {
    forall a: Group, b: Group
      ensures StringLe(a.name, b.name) || StringLe(b.name, a.name)
    {
      StringLeIsTotal(a.name, b.name);
    }
    forall a: Group, b: Group, c: Group | StringLe(a.name, b.name) && StringLe(b.name, c.name)
      ensures StringLe(a.name, c.name)
    {
      StringLeIsTransitive(a.name, b.name, c.name);
    }
  }

  predicate NamesDistinct(groups: seq<Group>) {
    DistinctBy(groups, (g: Group) => g.name)
  }

  lemma DistinctNamesSeparate(groups: seq<Group>)
    requires NamesDistinct(groups)
    ensures Separates(ByName(), groups) && Distinct(groups)
  {
    forall a, b | a in groups && b in groups && StringLe(a.name, b.name) && StringLe(b.name, a.name)
      ensures a == b
    {
      StringLeIsTotal(a.name, b.name);
    }
  }

  // ----- The scanner: one line at a time -----

  /** The parser's variables: the open group if any, its identities so far, whether its entries are
      closed, and the finished groups. */
  datatype Scanner = Scanner(
    current: Option<(nat, string)>,
    identities: seq<Identity>,
    closed: bool,
    groups: seq<Group>)

  const START: Scanner := Scanner(None, [], false, [])

  /** `finish()`: close the open group, which must be complete. */
  function Finish(s: Scanner): Option<seq<Group>> {
    match s.current
    case None => Some(s.groups)
    case Some((count, name)) =>
      if s.closed && |s.identities| == count && Distinct(s.identities)
      then Some(s.groups + [Group(name, Sort(s.identities, ByIdentity()))])
      else None
  }

  function Next(s: Scanner, line: Line): Option<Scanner> {
    match line
    case Header(count, name) =>
      if Finish(s).None? || count < 2 then None
      else Some(Scanner(Some((count, name)), [], false, Finish(s).value))
    case Entry(name, version, source) =>
      if s.current.None? || s.closed || name != s.current.value.1 then None
      else Some(s.(identities := s.identities + [Identity(version, source)]))
    case Closure => if s.current.None? || s.closed then None else Some(s.(closed := true))
    case Blank => Some(s)
    case Context => if s.current.None? then None else Some(s)
    case _ => None
  }

  function Scan(s: Scanner, lines: seq<Line>): Option<Scanner>
    decreases |lines|
  {
    if lines == [] then Some(s)
    else match Next(s, lines[0])
      case None => None
      case Some(next) => Scan(next, lines[1..])
  }

  function SummaryCount(lines: seq<Line>): nat {
    if lines == [] then 0 else (if lines[0].Summary? then 1 else 0) + SummaryCount(lines[1..])
  }

  /** `exact_groups` as a function of the log: None where the source raises. */
  function Parse(terminated: bool, lines: seq<Line>): Option<seq<Group>> {
    if !terminated || lines == [] || !lines[|lines| - 1].Summary? || SummaryCount(lines) != 1 then None
    else match Scan(START, lines[..|lines| - 1])
      case None => None
      case Some(s) =>
        if Finish(s).None? || !NamesDistinct(Finish(s).value) then None
        else Some(Sort(Finish(s).value, ByName()))
  }

  /** `exact_groups`: the loop over the lines, with the source's variables. */
  method ExactGroups(terminated: bool, lines: seq<Line>) returns (r: Option<seq<Group>>)
    ensures r == Parse(terminated, lines)
  {
    if !terminated || lines == [] || !lines[|lines| - 1].Summary? || SummaryCount(lines) != 1 {
      return None;
    }
    var groups: seq<Group> := [];
    var current: Option<(nat, string)> := None;
    var identities: seq<Identity> := [];
    var closed := false;
    var i := 0;
    while i < |lines| - 1
      invariant 0 <= i <= |lines| - 1
      invariant Scan(START, lines[..|lines| - 1])
                == Scan(Scanner(current, identities, closed, groups), lines[i..|lines| - 1])
    {
      assert lines[i..|lines| - 1][0] == lines[i] && lines[i..|lines| - 1][1..] == lines[i + 1..|lines| - 1];
      match lines[i] {
        case Header(count, name) =>
          var finished := Finish(Scanner(current, identities, closed, groups));
          if finished.None? || count < 2 {
            return None;
          }
          groups, current, identities, closed := finished.value, Some((count, name)), [], false;
        case Entry(name, version, source) =>
          if current.None? || closed || name != current.value.1 {
            return None;
          }
          identities := identities + [Identity(version, source)];
        case Closure =>
          if current.None? || closed {
            return None;
          }
          closed := true;
        case Blank =>
        case Context =>
          if current.None? {
            return None;
          }
        case _ =>
          return None;
      }
      i := i + 1;
    }
    var finished := Finish(Scanner(current, identities, closed, groups));
    if finished.None? || !NamesDistinct(finished.value) {
      return None;
    }
    return Some(Sort(finished.value, ByName()));
  }

  // ----- The grammar of a log -----

  /** One diagnostic: its header announces as many entries as it lists; `body` is what follows the
      header, entries and closure interleaved with blank and context lines. */
  datatype Block = Block(name: string, identities: seq<Identity>, body: seq<Line>)

  /** A line other than padding. */
  function Significant(lines: seq<Line>): seq<Line> {
    if lines == [] then []
    else if lines[0].Blank? || lines[0].Context? then Significant(lines[1..])
    else [lines[0]] + Significant(lines[1..])
  }

  function EntryLines(name: string, identities: seq<Identity>): (lines: seq<Line>)
    ensures |lines| == |identities|
    ensures forall i :: 0 <= i < |lines| ==> lines[i] == Entry(name, identities[i].version, identities[i].source)
  {
    seq(|identities|, i requires 0 <= i < |identities| => Entry(name, identities[i].version, identities[i].source))
  }

  predicate WellFormed(b: Block) {
    && |b.identities| >= 2 && Distinct(b.identities)
    && Significant(b.body) == EntryLines(b.name, b.identities) + [Closure]
  }

  function BlockLines(b: Block): seq<Line> {
    [Header(|b.identities|, b.name)] + b.body
  }

  function Flatten(blocks: seq<Block>): seq<Line> {
    if blocks == [] then [] else Flatten(blocks[..|blocks| - 1]) + BlockLines(blocks[|blocks| - 1])
  }

  function GroupOf(b: Block): Group {
    Group(b.name, Sort(b.identities, ByIdentity()))
  }

  function GroupsOf(blocks: seq<Block>): (groups: seq<Group>)
    ensures |groups| == |blocks|
    ensures forall i :: 0 <= i < |blocks| ==> groups[i] == GroupOf(blocks[i])
  {
    seq(|blocks|, i requires 0 <= i < |blocks| => GroupOf(blocks[i]))
  }

  predicate AllBlank(lines: seq<Line>) {
    forall l :: l in lines ==> l.Blank?
  }

  /** A complete log: blank lines, well-formed diagnostics of distinct crates, one final summary. */
  predicate IsLog(lines: seq<Line>, preamble: seq<Line>, blocks: seq<Block>) {
    && lines == preamble + Flatten(blocks) + [Summary]
    && AllBlank(preamble)
    && (forall b :: b in blocks ==> WellFormed(b))
    && NamesDistinct(GroupsOf(blocks))
  }

  // ----- Scanning by parts -----

  lemma {:induction false} ScanAppend(s: Scanner, a: seq<Line>, b: seq<Line>)
    ensures Scan(s, a + b) == (if Scan(s, a).None? then None else Scan(Scan(s, a).value, b))
    decreases |a|
  {
    if a == [] {
      assert a + b == b;
    } else {
      assert (a + b)[0] == a[0] && (a + b)[1..] == a[1..] + b;
      if Next(s, a[0]).Some? {
        ScanAppend(Next(s, a[0]).value, a[1..], b);
      }
    }
  }

  lemma {:induction false} ScanBlanks(s: Scanner, lines: seq<Line>)
    requires AllBlank(lines)
    ensures Scan(s, lines) == Some(s)
  {
    if lines != [] {
      assert lines[0] in lines && forall l :: l in lines[1..] ==> l in lines;
      ScanBlanks(s, lines[1..]);
    }
  }

  /** The body of a diagnostic, from the point where `done` of its entries have been read. */
  lemma {:induction false} ScanBody(s: Scanner, name: string, rest: seq<Identity>, body: seq<Line>)
    requires s.current.Some? && s.current.value.1 == name
    requires Significant(body) == (if s.closed then [] else EntryLines(name, rest) + [Closure])
    ensures Scan(s, body) == Some(if s.closed then s else s.(identities := s.identities + rest, closed := true))
    decreases |body|
  {
    if body != [] {
      if body[0].Blank? || body[0].Context? {
        ScanBody(s, name, rest, body[1..]);
      } else {
        assert Significant(body)[0] == body[0] && Significant(body)[1..] == Significant(body[1..]);
        if rest == [] {
          ScanBody(s.(closed := true), name, [], body[1..]);
          assert s.identities + rest == s.identities;
        } else {
          assert (EntryLines(name, rest) + [Closure])[0] == EntryLines(name, rest)[0];
          assert (EntryLines(name, rest) + [Closure])[1..] == EntryLines(name, rest[1..]) + [Closure];
          ScanBody(s.(identities := s.identities + [rest[0]]), name, rest[1..], body[1..]);
          assert s.identities + [rest[0]] + rest[1..] == s.identities + rest;
        }
      }
    }
  }

  /** Scanning one well-formed diagnostic from a point where nothing is half open. */
  lemma ScanBlock(s: Scanner, b: Block)
    requires Finish(s).Some? && WellFormed(b)
    ensures Scan(s, BlockLines(b)).Some?
    ensures Finish(Scan(s, BlockLines(b)).value) == Some(Finish(s).value + [GroupOf(b)])
  {
    var begun := Scanner(Some((|b.identities|, b.name)), [], false, Finish(s).value);
    assert BlockLines(b)[0] == Header(|b.identities|, b.name) && BlockLines(b)[1..] == b.body;
    assert Next(s, BlockLines(b)[0]) == Some(begun);
    ScanBody(begun, b.name, b.identities, b.body);
    assert [] + b.identities == b.identities;
  }

  /** Scanning `lines` from `s` ends well and finishes with exactly `groups`. */
  predicate Yields(s: Scanner, lines: seq<Line>, groups: seq<Group>) {
    Scan(s, lines).Some? && Finish(Scan(s, lines).value) == Some(groups)
  }

  lemma OneMoreBlock(s: Scanner, front: seq<Line>, groups: seq<Group>, b: Block)
    requires Yields(s, front, groups) && WellFormed(b)
    ensures Yields(s, front + BlockLines(b), groups + [GroupOf(b)])
  {
    ScanAppend(s, front, BlockLines(b));
    ScanBlock(Scan(s, front).value, b);
  }

  lemma {:induction false} ScanBlocks(blocks: seq<Block>)
    requires forall b :: b in blocks ==> WellFormed(b)
    ensures Yields(START, Flatten(blocks), GroupsOf(blocks))
    decreases |blocks|
  {
    if blocks == [] {
      assert GroupsOf(blocks) == [];
    } else {
      var front, last := blocks[..|blocks| - 1], blocks[|blocks| - 1];
      assert blocks == front + [last];
      ScanBlocks(front);
      OneMoreBlock(START, Flatten(front), GroupsOf(front), last);
      OneMoreInFlatten(front, last);
    }
  }

  lemma {:induction false} SummaryCountAppend(a: seq<Line>, b: seq<Line>)
    ensures SummaryCount(a + b) == SummaryCount(a) + SummaryCount(b)
  {
    if a == [] {
      assert a + b == b;
    } else {
      assert (a + b)[0] == a[0] && (a + b)[1..] == a[1..] + b;
      SummaryCountAppend(a[1..], b);
    }
  }

  /** A log that scans holds no summary. */
  lemma {:induction false} ScannedHasNoSummary(s: Scanner, lines: seq<Line>)
    requires Scan(s, lines).Some?
    ensures SummaryCount(lines) == 0
    decreases |lines|
  {
    if lines != [] {
      ScannedHasNoSummary(Next(s, lines[0]).value, lines[1..]);
    }
  }

  /** Every complete log is accepted, and yields its diagnostics sorted by crate. */
  lemma LogsAreAccepted(lines: seq<Line>, preamble: seq<Line>, blocks: seq<Block>)
    requires IsLog(lines, preamble, blocks)
    ensures Parse(true, lines) == Some(Sort(GroupsOf(blocks), ByName()))
  {
    var scanned := preamble + Flatten(blocks);
    assert lines[..|lines| - 1] == scanned && lines[|lines| - 1] == Summary;
    ScanBlanks(START, preamble);
    ScanAppend(START, preamble, Flatten(blocks));
    ScanBlocks(blocks);
    ScannedHasNoSummary(START, scanned);
    SummaryCountAppend(scanned, [Summary]);
    assert SummaryCount([Summary]) == 1;
  }

  // ----- What was accepted is a log -----

  /** What the scanner has read: a preamble, finished diagnostics, and perhaps an open one. */
  predicate Reads(lines: seq<Line>, s: Scanner, preamble: seq<Line>, blocks: seq<Block>, body: seq<Line>) {
    && AllBlank(preamble)
    && (forall b :: b in blocks ==> WellFormed(b))
    && s.groups == GroupsOf(blocks)
    && match s.current
       case None => lines == preamble && blocks == [] && !s.closed && s.identities == []
       case Some((count, name)) =>
         && count >= 2
         && lines == preamble + Flatten(blocks) + [Header(count, name)] + body
         && Significant(body) == EntryLines(name, s.identities) + (if s.closed then [Closure] else [])
  }

  lemma {:induction false} SignificantAppend(a: seq<Line>, l: Line)
    ensures Significant(a + [l]) == Significant(a) + (if l.Blank? || l.Context? then [] else [l])
  {
    if a != [] {
      assert (a + [l])[0] == a[0] && (a + [l])[1..] == a[1..] + [l];
      SignificantAppend(a[1..], l);
    } else {
      assert (a + [l])[1..] == [];
    }
  }

  /** A finished open diagnostic is one more block. */
  lemma FinishedIsBlock(lines: seq<Line>, s: Scanner, preamble: seq<Line>, blocks: seq<Block>, body: seq<Line>)
    returns (all: seq<Block>)
    requires Reads(lines, s, preamble, blocks, body) && Finish(s).Some?
    ensures lines == preamble + Flatten(all) && Finish(s).value == GroupsOf(all)
    ensures forall b :: b in all ==> WellFormed(b)
  {
    if s.current.None? {
      assert preamble + Flatten([]) == preamble;
      return [];
    }
    var b := Block(s.current.value.1, s.identities, body);
    assert WellFormed(b);
    all := blocks + [b];
    OneMoreInFlatten(blocks, b);
    Regroup(preamble, Flatten(blocks), Header(|s.identities|, b.name), body);
  }

  lemma Regroup(a: seq<Line>, b: seq<Line>, l: Line, c: seq<Line>)
    ensures a + b + [l] + c == a + (b + ([l] + c))
  {
  }

  lemma OneMoreInFlatten(blocks: seq<Block>, b: Block)
    ensures Flatten(blocks + [b]) == Flatten(blocks) + BlockLines(b)
    ensures GroupsOf(blocks + [b]) == GroupsOf(blocks) + [GroupOf(b)]
  {
    assert (blocks + [b])[..|blocks|] == blocks;
  }

  /** One more line inside the open diagnostic. */
  lemma ReadsOneMore(lines: seq<Line>, s: Scanner, preamble: seq<Line>, blocks: seq<Block>, body: seq<Line>, l: Line)
    requires Reads(lines, s, preamble, blocks, body) && s.current.Some?
    requires Next(s, l).Some? && !l.Header?
    ensures Reads(lines + [l], Next(s, l).value, preamble, blocks, body + [l])
  {
    SignificantAppend(body, l);
    if l.Entry? {
      assert EntryLines(l.crate, s.identities + [Identity(l.version, l.source)])
             == EntryLines(l.crate, s.identities) + [l];
    }
  }

  lemma {:induction false} ScannedReads(lines: seq<Line>)
    returns (preamble: seq<Line>, blocks: seq<Block>, body: seq<Line>)
    requires Scan(START, lines).Some?
    ensures Reads(lines, Scan(START, lines).value, preamble, blocks, body)
    decreases |lines|
  {
    if lines == [] {
      preamble, blocks, body := [], [], [];
    } else {
      var front, last := lines[..|lines| - 1], lines[|lines| - 1];
      assert lines == front + [last];
      ScanAppend(START, front, [last]);
      preamble, blocks, body := ScannedReads(front);
      var s := Scan(START, front).value;
      assert Scan(s, [last]) == Next(s, last);
      if last.Header? {
        blocks := FinishedIsBlock(front, s, preamble, blocks, body);
        body := [];
      } else if s.current.None? {
        preamble := preamble + [last];
      } else {
        ReadsOneMore(front, s, preamble, blocks, body, last);
        body := body + [last];
      }
    }
  }

  lemma ScannedIsLog(lines: seq<Line>, groups: seq<Group>) returns (preamble: seq<Line>, blocks: seq<Block>)
    requires Yields(START, lines, groups) && NamesDistinct(groups)
    ensures IsLog(lines + [Summary], preamble, blocks) && groups == GroupsOf(blocks)
  {
    var s := Scan(START, lines).value;
    var body;
    preamble, blocks, body := ScannedReads(lines);
    blocks := FinishedIsBlock(lines, s, preamble, blocks, body);
  }

  /** Every accepted text is a complete log, and the result is what its diagnostics list. */
  lemma AcceptedIsLog(terminated: bool, lines: seq<Line>) returns (preamble: seq<Line>, blocks: seq<Block>)
    requires Parse(terminated, lines).Some?
    ensures terminated && IsLog(lines, preamble, blocks)
    ensures Parse(terminated, lines) == Some(Sort(GroupsOf(blocks), ByName()))
  {
    var front := lines[..|lines| - 1];
    assert lines == front + [Summary];
    var groups := Finish(Scan(START, front).value).value;
    assert Yields(START, front, groups);
    preamble, blocks := ScannedIsLog(front, groups);
  }

  // ----- What the result depends on -----

  /** The result does not depend on the order of the diagnostics nor on the order of their entries:
      two complete logs that list the same identities for the same crates yield the same groups. */
  lemma OrderDoesNotMatter(a: seq<Line>, before: seq<Line>, blocksA: seq<Block>,
                           b: seq<Line>, ahead: seq<Line>, blocksB: seq<Block>)
    requires IsLog(a, before, blocksA) && IsLog(b, ahead, blocksB)
    requires multiset(GroupsOf(blocksA)) == multiset(GroupsOf(blocksB))
    ensures Parse(true, a) == Parse(true, b)
  {
    LogsAreAccepted(a, before, blocksA);
    LogsAreAccepted(b, ahead, blocksB);
    NamesAreOrdered();
    DistinctNamesSeparate(GroupsOf(blocksA));
    SortIgnoresOrder(GroupsOf(blocksA), GroupsOf(blocksB), ByName());
  }

  lemma EntryOrderDoesNotMatter(a: Block, b: Block)
    requires a.name == b.name && multiset(a.identities) == multiset(b.identities)
    ensures GroupOf(a) == GroupOf(b)
  {
    IdentitiesAreOrdered();
    SortIgnoresOrder(a.identities, b.identities, ByIdentity());
  }

  // ----- The comparison with the baseline -----

  function Normal(g: Group): Group {
    Group(g.name, Sort(g.identities, ByIdentity()))
  }

  function NormalAll(groups: seq<Group>): (normal: seq<Group>)
    ensures |normal| == |groups|
    ensures forall i :: 0 <= i < |groups| ==> normal[i] == Normal(groups[i])
  {
    seq(|groups|, i requires 0 <= i < |groups| => Normal(groups[i]))
  }

  /** The `expected` list of `verify`: the baseline's groups, sorted inside and out. */
  function Expected(baseline: seq<Group>): seq<Group> {
    Sort(NormalAll(baseline), ByName())
  }

  /** Distinct crates, each with distinct identities. */
  predicate WithoutRepeats(groups: seq<Group>) {
    NamesDistinct(groups) && forall g :: g in groups ==> Distinct(g.identities)
  }

  function IdentitySet(g: Group): set<Identity> {
    set x | x in g.identities
  }

  /** The crates with their identity sets; a map when no crate repeats. */
  function Named(groups: seq<Group>): set<(string, set<Identity>)> {
    set g | g in groups :: (g.name, IdentitySet(g))
  }

  /** Sorted by crate, each crate's identities sorted, nothing repeated. */
  ghost predicate Canonical(groups: seq<Group>) {
    && WithoutRepeats(groups) && Sorted(groups, ByName())
    && forall g :: g in groups ==> Sorted(g.identities, ByIdentity())
  }

  lemma {:induction false} NamesDistinctIgnoresOrder(a: seq<Group>, b: seq<Group>)
    requires multiset(a) == multiset(b) && NamesDistinct(a)
    ensures NamesDistinct(b)
  {
    DistinctNamesSeparate(a);
    DistinctIffMultiplicityOne(a);
    DistinctIffMultiplicityOne(b);
    forall i, j | 0 <= i < j < |b|
      ensures b[i].name != b[j].name
    {
      assert b[i] in multiset(a) && b[j] in multiset(a);
      var m :| 0 <= m < |a| && a[m] == b[i];
      var n :| 0 <= n < |a| && a[n] == b[j];
    }
  }

  lemma NormalGroup(g: Group)
    ensures Sorted(Normal(g).identities, ByIdentity()) && IdentitySet(Normal(g)) == IdentitySet(g)
    ensures Distinct(Normal(g).identities) <==> Distinct(g.identities)
  {
    IdentitiesAreOrdered();
    SortSorts(g.identities, ByIdentity());
    SortKeepsMembers(g.identities, ByIdentity());
    SortKeepsDistinct(g.identities, ByIdentity());
  }

  lemma NamedByHead(groups: seq<Group>)
    requires groups != []
    ensures Named(groups) == {(groups[0].name, IdentitySet(groups[0]))} + Named(groups[1..])
  {
    assert groups == [groups[0]] + groups[1..];
  }

  lemma {:induction false} NormalKeepsNames(groups: seq<Group>)
    ensures Named(NormalAll(groups)) == Named(groups)
  {
    if groups != [] {
      NormalGroup(groups[0]);
      NormalKeepsNames(groups[1..]);
      NamedByHead(groups);
      NamedByHead(NormalAll(groups));
      assert NormalAll(groups)[1..] == NormalAll(groups[1..]);
    }
  }

  lemma NormalGroups(groups: seq<Group>)
    ensures WithoutRepeats(NormalAll(groups)) <==> WithoutRepeats(groups)
    ensures forall g :: g in NormalAll(groups) ==> Sorted(g.identities, ByIdentity())
  {
    var normal := NormalAll(groups);
    forall i | 0 <= i < |groups|
      ensures normal[i] in normal && groups[i] in groups && normal[i].name == groups[i].name
      ensures Distinct(normal[i].identities) <==> Distinct(groups[i].identities)
      ensures Sorted(normal[i].identities, ByIdentity())
    {
      NormalGroup(groups[i]);
    }
    assert NamesDistinct(normal) <==> NamesDistinct(groups);
  }

  lemma SortedGroups(groups: seq<Group>)
    ensures Sorted(Sort(groups, ByName()), ByName())
    ensures Named(Sort(groups, ByName())) == Named(groups)
    ensures WithoutRepeats(Sort(groups, ByName())) <==> WithoutRepeats(groups)
    ensures forall g :: g in Sort(groups, ByName()) ==> g in groups
  {
    var sorted := Sort(groups, ByName());
    NamesAreOrdered();
    SortSorts(groups, ByName());
    SortKeepsMembers(groups, ByName());
    if NamesDistinct(groups) { NamesDistinctIgnoresOrder(groups, sorted); }
    if NamesDistinct(sorted) { NamesDistinctIgnoresOrder(sorted, groups); }
  }

  /** The expected list names what the baseline names, and is canonical unless the baseline repeats. */
  lemma ExpectedIsNormal(baseline: seq<Group>)
    ensures Named(Expected(baseline)) == Named(baseline)
    ensures WithoutRepeats(Expected(baseline)) <==> WithoutRepeats(baseline)
    ensures WithoutRepeats(baseline) ==> Canonical(Expected(baseline))
  {
    NormalGroups(baseline);
    NormalKeepsNames(baseline);
    SortedGroups(NormalAll(baseline));
  }

  lemma SameSetIsEqual(g: Group, h: Group)
    requires g.name == h.name && IdentitySet(g) == IdentitySet(h)
    requires Distinct(g.identities) && Distinct(h.identities)
    requires Sorted(g.identities, ByIdentity()) && Sorted(h.identities, ByIdentity())
    ensures g == h
  {
    IdentitiesAreOrdered();
    assert forall x :: x in g.identities <==> x in IdentitySet(g);
    assert forall x :: x in h.identities <==> x in IdentitySet(h);
    SortedDistinctIsUnique(g.identities, h.identities, ByIdentity());
  }

  lemma CanonicalIsContained(a: seq<Group>, b: seq<Group>, g: Group)
    requires Canonical(a) && Canonical(b) && Named(a) == Named(b) && g in a
    ensures g in b
  {
    assert (g.name, IdentitySet(g)) in Named(b);
    var h :| h in b && (h.name, IdentitySet(h)) == (g.name, IdentitySet(g));
    SameSetIsEqual(g, h);
  }

  /** Canonical lists are equal when they name the same identities. */
  lemma CanonicalIsUnique(a: seq<Group>, b: seq<Group>)
    requires Canonical(a) && Canonical(b) && Named(a) == Named(b)
    ensures a == b
  {
    forall g
      ensures g in a <==> g in b
    {
      if g in a { CanonicalIsContained(a, b, g); }
      if g in b { CanonicalIsContained(b, a, g); }
    }
    NamesAreOrdered();
    DistinctNamesSeparate(a);
    DistinctNamesSeparate(b);
    SortedDistinctIsUnique(a, b, ByName());
  }

  /** What the diagnostics list, in the log's own order. */
  function Listed(blocks: seq<Block>): seq<Group> {
    seq(|blocks|, i requires 0 <= i < |blocks| => Group(blocks[i].name, blocks[i].identities))
  }

  lemma ListedIsNormal(blocks: seq<Block>)
    requires NamesDistinct(GroupsOf(blocks)) && forall b :: b in blocks ==> WellFormed(b)
    ensures NormalAll(Listed(blocks)) == GroupsOf(blocks) && WithoutRepeats(Listed(blocks))
  {
    var listed := Listed(blocks);
    forall i | 0 <= i < |blocks|
      ensures listed[i].name == GroupsOf(blocks)[i].name && Distinct(listed[i].identities)
    {
      assert blocks[i] in blocks;
    }
  }

  /** What the parser returns is canonical. */
  lemma ParsedIsCanonical(terminated: bool, lines: seq<Line>)
    requires Parse(terminated, lines).Some?
    ensures Canonical(Parse(terminated, lines).value)
  {
    var preamble, blocks := AcceptedIsLog(terminated, lines);
    ListedIsNormal(blocks);
    ExpectedIsNormal(Listed(blocks));
  }

  /** The comparison in `verify` is equality of crate-to-identity-set maps: a parsed log equals the
      expected list exactly when the baseline repeats nothing and both name the same identities. */
  lemma ComparisonIsMapEquality(terminated: bool, lines: seq<Line>, baseline: seq<Group>)
    requires Parse(terminated, lines).Some?
    ensures Parse(terminated, lines).value == Expected(baseline)
            <==> WithoutRepeats(baseline) && Named(baseline) == Named(Parse(terminated, lines).value)
  {
    var result := Parse(terminated, lines).value;
    ParsedIsCanonical(terminated, lines);
    ExpectedIsNormal(baseline);
    if WithoutRepeats(baseline) && Named(baseline) == Named(result) {
      CanonicalIsUnique(result, Expected(baseline));
    }
  }
}
