/**
 The replay contract (echo-sdk-protocol/src/event.rs): each page is validated on its own, and a
 client chains pages by requesting each one after the cursor of the page before.
 */
module Replay {
  import opened Prelude

  datatype ReplayError = InvalidIdentity | InvalidSequence | InvalidEvent

  /** `wellFormed` stands for the checks of an envelope that do not concern its sequence. */
  datatype Event = Event(streamId: string, sequence: U64, wellFormed: bool)

  datatype Gap = Gap(from: U64, to: U64, watermark: U64, reason: string)

  datatype Page = Page(requested: U64, events: seq<Event>, streamId: string, cursor: U64, gap: Option<Gap>)

  predicate IsWhitespace(c: char) {
    var code := c as int;
    9 <= code <= 13 || 0x2000 <= code <= 0x200A
    || code in {0x20, 0x85, 0xA0, 0x1680, 0x2028, 0x2029, 0x202F, 0x205F, 0x3000}
  }

  /** `trim().is_empty()` */
  predicate IsBlank(s: string) {
    forall i :: 0 <= i < |s| ==> IsWhitespace(s[i])
  }

  function CheckedAdd(a: U64, b: U64): Option<U64> {
    if a + b <= U64_MAX then Some(a + b) else None
  }

  /** `EventGap::validate` */
  function ValidateGap(g: Gap): Option<ReplayError> {
    if g.from == 0 || g.to < g.from || g.watermark < g.to || IsBlank(g.reason) then Some(InvalidSequence) else None
  }

  /** `WireEventEnvelope::validate` */
  function ValidateEvent(e: Event): Option<ReplayError> {
    if !e.wellFormed then Some(InvalidEvent) else if e.sequence == 0 then Some(InvalidSequence) else None
  }

  // ----- What an accepted page is -----

  /** Where the events of a page continue from. */
  function Base(p: Page): U64 {
    if p.gap.Some? then p.gap.value.watermark else p.requested
  }

  /** The events number on from the base without a hole, the cursor is the last of them, and a gap
      starts right after the request and reaches its watermark. */
  predicate Accepted(p: Page) {
    && !IsBlank(p.streamId)
    && (forall i :: 0 <= i < |p.events| ==>
          p.events[i].wellFormed && p.events[i].streamId == p.streamId && p.events[i].sequence == Base(p) + 1 + i)
    && p.cursor == Base(p) + |p.events|
    && (p.gap.Some? ==>
          var g := p.gap.value;
          g.from == p.requested + 1 && g.from <= g.to <= g.watermark && !IsBlank(g.reason))
  }

  /** Event `i` is the first that is malformed, misnumbered or of another stream. */
  predicate IsFirstBad(p: Page, i: nat) {
    && i < |p.events|
    && !(p.events[i].wellFormed && p.events[i].streamId == p.streamId && p.events[i].sequence == Base(p) + 1 + i)
    && forall j :: 0 <= j < i ==>
         p.events[j].wellFormed && p.events[j].streamId == p.streamId && p.events[j].sequence == Base(p) + 1 + j
  }

  /** The error of a page that is not accepted: of its identity, of the first bad event, or else of its
      numbers. A malformed event comes before its number, and a missing number before its stream. */
  ghost predicate IsError(p: Page, error: ReplayError) {
    if IsBlank(p.streamId) then error == InvalidIdentity
    else if exists i: nat :: IsFirstBad(p, i) then exists i: nat :: IsFirstBad(p, i) && IsEventError(p, i, error)
    else error == InvalidSequence
  }

  predicate IsEventError(p: Page, i: nat, error: ReplayError)
    requires i < |p.events|
  {
    var e := p.events[i];
    error == if !e.wellFormed then InvalidEvent
             else if e.sequence != 0 && e.streamId != p.streamId then InvalidIdentity
             else InvalidSequence
  }

  /** `ReplayResponse::validate`: None when the page is accepted. */
  method Validate(p: Page) returns (error: Option<ReplayError>)
    ensures error.None? <==> Accepted(p)
    ensures error.Some? ==> IsError(p, error.value)
  {
    if IsBlank(p.streamId) {
      return Some(InvalidIdentity);
    }
    var watermark := if p.gap.Some? then Some(p.gap.value.watermark) else None;
    var previous: Option<U64> := None;
    var i := 0;
    while i < |p.events|
      invariant 0 <= i <= |p.events|
      invariant previous == (if i == 0 then None else Some(p.events[i - 1].sequence))
      invariant forall j :: 0 <= j < i ==>
                  && p.events[j].wellFormed && p.events[j].streamId == p.streamId
                  && p.events[j].sequence == Base(p) + 1 + j
    {
      var e := p.events[i];
      assert IsFirstBad(p, i)
             <==> !(e.wellFormed && e.streamId == p.streamId && e.sequence == Base(p) + 1 + i);
      if ValidateEvent(e).Some? {
        return ValidateEvent(e);
      }
      if e.streamId != p.streamId {
        return Some(InvalidIdentity);
      }
      if previous.None? {
        var base := if watermark.Some? then watermark.value else p.requested;
        if CheckedAdd(base, 1) != Some(e.sequence) {
          return Some(InvalidSequence);
        }
      } else if CheckedAdd(previous.value, 1) != Some(e.sequence) {
        return Some(InvalidSequence);
      }
      previous := Some(e.sequence);
      i := i + 1;
    }
    var expected := if previous.Some? then previous.value else if watermark.Some? then watermark.value else p.requested;
    if p.cursor != expected {
      return Some(InvalidSequence);
    }
    if p.gap.Some? {
      if ValidateGap(p.gap.value).Some? {
        return ValidateGap(p.gap.value);
      }
      if CheckedAdd(p.requested, 1) != Some(p.gap.value.from) {
        return Some(InvalidSequence);
      }
    }
    return None;
  }

  // ----- Chained pages -----

  /** Accepted pages of one stream, each requested after the cursor of the page before. */
  predicate Chained(pages: seq<Page>, streamId: string) {
    && pages != []
    && (forall i :: 0 <= i < |pages| ==> Accepted(pages[i]) && pages[i].streamId == streamId)
    && (forall i :: 0 < i < |pages| ==> pages[i].requested == pages[i - 1].cursor)
  }

  function Sequences(events: seq<Event>): (sequences: seq<U64>)
    ensures |sequences| == |events|
    ensures forall i :: 0 <= i < |events| ==> sequences[i] == events[i].sequence
  {
    seq(|events|, i requires 0 <= i < |events| => events[i].sequence)
  }

  function Delivered(pages: seq<Page>): seq<U64> {
    if pages == [] then [] else Delivered(pages[..|pages| - 1]) + Sequences(pages[|pages| - 1].events)
  }

  /** The sequence lies after the request of some page and at most at its gap's watermark. */
  predicate Skipped(pages: seq<Page>, q: nat) {
    exists k :: 0 <= k < |pages| && SkippedBy(pages[k], q)
  }

  predicate SkippedBy(p: Page, q: nat) {
    p.gap.Some? && p.requested < q <= p.gap.value.watermark
  }

  lemma CursorAdvances(p: Page)
    requires Accepted(p)
    ensures p.requested <= Base(p) <= p.cursor
    ensures p.requested < p.cursor <==> p.events != [] || p.gap.Some?
  {
  }

  /** The cursor never moves back along a chain. */
  lemma {:induction false} CursorNeverMovesBack(pages: seq<Page>, streamId: string, i: nat, j: nat)
    requires Chained(pages, streamId) && i <= j < |pages|
    ensures pages[i].requested <= pages[i].cursor <= pages[j].cursor
    ensures i < j && (pages[j].events != [] || pages[j].gap.Some?) ==> pages[i].cursor < pages[j].cursor
    decreases j
  {
    CursorAdvances(pages[i]);
    if i < j {
      CursorNeverMovesBack(pages, streamId, i, j - 1);
      CursorAdvances(pages[j]);
    }
  }

  lemma ShorterChain(pages: seq<Page>, streamId: string)
    requires Chained(pages, streamId) && |pages| > 1
    ensures Chained(pages[..|pages| - 1], streamId)
  {
  }

  /** What a page delivers lies above its base and reaches its cursor, in order. */
  lemma PageDelivers(p: Page, q: nat)
    requires Accepted(p)
    ensures q in Sequences(p.events) <==> Base(p) < q <= p.cursor
  {
    if Base(p) < q <= p.cursor {
      assert Sequences(p.events)[q - Base(p) - 1] == q;
    }
  }

  /** Delivered sequences lie within the chain's range. */
  lemma {:induction false} DeliveredInRange(pages: seq<Page>, streamId: string, q: nat)
    requires Chained(pages, streamId) && q in Delivered(pages)
    ensures pages[0].requested < q <= pages[|pages| - 1].cursor
    decreases |pages|
  {
    var n := |pages| - 1;
    CursorAdvances(pages[n]);
    if q in Sequences(pages[n].events) {
      PageDelivers(pages[n], q);
      if n > 0 { CursorNeverMovesBack(pages, streamId, 0, n - 1); }
    } else {
      ShorterChain(pages, streamId);
      DeliveredInRange(pages[..n], streamId, q);
    }
  }

  /** Over any chain the delivered sequences strictly increase, so none is delivered twice. */
  lemma {:induction false} DeliveredIncreases(pages: seq<Page>, streamId: string, i: nat, j: nat)
    requires Chained(pages, streamId) && i < j < |Delivered(pages)|
    ensures Delivered(pages)[i] < Delivered(pages)[j]
    decreases |pages|
  {
    var n := |pages| - 1;
    var before, last := Delivered(pages[..n]), Sequences(pages[n].events);
    CursorAdvances(pages[n]);
    if n == 0 {
      assert before == [];
    } else {
      ShorterChain(pages, streamId);
      if j < |before| {
        DeliveredIncreases(pages[..n], streamId, i, j);
      } else if i < |before| {
        assert before[i] in before;
        DeliveredInRange(pages[..n], streamId, before[i]);
        assert last[j - |before|] in last;
        PageDelivers(pages[n], last[j - |before|]);
      }
    }
  }

  /** Over any chain, a sequence between the first request and the last cursor is either delivered
      or covered by the snapshot of a page's declared gap, and never both. */
  lemma {:induction false} DeliveredOrSkipped(pages: seq<Page>, streamId: string, q: nat)
    requires Chained(pages, streamId) && pages[0].requested < q <= pages[|pages| - 1].cursor
    ensures q in Delivered(pages) <==> !Skipped(pages, q)
    decreases |pages|
  {
    var n := |pages| - 1;
    var front := pages[..n];
    CursorAdvances(pages[n]);
    PageDelivers(pages[n], q);
    assert Skipped(pages, q) <==> Skipped(front, q) || SkippedBy(pages[n], q) by {
      if Skipped(front, q) {
        var k :| 0 <= k < |front| && SkippedBy(front[k], q);
        assert SkippedBy(pages[k], q);
      }
      if Skipped(pages, q) {
        var k :| 0 <= k < |pages| && SkippedBy(pages[k], q);
        assert k < n ==> SkippedBy(front[k], q);
      }
    }
    if n == 0 {
      assert front == [];
    } else {
      ShorterChain(pages, streamId);
      if q <= pages[n].requested {
        DeliveredOrSkipped(front, streamId, q);
      } else {
        if q in Delivered(front) { DeliveredInRange(front, streamId, q); }
        if Skipped(front, q) {
          var k :| 0 <= k < |front| && SkippedBy(front[k], q);
          CursorNeverMovesBack(pages, streamId, k, n - 1);
          CursorAdvances(pages[k]);
          assert false;
        }
      }
    }
  }

  /** A page's undelivered sequences are all declared missing if and only if its gap reaches its
      watermark: what lies between `to` and the watermark is neither delivered nor declared. */
  lemma GapDeclaresAllMissing(p: Page)
    requires Accepted(p) && p.gap.Some?
    ensures (forall q :: p.requested < q <= p.cursor && q !in Sequences(p.events) ==>
               p.gap.value.from <= q <= p.gap.value.to)
            <==> p.gap.value.to == p.gap.value.watermark
  {
    forall q
      ensures q in Sequences(p.events) <==> q >= 0 && Base(p) < q <= p.cursor
    {
      if q >= 0 { PageDelivers(p, q); }
    }
    if p.gap.value.to < p.gap.value.watermark {
      assert p.gap.value.watermark !in Sequences(p.events);
    }
  }

  /** A page on which it does not: sequence 2 is neither delivered nor declared missing. */
  lemma GapMayHideSequences()
    ensures var p := Page(0, [], "stream", 2, Some(Gap(1, 1, 2, "retention")));
            && Accepted(p) && p.requested < 2 <= p.cursor && 2 !in Sequences(p.events)
            && !(p.gap.value.from <= 2 <= p.gap.value.to)
  {
    assert !IsWhitespace("stream"[0]) && !IsWhitespace("retention"[0]);
  }
}
