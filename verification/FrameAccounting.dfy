/**
 The bounded stdin reader (echo-sdk-host/src/bounded_stdio.rs): newline-delimited frames are
 measured across arbitrary read boundaries with a checked u64 counter.
 */
module FrameAccounting {
  import opened Prelude

  type Byte = bv8

  const NEWLINE: Byte := 10

  datatype FrameError = CounterOverflow | FrameTooLong | InvalidByteCount | ReadFailed

  function CheckedIncrement(a: U64): Option<U64> {
    if a < U64_MAX then Some(a + 1) else None
  }

  // ----- One read, as a function of the counter -----

  /** The counter after a read and whether the read passed; a failing read keeps the counter it
      failed with. */
  datatype Count = Count(bytes: U64, error: Option<FrameError>)

  function Account(limit: U64, bytes: U64, read: seq<Byte>): (c: Count)
    decreases |read|
  {
    if read == [] then Count(bytes, None)
    else if bytes == U64_MAX then Count(bytes, Some(CounterOverflow))
    else if bytes + 1 > limit then Count(bytes + 1, Some(FrameTooLong))
    else Account(limit, if read[0] == NEWLINE then 0 else bytes + 1, read[1..])
  }

  /** Accounting fails for two reasons only. */
  lemma {:induction false} AccountErrors(limit: U64, bytes: U64, read: seq<Byte>)
    ensures var error := Account(limit, bytes, read).error;
            error.Some? ==> error.value in {CounterOverflow, FrameTooLong}
    decreases |read|
  {
    if read != [] && bytes < U64_MAX && bytes + 1 <= limit {
      AccountErrors(limit, if read[0] == NEWLINE then 0 else bytes + 1, read[1..]);
    }
  }

  /** `FrameAccountant`: the counter lives on between reads. */
  class FrameAccountant {
    var currentFrameBytes: U64

    constructor ()
      ensures currentFrameBytes == 0
    {
      currentFrameBytes := 0;
    }

    method AccountRead(limit: U64, read: seq<Byte>) returns (error: Option<FrameError>)
      modifies this
      ensures Count(currentFrameBytes, error) == Account(limit, old(currentFrameBytes), read)
    {
      var i := 0;
      while i < |read|
        invariant 0 <= i <= |read|
        invariant Account(limit, old(currentFrameBytes), read) == Account(limit, currentFrameBytes, read[i..])
      {
        assert read[i..][0] == read[i] && read[i..][1..] == read[i + 1..];
        if read[i] == NEWLINE {
          var next := CheckedIncrement(currentFrameBytes);
          if next.None? {
            return Some(CounterOverflow);
          }
          currentFrameBytes := next.value;
          if currentFrameBytes > limit {
            return Some(FrameTooLong);
          }
          currentFrameBytes := 0;
        } else {
          var next := CheckedIncrement(currentFrameBytes);
          if next.None? {
            return Some(CounterOverflow);
          }
          currentFrameBytes := next.value;
          if currentFrameBytes > limit {
            return Some(FrameTooLong);
          }
        }
        i := i + 1;
      }
      return None;
    }
  }

  /** What the wrapped reader answers to one poll: nothing yet, an error, or that it filled `count`
      bytes of the buffer. */
  datatype Polled = Pending | Failed | Filled(buffer: seq<Byte>, count: nat)

  datatype PollResult = NotReady | Delivered(count: nat) | Rejected(error: FrameError)

  /** `CountingFrameReader` */
  class CountingFrameReader {
    const limit: U64
    const accountant: FrameAccountant

    constructor (limit: U64)
      ensures this.limit == limit && fresh(accountant) && accountant.currentFrameBytes == 0
    {
      this.limit := limit;
      accountant := new FrameAccountant();
    }

    /** Only delivered bytes are accounted, and a read that breaks the limit delivers nothing. */
    method PollRead(polled: Polled) returns (r: PollResult)
      modifies accountant
      ensures polled.Filled? && 0 < polled.count <= |polled.buffer| ==>
                var c := Account(limit, old(accountant.currentFrameBytes), polled.buffer[..polled.count]);
                accountant.currentFrameBytes == c.bytes
                && r == (if c.error.Some? then Rejected(c.error.value) else Delivered(polled.count))
      ensures !(polled.Filled? && 0 < polled.count <= |polled.buffer|) ==>
                unchanged(accountant)
      ensures polled.Pending? <==> r.NotReady?
      ensures polled.Failed? <==> r == Rejected(ReadFailed)
      ensures polled.Filled? && polled.count == 0 <==> r == Delivered(0)
      ensures polled.Filled? && polled.count > |polled.buffer| <==> r == Rejected(InvalidByteCount)
    {
      match polled
      case Pending => return NotReady;
      case Failed => return Rejected(ReadFailed);
      case Filled(buffer, count) =>
        if count == 0 {
          return Delivered(0);
        }
        if count > |buffer| {
          return Rejected(InvalidByteCount);
        }
        AccountErrors(limit, accountant.currentFrameBytes, buffer[..count]);
        var error := accountant.AccountRead(limit, buffer[..count]);
        return if error.Some? then Rejected(error.value) else Delivered(count);
    }
  }

  // ----- Many reads -----

  function Concat(chunks: seq<seq<Byte>>): seq<Byte> {
    if chunks == [] then [] else chunks[0] + Concat(chunks[1..])
  }

  /** All reads pass, one after the other. */
  predicate AllPass(limit: U64, bytes: U64, chunks: seq<seq<Byte>>)
    decreases |chunks|
  {
    chunks == []
    || (&& Account(limit, bytes, chunks[0]).error.None?
        && AllPass(limit, Account(limit, bytes, chunks[0]).bytes, chunks[1..]))
  }

  /** The frames of an input, the newline included in its frame and the trailing partial frame last. */
  function Frames(input: seq<Byte>): (frames: seq<seq<Byte>>)
    ensures frames != []
  {
    if input == [] then [[]]
    else if input[0] == NEWLINE then [[NEWLINE]] + Frames(input[1..])
    else
      var rest := Frames(input[1..]);
      [[input[0]] + rest[0]] + rest[1..]
  }

  predicate NoNewline(f: seq<Byte>) {
    forall i :: 0 <= i < |f| ==> f[i] != NEWLINE
  }

  /** Every frame but the last ends at its only newline; the last has none. */
  predicate IsFraming(frames: seq<seq<Byte>>) {
    frames != []
    && if |frames| == 1 then NoNewline(frames[0])
       else frames[0] != [] && frames[0][|frames[0]| - 1] == NEWLINE && NoNewline(frames[0][..|frames[0]| - 1])
            && IsFraming(frames[1..])
  }

  lemma PrependNewline(rest: seq<seq<Byte>>)
    requires IsFraming(rest)
    ensures Concat([[NEWLINE]] + rest) == [NEWLINE] + Concat(rest) && IsFraming([[NEWLINE]] + rest)
  {
    var frames := [[NEWLINE]] + rest;
    assert frames[0] == [NEWLINE] && frames[1..] == rest;
  }

  lemma PrependByte(b: Byte, rest: seq<seq<Byte>>)
    requires IsFraming(rest) && b != NEWLINE
    ensures Concat([[b] + rest[0]] + rest[1..]) == [b] + Concat(rest) && IsFraming([[b] + rest[0]] + rest[1..])
  {
    PrependByteConcat(b, rest);
    PrependByteFraming(b, rest);
  }

  lemma ConcatOfOneMore(first: seq<Byte>, rest: seq<seq<Byte>>)
    ensures Concat([first] + rest) == first + Concat(rest)
  {
    assert ([first] + rest)[1..] == rest;
  }

  lemma Regroup(a: seq<Byte>, b: seq<Byte>, c: seq<Byte>)
    ensures (a + b) + c == a + (b + c)
  {
  }

  lemma PrependByteConcat(b: Byte, rest: seq<seq<Byte>>)
    requires rest != []
    ensures Concat([[b] + rest[0]] + rest[1..]) == [b] + Concat(rest)
  {
    ConcatOfOneMore([b] + rest[0], rest[1..]);
    Regroup([b], rest[0], Concat(rest[1..]));
  }

  lemma PrependByteFraming(b: Byte, rest: seq<seq<Byte>>)
    requires IsFraming(rest) && b != NEWLINE
    ensures IsFraming([[b] + rest[0]] + rest[1..])
  {
    var first, frames := [b] + rest[0], [[b] + rest[0]] + rest[1..];
    assert frames[0] == first && frames[1..] == rest[1..] && |frames| == |rest|;
    if |rest| == 1 {
      NoNewlineBefore(b, rest[0]);
    } else {
      assert first[..|first| - 1] == [b] + rest[0][..|rest[0]| - 1];
      NoNewlineBefore(b, rest[0][..|rest[0]| - 1]);
    }
  }

  lemma NoNewlineBefore(b: Byte, f: seq<Byte>)
    requires b != NEWLINE && NoNewline(f)
    ensures NoNewline([b] + f)
  {
  }

  /** Frames neither lose nor move a byte, and end where the newlines are. */
  lemma {:induction false} FramesPartition(input: seq<Byte>)
    ensures Concat(Frames(input)) == input && IsFraming(Frames(input))
  {
    if input == [] {
      assert Concat([[]]) == [];
    } else {
      FramesPartition(input[1..]);
      if input[0] == NEWLINE {
        PrependNewline(Frames(input[1..]));
      } else {
        PrependByte(input[0], Frames(input[1..]));
      }
    }
  }

  predicate Within(limit: U64, frames: seq<seq<Byte>>) {
    forall f :: f in frames ==> |f| <= limit
  }

  lemma {:induction false} AccountAppend(limit: U64, bytes: U64, a: seq<Byte>, b: seq<Byte>)
    ensures Account(limit, bytes, a).error.None? ==>
              Account(limit, bytes, a + b) == Account(limit, Account(limit, bytes, a).bytes, b)
    ensures Account(limit, bytes, a).error.Some? ==> Account(limit, bytes, a + b) == Account(limit, bytes, a)
    decreases |a|
  {
    if a == [] {
      assert a + b == b;
    } else {
      assert (a + b)[0] == a[0] && (a + b)[1..] == a[1..] + b;
      if bytes < U64_MAX && bytes + 1 <= limit {
        AccountAppend(limit, if a[0] == NEWLINE then 0 else bytes + 1, a[1..], b);
      }
    }
  }

  /** Where the input is cut into reads makes no difference. */
  lemma {:induction false} ChunkingDoesNotMatter(limit: U64, bytes: U64, chunks: seq<seq<Byte>>)
    ensures AllPass(limit, bytes, chunks) <==> Account(limit, bytes, Concat(chunks)).error.None?
    decreases |chunks|
  {
    if chunks != [] {
      AccountAppend(limit, bytes, chunks[0], Concat(chunks[1..]));
      if Account(limit, bytes, chunks[0]).error.None? {
        ChunkingDoesNotMatter(limit, Account(limit, bytes, chunks[0]).bytes, chunks[1..]);
      }
    }
  }

  /** One pass over the input, `bytes` into a frame, passes if and only if every frame fits. */
  lemma {:induction false} AccountMeasuresFrames(limit: U64, bytes: U64, input: seq<Byte>)
    requires bytes <= limit
    ensures Account(limit, bytes, input).error.None?
            <==> bytes + |Frames(input)[0]| <= limit && Within(limit, Frames(input)[1..])
    decreases |input|
  {
    if input != [] {
      var rest := Frames(input[1..]);
      assert rest == [rest[0]] + rest[1..];
      if input[0] == NEWLINE {
        assert Frames(input)[1..] == rest;
        if bytes + 1 <= limit { AccountMeasuresFrames(limit, 0, input[1..]); }
      } else {
        assert Frames(input)[0] == [input[0]] + rest[0] && Frames(input)[1..] == rest[1..];
        if bytes + 1 <= limit { AccountMeasuresFrames(limit, bytes + 1, input[1..]); }
      }
    }
  }

  /** For any split of the input into reads and any limit up to the largest u64, all reads pass if
      and only if every complete frame, newline included, and the trailing partial frame fit. */
  lemma AccountingIsExact(limit: U64, chunks: seq<seq<Byte>>)
    ensures AllPass(limit, 0, chunks) <==> Within(limit, Frames(Concat(chunks)))
  {
    ChunkingDoesNotMatter(limit, 0, chunks);
    AccountMeasuresFrames(limit, 0, Concat(chunks));
    var frames := Frames(Concat(chunks));
    assert frames == [frames[0]] + frames[1..];
  }

  /** A failed read leaves the counter beyond the limit, or saturated. */
  predicate Poisoned(limit: U64, bytes: U64) {
    bytes > limit || bytes == U64_MAX
  }

  lemma {:induction false} FailurePoisons(limit: U64, bytes: U64, read: seq<Byte>)
    requires Account(limit, bytes, read).error.Some?
    ensures Poisoned(limit, Account(limit, bytes, read).bytes)
    decreases |read|
  {
    if bytes < U64_MAX && bytes + 1 <= limit {
      FailurePoisons(limit, if read[0] == NEWLINE then 0 else bytes + 1, read[1..]);
    }
  }

  /** After a failed read every later read that is not empty fails, through the saturated counter too. */
  lemma {:induction false} PoisonedForever(limit: U64, bytes: U64, failed: seq<Byte>, later: seq<seq<Byte>>)
    requires Account(limit, bytes, failed).error.Some?
    requires exists r :: r in later && r != []
    ensures !AllPass(limit, Account(limit, bytes, failed).bytes, later)
    ensures later[0] != [] ==> Account(limit, Account(limit, bytes, failed).bytes, later[0]).error.Some?
    decreases |later|
  {
    FailurePoisons(limit, bytes, failed);
    if later[0] == [] {
      assert later[1..] != [] && later == [later[0]] + later[1..];
      PoisonedForever(limit, bytes, failed, later[1..]);
    }
  }
}
