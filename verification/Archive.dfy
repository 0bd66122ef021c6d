/** Inflating archive entries under a budget: the read side of src/archive.rs. */
module Archive {
  import opened Outcomes

  type Byte = n: nat | n < 256
  type Bytes = seq<Byte>

  /** One read of the decompressor; a read of no bytes is the end of the entry, so it is not a chunk. */
  type Chunk = c: Bytes | c != [] witness [0]

  datatype Status = InvalidArgument | ResourceExhausted | Unimplemented | Internal

  datatype Limits = Limits(maxRatio: nat, ratioFloor: nat)

  /**
   * One file of the archive: its place in the central directory, the sizes
   * declared for it, and what the decompressor makes of it, which is a failure
   * to open it, or chunks followed by the end or by a failure.
   */
  datatype Entry = Entry(
    index: nat, declared: nat, stored: nat, unopened: Option<Status>, chunks: seq<Chunk>, fault: Option<Status>)

  function Concat(chunks: seq<Chunk>): Bytes {
    if chunks == [] then [] else chunks[0] + Concat(chunks[1..])
  }

  /** The whole of an entry, inflated. */
  function Content(entry: Entry): Bytes {
    Concat(entry.chunks)
  }

  predicate RatioAllowed(inflated: nat, stored: nat, limits: Limits) {
    inflated < limits.ratioFloor || stored == 0 || inflated / stored <= limits.maxRatio
  }

  /** What both rules ask of a size. */
  predicate SizeAllowed(size: nat, stored: nat, limits: Limits, remaining: nat) {
    size <= remaining && RatioAllowed(size, stored, limits)
  }

  /** The read loop; its precondition says that what is held never passes the remaining budget. */
  function Drain(out: Bytes, entry: Entry, chunks: seq<Chunk>, limits: Limits, remaining: nat): Result<Bytes, Status>
    requires |out| <= remaining
    decreases |chunks|
  {
    if chunks == [] then if entry.fault.Some? then Err(entry.fault.value) else Ok(out)
    else if !SizeAllowed(|out| + |chunks[0]|, entry.stored, limits, remaining) then Err(ResourceExhausted)
    else Drain(out + chunks[0], entry, chunks[1..], limits, remaining)
  }

  /** What reading an entry yields with `remaining` bytes of budget left. */
  function ReadOutcome(entry: Entry, limits: Limits, remaining: nat): Result<Bytes, Status> {
    if !SizeAllowed(entry.declared, entry.stored, limits, remaining) then Err(ResourceExhausted)
    else if entry.unopened.Some? then Err(entry.unopened.value)
    else Drain([], entry, entry.chunks, limits, remaining)
  }

  /** The running decompression budget of one call. */
  class Budget {
    var remaining: nat
    var consumed: nat
    var entries: nat
    /** The entries inflated so far, in order. */
    ghost var inflated: seq<nat>

    ghost predicate Valid()
      reads this
    {
      entries == |inflated|
    }

    constructor (limit: nat)
      ensures remaining == limit && consumed == 0 && entries == 0 && inflated == [] && Valid()
    {
      remaining, consumed, entries, inflated := limit, 0, 0, [];
    }

    /** Inflate one entry, checking both rules before every chunk is kept. */
    method ReadEntry(entry: Entry, limits: Limits) returns (r: Result<Bytes, Status>)
      requires Valid()
      modifies this
      ensures Valid()
      ensures r == ReadOutcome(entry, limits, old(remaining))
      ensures r.Ok? ==> remaining + |r.value| == old(remaining) && consumed == old(consumed) + |r.value|
      ensures r.Ok? ==> entries == old(entries) + 1 && inflated == old(inflated) + [entry.index]
      ensures r.Err? ==> unchanged(this)
    {
      if entry.declared > remaining {
        return Err(ResourceExhausted);
      }
      if !RatioAllowed(entry.declared, entry.stored, limits) {
        return Err(ResourceExhausted);
      }
      if entry.unopened.Some? {
        return Err(entry.unopened.value);
      }
      var ceiling := remaining;
      var out: Bytes := [];
      var next := 0;
      while next < |entry.chunks|
        invariant next <= |entry.chunks|
        invariant |out| <= ceiling
        invariant Drain(out, entry, entry.chunks[next..], limits, ceiling) ==
                  Drain([], entry, entry.chunks, limits, ceiling)
      {
        var chunk := entry.chunks[next];
        var size := |out| + |chunk|;
        if size > ceiling {
          return Err(ResourceExhausted);
        }
        if !RatioAllowed(size, entry.stored, limits) {
          return Err(ResourceExhausted);
        }
        out := out + chunk;
        next := next + 1;
      }
      if entry.fault.Some? {
        return Err(entry.fault.value);
      }
      DrainKeepsAll([], entry, entry.chunks, limits, ceiling);
      remaining := remaining - |out|;
      consumed := consumed + |out|;
      entries := entries + 1;
      inflated := inflated + [entry.index];
      return Ok(out);
    }
  }

  // ----- Chunking does not matter -----

  lemma SmallerIsAllowed(small: nat, large: nat, stored: nat, limits: Limits, remaining: nat)
    requires small <= large && SizeAllowed(large, stored, limits, remaining)
    ensures SizeAllowed(small, stored, limits, remaining)
  {
    if stored > 0 && large / stored <= limits.maxRatio {
      QuotientsGrow(small, large, stored);
    }
  }

  lemma QuotientsGrow(small: nat, large: nat, d: nat)
    requires small <= large && d > 0
    ensures small / d <= large / d
  {
    var p, q := small / d, large / d;
    assert p * d <= small && large < (q + 1) * d;
    Larger(p, q, d);
  }

  lemma Larger(p: nat, q: nat, d: nat)
    ensures p > q ==> p * d >= (q + 1) * d
  {
  }

  /** The loop accepts iff everything it was given is allowed in size, and then keeps all of it. */
  lemma {:induction false} DrainKeepsAll(out: Bytes, entry: Entry, chunks: seq<Chunk>, limits: Limits, remaining: nat)
    requires SizeAllowed(|out|, entry.stored, limits, remaining)
    ensures Drain(out, entry, chunks, limits, remaining) ==
            if !SizeAllowed(|out| + |Concat(chunks)|, entry.stored, limits, remaining) then Err(ResourceExhausted)
            else if entry.fault.Some? then Err(entry.fault.value)
            else Ok(out + Concat(chunks))
    decreases |chunks|
  {
    if chunks == [] {
      assert out + Concat(chunks) == out;
    } else {
      var grown := |out| + |chunks[0]|;
      if SizeAllowed(grown, entry.stored, limits, remaining) {
        DrainKeepsAll(out + chunks[0], entry, chunks[1..], limits, remaining);
        assert out + chunks[0] + Concat(chunks[1..]) == out + Concat(chunks);
      } else if SizeAllowed(|out| + |Concat(chunks)|, entry.stored, limits, remaining) {
        SmallerIsAllowed(grown, |out| + |Concat(chunks)|, entry.stored, limits, remaining);
      }
    }
  }

  /**
   * An entry is read iff its declared size and its actual size are both allowed
   * and the decompressor does not fail; what comes back is its whole content,
   * however it was cut into chunks.
   */
  lemma ReadIsBySizeAlone(entry: Entry, limits: Limits, remaining: nat)
    ensures ReadOutcome(entry, limits, remaining) ==
            if !SizeAllowed(entry.declared, entry.stored, limits, remaining) then Err(ResourceExhausted)
            else if entry.unopened.Some? then Err(entry.unopened.value)
            else if !SizeAllowed(|Content(entry)|, entry.stored, limits, remaining) then Err(ResourceExhausted)
            else if entry.fault.Some? then Err(entry.fault.value)
            else Ok(Content(entry))
  {
    DrainKeepsAll([], entry, entry.chunks, limits, remaining);
    assert [] + Concat(entry.chunks) == Concat(entry.chunks);
  }

  /**
   * Both rules on a size, written out: it fits the remaining budget, and it is small, or
   * nothing is stored, or it stays below one more than the allowed ratio times what is stored.
   */
  predicate Bounded(size: nat, stored: nat, limits: Limits, remaining: nat) {
    size <= remaining && (size < limits.ratioFloor || stored == 0 || size < (limits.maxRatio + 1) * stored)
  }

  lemma AllowedIsBounded(size: nat, stored: nat, limits: Limits, remaining: nat)
    ensures SizeAllowed(size, stored, limits, remaining) <==> Bounded(size, stored, limits, remaining)
  {
    if stored > 0 {
      RatioWrittenOut(size, stored, limits.maxRatio);
    }
  }

  lemma RatioWrittenOut(size: nat, stored: nat, ratio: nat)
    requires stored > 0
    ensures size / stored <= ratio <==> size < (ratio + 1) * stored
  {
    var q := size / stored;
    assert q * stored <= size < (q + 1) * stored;
    if q <= ratio {
      Multiplied(q + 1, ratio + 1, stored);
    } else {
      Multiplied(ratio + 1, q, stored);
    }
  }

  lemma Multiplied(a: nat, b: nat, d: nat)
    requires a <= b
    ensures a * d <= b * d
  {
  }

  /** The content of an entry is its chunks one behind the other. */
  lemma {:induction false} ContentInOrder(front: seq<Chunk>, chunk: Chunk, back: seq<Chunk>)
    ensures Concat(front + [chunk] + back) == Concat(front) + chunk + Concat(back)
  {
    if front == [] {
      assert front + [chunk] + back == [chunk] + back && ([chunk] + back)[1..] == back;
    } else {
      assert (front + [chunk] + back)[1..] == front[1..] + [chunk] + back;
      ContentInOrder(front[1..], chunk, back);
    }
  }

  /** An entry is read exactly when its declared and its actual size are bounded and nothing fails, and then whole. */
  lemma ReadExactlyWhen(entry: Entry, limits: Limits, remaining: nat)
    ensures var r := ReadOutcome(entry, limits, remaining);
            && (r.Ok? <==> Bounded(entry.declared, entry.stored, limits, remaining) && entry.unopened.None?
                           && Bounded(|Concat(entry.chunks)|, entry.stored, limits, remaining) && entry.fault.None?)
            && (r.Ok? ==> r.value == Concat(entry.chunks))
            && (!Bounded(entry.declared, entry.stored, limits, remaining) ==> r == Err(ResourceExhausted))
  {
    ReadIsBySizeAlone(entry, limits, remaining);
    AllowedIsBounded(entry.declared, entry.stored, limits, remaining);
    AllowedIsBounded(|Concat(entry.chunks)|, entry.stored, limits, remaining);
  }

  // ----- Sequences of reads -----

  /** What a budget says of the reads made against it. */
  datatype Spent = Spent(remaining: nat, consumed: nat, entries: nat)

  function Charge(b: Spent, entry: Entry, limits: Limits): Result<Spent, Status> {
    match ReadOutcome(entry, limits, b.remaining)
    case Err(status) => Err(status)
    case Ok(bytes) =>
      ReadIsBySizeAlone(entry, limits, b.remaining);
      Ok(Spent(b.remaining - |bytes|, b.consumed + |bytes|, b.entries + 1))
  }

  /** Every position asked for is in the archive. */
  predicate Within(archive: seq<Entry>, requests: seq<nat>) {
    forall k :: 0 <= k < |requests| ==> requests[k] < |archive|
  }

  /** Read `requests` one after another, stopping at the first failure. */
  function ChargeAll(b: Spent, archive: seq<Entry>, requests: seq<nat>, limits: Limits): Result<Spent, Status>
    requires Within(archive, requests)
    decreases |requests|
  {
    if requests == [] then Ok(b)
    else
      match Charge(b, archive[requests[0]], limits)
      case Err(status) => Err(status)
      case Ok(next) => ChargeAll(next, archive, requests[1..], limits)
  }

  /** Inflated bytes of a sequence of reads. */
  function Size(archive: seq<Entry>, requests: seq<nat>): nat
    requires Within(archive, requests)
  {
    if requests == [] then 0 else |Content(archive[requests[0]])| + Size(archive, requests[1..])
  }

  /** Nothing is lost: what is left and what was spent add up to the same after any reads. */
  lemma {:induction false} BudgetIsConserved(b: Spent, archive: seq<Entry>, requests: seq<nat>, limits: Limits)
    requires Within(archive, requests)
    requires ChargeAll(b, archive, requests, limits).Ok?
    ensures var after := ChargeAll(b, archive, requests, limits).value;
            && after.remaining + after.consumed == b.remaining + b.consumed
            && after.consumed == b.consumed + Size(archive, requests)
            && after.entries == b.entries + |requests|
    decreases |requests|
  {
    if requests != [] {
      ReadIsBySizeAlone(archive[requests[0]], limits, b.remaining);
      BudgetIsConserved(Charge(b, archive[requests[0]], limits).value, archive, requests[1..], limits);
    }
  }

  lemma {:induction false} ChargeAllSplits(b: Spent, archive: seq<Entry>, first: seq<nat>, rest: seq<nat>, limits: Limits)
    requires Within(archive, first) && Within(archive, rest)
    ensures ChargeAll(b, archive, first + rest, limits) ==
            match ChargeAll(b, archive, first, limits)
            case Err(status) => Err(status)
            case Ok(middle) => ChargeAll(middle, archive, rest, limits)
    decreases |first|
  {
    if first == [] {
      assert first + rest == rest;
    } else {
      assert (first + rest)[1..] == first[1..] + rest;
      var c := Charge(b, archive[first[0]], limits);
      if c.Ok? { ChargeAllSplits(c.value, archive, first[1..], rest, limits); }
    }
  }

  // ----- Archives whose headers tell the truth -----

  /** The declared size is the actual one and the decompressor does not fail. */
  predicate Honest(entry: Entry) {
    entry.declared == |Content(entry)| && entry.unopened.None? && entry.fault.None?
  }

  predicate RatioAllowedFor(entry: Entry, limits: Limits) {
    RatioAllowed(|Content(entry)|, entry.stored, limits)
  }

  /** With honest headers, reads succeed iff every ratio is allowed and the total fits: order plays no part. */
  lemma {:induction false} HonestReadsByTotal(b: Spent, archive: seq<Entry>, requests: seq<nat>, limits: Limits)
    requires Within(archive, requests)
    requires forall k :: 0 <= k < |requests| ==> Honest(archive[requests[k]])
    ensures ChargeAll(b, archive, requests, limits).Ok? <==>
            && Size(archive, requests) <= b.remaining
            && forall k :: 0 <= k < |requests| ==> RatioAllowedFor(archive[requests[k]], limits)
    decreases |requests|
  {
    if requests != [] {
      var entry := archive[requests[0]];
      ReadIsBySizeAlone(entry, limits, b.remaining);
      if Charge(b, entry, limits).Ok? {
        HonestReadsByTotal(Charge(b, entry, limits).value, archive, requests[1..], limits);
      }
      assert requests == [requests[0]] + requests[1..];
    }
  }

  lemma {:induction false} SizeOfConcat(archive: seq<Entry>, a: seq<nat>, b: seq<nat>)
    requires Within(archive, a) && Within(archive, b)
    ensures Size(archive, a + b) == Size(archive, a) + Size(archive, b)
    decreases |a|
  {
    if a == [] {
      assert a + b == b;
    } else {
      assert (a + b)[1..] == a[1..] + b;
      SizeOfConcat(archive, a[1..], b);
    }
  }

  /** The total depends on which entries are read, not on the order. */
  lemma {:induction false} SizeIgnoresOrder(archive: seq<Entry>, a: seq<nat>, b: seq<nat>)
    requires Within(archive, a) && Within(archive, b)
    requires multiset(a) == multiset(b)
    ensures Size(archive, a) == Size(archive, b) && |a| == |b|
    decreases |a|
  {
    if a == [] {
      assert |multiset(b)| == 0;
    } else {
      var k := Occurrence(a, b);
      var rest := b[..k] + b[k + 1..];
      SizeIgnoresOrder(archive, a[1..], rest);
      SizeOfConcat(archive, b[..k], b[k + 1..]);
      SizeOfConcat(archive, b[..k], b[k..]);
      assert b == b[..k] + b[k..];
    }
  }

  lemma TakenOut(a: multiset<nat>, one: multiset<nat>, rest: multiset<nat>, front: multiset<nat>, back: multiset<nat>)
    requires a == one + rest && a == front + one + back
    ensures rest == front + back
  {
    assert front + one + back == one + (front + back);
    assert (one + rest) - one == rest && (one + (front + back)) - one == front + back;
  }

  /** The first of `a`, found in `b` and taken out of both. */
  lemma Occurrence(a: seq<nat>, b: seq<nat>) returns (k: nat)
    requires multiset(a) == multiset(b) && a != []
    ensures k < |b| && b[k] == a[0]
    ensures multiset(a[1..]) == multiset(b[..k] + b[k + 1..])
  {
    assert a[0] in multiset(b);
    k :| k < |b| && b[k] == a[0];
    var front, back := b[..k], b[k + 1..];
    assert a == [a[0]] + a[1..];
    assert b == front + [b[k]] + back;
    TakenOut(multiset(a), multiset([a[0]]), multiset(a[1..]), multiset(front), multiset(back));
  }

  /** Two successful runs of reads that differ by `extra` differ by exactly what `extra` inflates to. */
  lemma CostOfMore(b: Spent, archive: seq<Entry>, less: seq<nat>, extra: seq<nat>, more: seq<nat>, limits: Limits)
    requires Within(archive, less) && Within(archive, extra) && Within(archive, more)
    requires multiset(less + extra) == multiset(more)
    requires ChargeAll(b, archive, less, limits).Ok? && ChargeAll(b, archive, more, limits).Ok?
    ensures var x, y := ChargeAll(b, archive, less, limits).value, ChargeAll(b, archive, more, limits).value;
            && y.consumed == x.consumed + Size(archive, extra)
            && y.entries == x.entries + |extra|
            && y.remaining + Size(archive, extra) == x.remaining
  {
    BudgetIsConserved(b, archive, less, limits);
    BudgetIsConserved(b, archive, more, limits);
    SizeIgnoresOrder(archive, less + extra, more);
    SizeOfConcat(archive, less, extra);
  }

  lemma SameRatios(archive: seq<Entry>, x: seq<nat>, y: seq<nat>, limits: Limits)
    requires Within(archive, x) && Within(archive, y) && multiset(x) == multiset(y)
    requires forall k :: 0 <= k < |x| ==> RatioAllowedFor(archive[x[k]], limits)
    ensures forall k :: 0 <= k < |y| ==> RatioAllowedFor(archive[y[k]], limits)
  {
    forall k | 0 <= k < |y| ensures RatioAllowedFor(archive[y[k]], limits) {
      assert y[k] in multiset(x);
      assert y[k] in x;
    }
  }

  /** With honest headers, the order of reads decides nothing. */
  lemma HonestOrderIsFree(b: Spent, archive: seq<Entry>, x: seq<nat>, y: seq<nat>, limits: Limits)
    requires Within(archive, x) && Within(archive, y) && multiset(x) == multiset(y)
    requires forall e :: 0 <= e < |archive| ==> Honest(archive[e])
    ensures ChargeAll(b, archive, x, limits).Ok? <==> ChargeAll(b, archive, y, limits).Ok?
  {
    SizeIgnoresOrder(archive, x, y);
    HonestReadsByTotal(b, archive, x, limits);
    HonestReadsByTotal(b, archive, y, limits);
    if ChargeAll(b, archive, x, limits).Ok? { SameRatios(archive, x, y, limits); }
    if ChargeAll(b, archive, y, limits).Ok? { SameRatios(archive, y, x, limits); }
  }
}
