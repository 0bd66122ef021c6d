/** The order in which the walk sends chapters and resources. */
module Interleaving {
  import opened Manifest
  import opened Passes

  /** The numbers from `low` up to `high`. */
  function Range(low: nat, high: nat): seq<nat>
    requires low <= high
    decreases high - low
  {
    if low == high then [] else [low] + Range(low + 1, high)
  }

  /** The spine positions among some steps, in order. */
  function ChaptersIn(slots: seq<Slot>): seq<nat> {
    if slots == [] then []
    else (if slots[0].ChapterSlot? then [slots[0].k] else []) + ChaptersIn(slots[1..])
  }

  /** The planned resources among some steps, in order. */
  function ResourcesIn(slots: seq<Slot>): seq<nat> {
    if slots == [] then []
    else (if slots[0].ResourceSlot? then [slots[0].q] else []) + ResourcesIn(slots[1..])
  }

  predicate ResourceIsNext(b: Book, k: nat, q: nat)
    requires ValidBook(b) && k <= |b.spine| && q <= |b.pending|
  {
    q < |b.pending| && (k == |b.spine| || b.pending[q].entry < ChapterEntry(b.items, b.spine[k]))
  }

  lemma WalkUnfolds(b: Book, k: nat, q: nat)
    requires ValidBook(b) && k <= |b.spine| && q <= |b.pending|
    ensures ResourceIsNext(b, k, q) ==> WalkFrom(b, k, q) == [ResourceSlot(q)] + WalkFrom(b, k, q + 1)
    ensures !ResourceIsNext(b, k, q) && k < |b.spine| ==> WalkFrom(b, k, q) == [ChapterSlot(k)] + WalkFrom(b, k + 1, q)
    ensures !ResourceIsNext(b, k, q) && k == |b.spine| ==> WalkFrom(b, k, q) == [] && q == |b.pending|
  {
  }

  lemma FilterFirst(slot: Slot, rest: seq<Slot>)
    ensures ChaptersIn([slot] + rest) == (if slot.ChapterSlot? then [slot.k] else []) + ChaptersIn(rest)
    ensures ResourcesIn([slot] + rest) == (if slot.ResourceSlot? then [slot.q] else []) + ResourcesIn(rest)
  {
    assert ([slot] + rest)[1..] == rest;
  }

  /**
   * Every chapter and every planned resource is sent exactly once: chapters in
   * spine order, resources in archive order.
   */
  lemma {:induction false} EachIsSentOnceInOrder(b: Book, k: nat, q: nat)
    requires ValidBook(b) && k <= |b.spine| && q <= |b.pending|
    ensures ChaptersIn(WalkFrom(b, k, q)) == Range(k, |b.spine|)
    ensures ResourcesIn(WalkFrom(b, k, q)) == Range(q, |b.pending|)
    ensures |WalkFrom(b, k, q)| == |b.spine| - k + |b.pending| - q
    decreases |b.spine| - k + |b.pending| - q
  {
    WalkUnfolds(b, k, q);
    if ResourceIsNext(b, k, q) {
      EachIsSentOnceInOrder(b, k, q + 1);
      FilterFirst(ResourceSlot(q), WalkFrom(b, k, q + 1));
    } else if k < |b.spine| {
      EachIsSentOnceInOrder(b, k + 1, q);
      FilterFirst(ChapterSlot(k), WalkFrom(b, k + 1, q));
    }
  }

  /** Some chapter from `from` up to and including `k` lies behind `entry` in the archive. */
  ghost predicate PassedBy(b: Book, from: nat, k: nat, entry: nat)
    requires ValidBook(b) && k < |b.spine|
  {
    exists m :: from <= m <= k && ChapterEntry(b.items, b.spine[m]) > entry
  }

  /** No chapter before `k` lies behind a resource that is still to be sent. */
  ghost predicate NoneOvertaken(b: Book, k: nat, q: nat)
    requires ValidBook(b) && k <= |b.spine|
  {
    forall m, r :: 0 <= m < k && q <= r < |b.pending| ==> ChapterEntry(b.items, b.spine[m]) <= b.pending[r].entry
  }

  /** Steps of a walk name chapters from `k` on and resources from `q` on. */
  lemma {:induction false} StepsAreLater(b: Book, k: nat, q: nat, i: nat)
    requires ValidBook(b) && k <= |b.spine| && q <= |b.pending| && i < |WalkFrom(b, k, q)|
    ensures match WalkFrom(b, k, q)[i]
            case ChapterSlot(m) => k <= m < |b.spine|
            case ResourceSlot(r) => q <= r < |b.pending|
    decreases |b.spine| - k + |b.pending| - q
  {
    WalkUnfolds(b, k, q);
    if i == 0 {
    } else {
      if ResourceIsNext(b, k, q) {
        StepsAreLater(b, k, q + 1, i - 1);
      } else {
        StepsAreLater(b, k + 1, q, i - 1);
      }
    }
  }

  lemma ResourceStep(b: Book, k: nat, q: nat)
    requires ValidBook(b) && k <= |b.spine| && q <= |b.pending| && NoneOvertaken(b, k, q)
    ensures ResourceIsNext(b, k, q) ==> NoneOvertaken(b, k, q + 1)
    ensures !ResourceIsNext(b, k, q) && k < |b.spine| ==> NoneOvertaken(b, k + 1, q)
  {
  }

  /** A resource sent now is before a chapter that lies behind it. */
  lemma ResourceGoesFirst(b: Book, k: nat, q: nat, m: nat)
    requires ValidBook(b) && k <= m < |b.spine| && q < |b.pending| && ResourceIsNext(b, k, q)
    ensures PassedBy(b, 0, m, b.pending[q].entry)
  {
    assert ChapterEntry(b.items, b.spine[k]) > b.pending[q].entry;
  }

  /** A chapter sent now is before resources that no chapter so far lies behind. */
  lemma ChapterGoesFirst(b: Book, k: nat, q: nat, r: nat)
    requires ValidBook(b) && k < |b.spine| && q <= r < |b.pending| && !ResourceIsNext(b, k, q) && NoneOvertaken(b, k, q)
    ensures !PassedBy(b, 0, k, b.pending[r].entry)
  {
    assert b.pending[q].entry <= b.pending[r].entry;
  }

  /** Where a resource and a chapter stand to each other, for a walk from `k` and `q` on. */
  lemma {:induction false} OrderFrom(b: Book, k: nat, q: nat, i: nat, j: nat, r: nat, m: nat)
    requires ValidBook(b) && k <= |b.spine| && q <= |b.pending| && NoneOvertaken(b, k, q)
    requires r < |b.pending| && m < |b.spine|
    requires i < |WalkFrom(b, k, q)| && WalkFrom(b, k, q)[i] == ResourceSlot(r)
    requires j < |WalkFrom(b, k, q)| && WalkFrom(b, k, q)[j] == ChapterSlot(m)
    ensures i < j <==> PassedBy(b, 0, m, b.pending[r].entry)
    decreases |b.spine| - k + |b.pending| - q
  {
    StepsAreLater(b, k, q, i);
    StepsAreLater(b, k, q, j);
    WalkUnfolds(b, k, q);
    ResourceStep(b, k, q);
    if ResourceIsNext(b, k, q) {
      if i == 0 {
        ResourceGoesFirst(b, k, q, m);
      } else {
        OrderFrom(b, k, q + 1, i - 1, j - 1, r, m);
      }
    } else if j == 0 {
      ChapterGoesFirst(b, k, q, r);
    } else {
      OrderFrom(b, k + 1, q, i - 1, j - 1, r, m);
    }
  }

  /**
   * A resource is sent before a chapter iff that chapter, or one sent before
   * it, lies behind the resource in the archive.
   */
  lemma ResourcePrecedesChapterExactlyWhen(b: Book, i: nat, j: nat, r: nat, m: nat)
    requires ValidBook(b) && r < |b.pending| && m < |b.spine|
    requires i < |WalkSlots(b)| && WalkSlots(b)[i] == ResourceSlot(r)
    requires j < |WalkSlots(b)| && WalkSlots(b)[j] == ChapterSlot(m)
    ensures i < j <==> PassedBy(b, 0, m, b.pending[r].entry)
  {
    OrderFrom(b, 0, 0, i, j, r, m);
  }
}
