/** What the read-ahead cache costs and leaves behind: nothing that plain re-reading would not show. */
module ReadAhead {
  import opened Archive
  import opened Manifest
  import opened Outcomes
  import opened Passes

  // ----- The overlay pass -----

  /** The overlay entries of the pairs from `at` on. */
  function EntriesFrom(entries: seq<Option<nat>>, at: nat): set<nat> {
    set k | at <= k < |entries| && entries[k].Some? :: entries[k].value
  }

  lemma EntriesFromNext(entries: seq<Option<nat>>, at: nat)
    requires at < |entries|
    ensures entries[at].None? ==> EntriesFrom(entries, at) == EntriesFrom(entries, at + 1)
    ensures entries[at].Some? ==> EntriesFrom(entries, at) == {entries[at].value} + EntriesFrom(entries, at + 1)
    ensures entries[at].Some? ==>
              (UsedAfter(entries, at, entries[at].value) <==> entries[at].value in EntriesFrom(entries, at + 1))
  {
  }

  /** One pair of the pass: what is left to inflate, and what the cache may hold. */
  lemma OnePair(entries: seq<Option<nat>>, at: nat, willEmit: set<nat>, held: set<nat>)
    requires at < |entries| && entries[at].Some? && held <= willEmit + EntriesFrom(entries, at)
    ensures var e, held' := entries[at].value, HeldAfter(entries, at, willEmit, held);
            && held' <= willEmit + EntriesFrom(entries, at + 1)
            && e !in EntriesFrom(entries, at + 1) - held'
            && EntriesFrom(entries, at) - held ==
               (if e in held then {} else {e}) + (EntriesFrom(entries, at + 1) - held')
  {
    EntriesFromNext(entries, at);
  }

  lemma AddOne(e: nat, s: set<nat>)
    requires e !in s
    ensures multiset({e} + s) == multiset{e} + multiset(s)
  {
  }

  /** The pass inflates each overlay not yet in the cache once, however many items it narrates. */
  lemma {:induction false} OverlaysAreInflatedOnce(entries: seq<Option<nat>>, at: nat, willEmit: set<nat>, held: set<nat>)
    requires at <= |entries| && held <= willEmit + EntriesFrom(entries, at)
    ensures multiset(OverlayRequests(entries, at, willEmit, held)) == multiset(EntriesFrom(entries, at) - held)
    decreases |entries| - at
  {
    if at == |entries| {
      assert EntriesFrom(entries, at) - held == {};
    } else if entries[at].None? {
      EntriesFromNext(entries, at);
      OverlaysAreInflatedOnce(entries, at + 1, willEmit, held);
    } else {
      var e, held' := entries[at].value, HeldAfter(entries, at, willEmit, held);
      OnePair(entries, at, willEmit, held);
      OverlaysAreInflatedOnce(entries, at + 1, willEmit, held');
      var rest := EntriesFrom(entries, at + 1) - held';
      AddOne(e, rest);
      if e in held {
        assert {} + rest == rest;
        assert [] + OverlayRequests(entries, at + 1, willEmit, held') == OverlayRequests(entries, at + 1, willEmit, held');
      }
    }
  }

  /** After the pass the cache holds what the walk will send, and nothing else. */
  lemma {:induction false} OverlaysHeldForTheWalk(entries: seq<Option<nat>>, at: nat, willEmit: set<nat>, held: set<nat>)
    requires at <= |entries| && held <= willEmit + EntriesFrom(entries, at)
    ensures OverlayHeld(entries, at, willEmit, held) == (held + EntriesFrom(entries, at)) * willEmit
    decreases |entries| - at
  {
    if at < |entries| {
      EntriesFromNext(entries, at);
      if entries[at].None? {
        OverlaysHeldForTheWalk(entries, at + 1, willEmit, held);
      } else {
        var held' := HeldAfter(entries, at, willEmit, held);
        OverlaysHeldForTheWalk(entries, at + 1, willEmit, held');
        assert (held' + EntriesFrom(entries, at + 1)) * willEmit == (held + EntriesFrom(entries, at)) * willEmit;
      }
    } else {
      assert EntriesFrom(entries, at) == {};
      assert (held + {}) * willEmit == held;
    }
  }

  // ----- The walk -----

  function Elements(s: seq<nat>): set<nat> {
    set k | 0 <= k < |s| :: s[k]
  }

  lemma ElementsFirst(s: seq<nat>)
    requires s != []
    ensures Elements(s) == {s[0]} + Elements(s[1..])
  {
    forall x ensures x in Elements(s) <==> x in {s[0]} + Elements(s[1..]) {
      if x in Elements(s) && x != s[0] {
        var k :| 0 <= k < |s| && s[k] == x;
        assert s[1..][k - 1] == x;
      }
    }
  }

  /** The walk inflates exactly what it sends and the cache does not hold, repeats included. */
  lemma {:induction false} WalkInflatesTheRest(entries: seq<nat>, held: set<nat>)
    requires held <= Elements(entries)
    ensures multiset(WalkRequests(entries, held)) + multiset(held) == multiset(entries)
    decreases |entries|
  {
    if entries == [] {
      assert held == {};
    } else {
      ElementsFirst(entries);
      var e, held' := entries[0], held - {entries[0]};
      WalkInflatesTheRest(entries[1..], held');
      FirstOut(entries);
      if e in held {
        AddOne(e, held');
        assert {e} + held' == held;
      } else {
        assert held == held';
        assert WalkRequests(entries, held) == [e] + WalkRequests(entries[1..], held');
      }
    }
  }

  lemma FirstOut(s: seq<nat>)
    requires s != []
    ensures multiset(s) == multiset{s[0]} + multiset(s[1..])
  {
    assert s == [s[0]] + s[1..];
  }

  lemma {:induction false} WalkTakesEverything(entries: seq<nat>, held: set<nat>)
    ensures WalkHeld(entries, held) == held - Elements(entries)
    decreases |entries|
  {
    if entries != [] {
      ElementsFirst(entries);
      WalkTakesEverything(entries[1..], held - {entries[0]});
    }
  }

  // ----- The walk as a merge of two sequences of entries -----

  /** The entries of the spine, in reading order. */
  function ChapterSeq(b: Book): (s: seq<nat>)
    requires ValidBook(b)
    ensures |s| == |b.spine| && forall k :: 0 <= k < |s| ==> s[k] == ChapterEntry(b.items, b.spine[k])
  {
    seq(|b.spine|, k requires 0 <= k < |b.spine| => ChapterEntry(b.items, b.spine[k]))
  }

  /** The entries of the planned resources, in archive order. */
  function PendingSeq(b: Book): (s: seq<nat>)
    ensures |s| == |b.pending| && forall q :: 0 <= q < |s| ==> s[q] == b.pending[q].entry
  {
    seq(|b.pending|, q requires 0 <= q < |b.pending| => b.pending[q].entry)
  }

  /** Each of `c` in turn, after those of `p` that are smaller than it, and the rest of `p` at the end. */
  function Merge(c: seq<nat>, p: seq<nat>, k: nat, q: nat): seq<nat>
    requires k <= |c| && q <= |p|
    decreases |c| - k + |p| - q
  {
    if q < |p| && (k == |c| || p[q] < c[k]) then [p[q]] + Merge(c, p, k, q + 1)
    else if k < |c| then [c[k]] + Merge(c, p, k + 1, q)
    else []
  }

  /** The chapter and resource entries of a book, as the merge takes them. */
  ghost predicate EntriesOf(b: Book, c: seq<nat>, p: seq<nat>)
    requires ValidBook(b)
  {
    && |c| == |b.spine| && (forall i :: 0 <= i < |c| ==> c[i] == ChapterEntry(b.items, b.spine[i]))
    && |p| == |b.pending| && (forall i :: 0 <= i < |p| ==> p[i] == b.pending[i].entry)
  }

  lemma MergeTakesResource(b: Book, c: seq<nat>, p: seq<nat>, k: nat, q: nat)
    requires ValidBook(b) && EntriesOf(b, c, p) && k <= |c| && q < |p| && (k == |c| || p[q] < c[k])
    requires SlotEntries(b, WalkFrom(b, k, q + 1)) == Merge(c, p, k, q + 1)
    ensures SlotEntries(b, WalkFrom(b, k, q)) == Merge(c, p, k, q)
  {
    SlotsFirst(b, WalkFrom(b, k, q), ResourceSlot(q), WalkFrom(b, k, q + 1));
  }

  lemma MergeTakesChapter(b: Book, c: seq<nat>, p: seq<nat>, k: nat, q: nat)
    requires ValidBook(b) && EntriesOf(b, c, p) && k < |c| && q <= |p| && (q == |p| || p[q] >= c[k])
    requires SlotEntries(b, WalkFrom(b, k + 1, q)) == Merge(c, p, k + 1, q)
    ensures SlotEntries(b, WalkFrom(b, k, q)) == Merge(c, p, k, q)
  {
    SlotsFirst(b, WalkFrom(b, k, q), ChapterSlot(k), WalkFrom(b, k + 1, q));
  }

  lemma {:induction false} WalkMerges(b: Book, c: seq<nat>, p: seq<nat>, k: nat, q: nat)
    requires ValidBook(b) && EntriesOf(b, c, p) && k <= |c| && q <= |p|
    ensures SlotEntries(b, WalkFrom(b, k, q)) == Merge(c, p, k, q)
    decreases |c| - k + |p| - q
  {
    if q < |p| && (k == |c| || p[q] < c[k]) {
      WalkMerges(b, c, p, k, q + 1);
      MergeTakesResource(b, c, p, k, q);
    } else if k < |c| {
      WalkMerges(b, c, p, k + 1, q);
      MergeTakesChapter(b, c, p, k, q);
    }
  }

  lemma CountFirst(s: seq<nat>, first: nat, rest: seq<nat>, e: nat)
    requires s == [first] + rest
    ensures multiset(s)[e] == (if first == e then 1 else 0) + multiset(rest)[e]
  {
  }

  lemma CountFrom(s: seq<nat>, k: nat, e: nat)
    requires k < |s|
    ensures multiset(s[k..])[e] == (if s[k] == e then 1 else 0) + multiset(s[k + 1..])[e]
  {
    assert s[k..] == [s[k]] + s[k + 1..];
    CountFirst(s[k..], s[k], s[k + 1..], e);
  }

  /** One more element at the front of a merge and of one of its parts. */
  lemma CountsAgree(merged: seq<nat>, first: nat, rest: seq<nat>, part: seq<nat>, k: nat, other: nat, e: nat)
    requires merged == [first] + rest && k < |part| && part[k] == first
    requires multiset(rest)[e] == multiset(part[k + 1..])[e] + other
    ensures multiset(merged)[e] == multiset(part[k..])[e] + other
  {
    CountFirst(merged, first, rest, e);
    CountFrom(part, k, e);
  }

  /** A merge holds each entry as often as its two parts do together. */
  lemma {:induction false} MergeCounts(c: seq<nat>, p: seq<nat>, k: nat, q: nat, e: nat)
    requires k <= |c| && q <= |p|
    ensures multiset(Merge(c, p, k, q))[e] == multiset(c[k..])[e] + multiset(p[q..])[e]
    decreases |c| - k + |p| - q
  {
    if q < |p| && (k == |c| || p[q] < c[k]) {
      MergeCounts(c, p, k, q + 1, e);
      CountsAgree(Merge(c, p, k, q), p[q], Merge(c, p, k, q + 1), p, q, multiset(c[k..])[e], e);
    } else if k < |c| {
      MergeCounts(c, p, k + 1, q, e);
      CountsAgree(Merge(c, p, k, q), c[k], Merge(c, p, k + 1, q), c, k, multiset(p[q..])[e], e);
    }
  }

  lemma CountPositive(s: seq<nat>, e: nat)
    ensures multiset(s)[e] > 0 <==> e in Elements(s)
  {
    if multiset(s)[e] > 0 { assert e in s; }
  }

  /** How often the walk sends an entry: as often as the spine names it, and as often as it is planned. */
  lemma WalkCounts(b: Book, e: nat)
    requires ValidBook(b)
    ensures multiset(SlotEntries(b, WalkSlots(b)))[e] == multiset(ChapterSeq(b))[e] + multiset(PendingSeq(b))[e]
  {
    WalkMerges(b, ChapterSeq(b), PendingSeq(b), 0, 0);
    MergeCounts(ChapterSeq(b), PendingSeq(b), 0, 0, e);
    assert ChapterSeq(b)[0..] == ChapterSeq(b) && PendingSeq(b)[0..] == PendingSeq(b);
  }

  lemma PartsOfThePlan(b: Book)
    requires ValidBook(b)
    ensures Elements(ChapterSeq(b)) == ChapterEntries(b.items, b.spine)
    ensures WillEmit(b) == Elements(ChapterSeq(b)) + Elements(PendingSeq(b))
  {
    assert Elements(PendingSeq(b)) == set q | 0 <= q < |b.pending| :: b.pending[q].entry;
  }

  lemma WalkSendsThePlan(b: Book)
    requires ValidBook(b)
    ensures Elements(SlotEntries(b, WalkSlots(b))) == WillEmit(b)
  {
    var walk := SlotEntries(b, WalkSlots(b));
    PartsOfThePlan(b);
    forall e: nat ensures e in Elements(walk) <==> e in WillEmit(b) {
      WalkCounts(b, e);
      CountPositive(walk, e);
      CountPositive(ChapterSeq(b), e);
      CountPositive(PendingSeq(b), e);
    }
  }

  // ----- All three passes -----

  /** Overlay entries the options ask for that the walk will not send. */
  function OverlaysOnly(b: Book, o: Options): set<nat>
    requires ValidBook(b)
  {
    EntriesFrom(OverlaysAsked(b, o), 0) - WillEmit(b)
  }

  /** The navigation entry, when it is read and the walk will not send it. */
  function NavOnly(b: Book, o: Options): seq<nat>
    requires ValidBook(b)
  {
    if o.parseNavigation && b.nav.Some? && b.nav.value.entry !in WillEmit(b) then [b.nav.value.entry] else []
  }

  /**
   * The exact account of a call: one inflation for every step of the walk, one
   * for every overlay the walk does not send, and one for a navigation document
   * the walk does not send.
   */
  lemma InflationsAccountedFor(b: Book, o: Options)
    requires ValidBook(b)
    ensures multiset(Requests(b, o)) ==
            multiset(SlotEntries(b, WalkSlots(b))) + multiset(OverlaysOnly(b, o)) + multiset(NavOnly(b, o))
  {
    var entries, willEmit, held := OverlaysAsked(b, o), WillEmit(b), NavHeld(b, o);
    var walk, kept := SlotEntries(b, WalkSlots(b)), OverlayHeld(entries, 0, willEmit, held);
    var used := EntriesFrom(entries, 0);
    OverlaysAreInflatedOnce(entries, 0, willEmit, held);
    OverlaysHeldForTheWalk(entries, 0, willEmit, held);
    WalkSendsThePlan(b);
    WalkInflatesTheRest(walk, kept);
    KeptOrOnly(used, willEmit, held);
    NavIsHeldOrOnly(b, o);
    Balance(
      multiset(NavRequests(b, o)), multiset(OverlayRequests(entries, 0, willEmit, held)), multiset(WalkRequests(walk, kept)),
      multiset(walk), multiset(held), multiset(kept), multiset(used - held), multiset(used - willEmit),
      multiset(NavOnly(b, o)));
  }

  lemma NavIsHeldOrOnly(b: Book, o: Options)
    requires ValidBook(b)
    ensures NavHeld(b, o) <= WillEmit(b)
    ensures multiset(NavRequests(b, o)) == multiset(NavHeld(b, o)) + multiset(NavOnly(b, o))
  {
    if o.parseNavigation && b.nav.Some? {
      assert multiset({b.nav.value.entry}) == multiset([b.nav.value.entry]);
    }
  }

  lemma Balance(
      nav: multiset<nat>, ahead: multiset<nat>, rest: multiset<nat>, walk: multiset<nat>, held: multiset<nat>,
      kept: multiset<nat>, unread: multiset<nat>, only: multiset<nat>, navOnly: multiset<nat>)
    requires ahead == unread && rest + kept == walk && held + unread == kept + only && nav == held + navOnly
    ensures nav + ahead + rest == walk + only + navOnly
  {
    assert nav + ahead + rest == (held + unread) + navOnly + rest;
    assert (kept + only) + navOnly + rest == (rest + kept) + only + navOnly;
  }

  /** Overlays to inflate, and what the cache then holds, add up to what it held and what the walk will not send. */
  lemma KeptOrOnly(used: set<nat>, willEmit: set<nat>, held: set<nat>)
    requires held <= willEmit
    ensures multiset(held) + multiset(used - held) == multiset((held + used) * willEmit) + multiset(used - willEmit)
  {
    assert held + (used - held) == (held + used) * willEmit + (used - willEmit);
    assert held !! (used - held) && ((held + used) * willEmit) !! (used - willEmit);
    assert multiset(held) + multiset(used - held) == multiset(held + (used - held));
    assert multiset((held + used) * willEmit) + multiset(used - willEmit)
           == multiset((held + used) * willEmit + (used - willEmit));
  }

  /** Nothing read ahead outlives the walk, whatever the book and the options. */
  lemma NothingIsLeftOver(b: Book, o: Options)
    requires ValidBook(b)
    ensures WalkHeld(SlotEntries(b, WalkSlots(b)), HeldAhead(b, o)) == {}
  {
    OverlaysHeldForTheWalk(OverlaysAsked(b, o), 0, WillEmit(b), NavHeld(b, o));
    WalkSendsThePlan(b);
    WalkTakesEverything(SlotEntries(b, WalkSlots(b)), HeldAhead(b, o));
  }

  // ----- At most once -----

  /** No entry is listed twice. */
  ghost predicate NoRepeats(s: seq<nat>) {
    forall e: nat :: multiset(s)[e] <= 1
  }

  /** No planned resource is planned twice. */
  lemma PendingOnce(b: Book, e: nat)
    requires ValidBook(b)
    ensures multiset(PendingSeq(b))[e] == if e in Elements(PendingSeq(b)) then 1 else 0
  {
    IncreasingOnce(PendingSeq(b), e);
  }

  lemma {:induction false} IncreasingOnce(s: seq<nat>, e: nat)
    requires forall i, j :: 0 <= i < j < |s| ==> s[i] < s[j]
    ensures multiset(s)[e] <= 1 && (multiset(s)[e] == 1 <==> e in Elements(s))
  {
    CountPositive(s, e);
    if s != [] {
      IncreasingOnce(s[1..], e);
      CountFirst(s, s[0], s[1..], e);
      assert forall j :: 0 <= j < |s[1..]| ==> s[1..][j] > s[0];
    }
  }

  /**
   * How often the walk of a settled book sends a file: once for each place in the spine
   * that is read from it, or else once when some item that names it is planned, and never
   * exactly when every item that names it is skipped.
   */
  lemma FatesAgreeWithTheWalk(
      archive: seq<Entry>, items: seq<Item>, spine: seq<SpineSlot>, tocIdref: string, obfuscated: set<nat>, readers: Readers,
      b: Book, e: nat)
    requires ValidSpine(items, spine) && b == BookOf(archive, items, spine, tocIdref, obfuscated, readers) && ValidBook(b)
    ensures var sent := multiset(SlotEntries(b, WalkSlots(b)))[e];
            && (SomeNaming(items, spine, obfuscated, e, SentAsChapter) ==> sent == multiset(ChapterSeq(b))[e] > 0)
            && (SomeNaming(items, spine, obfuscated, e, Planned(e)) ==> sent == 1 && multiset(ChapterSeq(b))[e] == 0)
            && (sent == 0 <==>
                  forall p :: 0 <= p < |items| && items[p].entry == Some(e) ==> FateOf(items, spine, obfuscated, p) == Skipped)
  {
    FatesOfOneFile(items, spine, obfuscated, e);
    WalkCounts(b, e);
    PendingOnce(b, e);
    CountPositive(ChapterSeq(b), e);
    PartsOfThePlan(b);
    assert e in Elements(PendingSeq(b)) <==> InPlan(b.pending, e);
  }

  /** How often a call inflates each entry. */
  lemma InflationsOf(b: Book, o: Options, e: nat)
    requires ValidBook(b)
    ensures multiset(Requests(b, o))[e] ==
            multiset(ChapterSeq(b))[e]
            + (if e in Elements(PendingSeq(b)) then 1 else 0)
            + (if e in OverlaysOnly(b, o) then 1 else 0)
            + (if NavOnly(b, o) == [e] then 1 else 0)
    ensures e in Elements(PendingSeq(b)) || e in OverlaysOnly(b, o) || NavOnly(b, o) == [e] ==>
              multiset(ChapterSeq(b))[e] == 0
    ensures e in OverlaysOnly(b, o) || NavOnly(b, o) == [e] ==> e !in Elements(PendingSeq(b))
  {
    InflationsAccountedFor(b, o);
    WalkCounts(b, e);
    PendingOnce(b, e);
    CountPositive(ChapterSeq(b), e);
    PartsOfThePlan(b);
    if e in Elements(PendingSeq(b)) {
      var q :| 0 <= q < |b.pending| && b.pending[q].entry == e;
    }
    assert multiset(NavOnly(b, o))[e] == if NavOnly(b, o) == [e] then 1 else 0;
  }

  /**
   * A call inflates no entry twice iff the spine names no file twice and the
   * navigation document is not one that the walk skips and an overlay link uses.
   */
  lemma AtMostOnceExactlyWhen(b: Book, o: Options)
    requires ValidBook(b)
    ensures NoRepeats(Requests(b, o)) <==>
            NoRepeats(ChapterSeq(b)) && !(NavOnly(b, o) != [] && NavOnly(b, o)[0] in OverlaysOnly(b, o))
  {
    forall e: nat ensures multiset(Requests(b, o))[e] <= 1 <==>
                     multiset(ChapterSeq(b))[e] <= 1 && !(NavOnly(b, o) == [e] && e in OverlaysOnly(b, o)) {
      InflationsOf(b, o, e);
    }
    if NavOnly(b, o) != [] {
      assert NavOnly(b, o) == [NavOnly(b, o)[0]];
    }
  }

  // ----- The navigation document -----

  /** Options that differ only in reading the navigation document. */
  predicate SameButNavigation(a: Options, c: Options) {
    a.parseOverlays == c.parseOverlays
  }

  lemma OutlineRequests(b: Book, on: Options, off: Options)
    requires ValidBook(b) && SameButNavigation(on, off) && !off.parseNavigation
    ensures multiset(Requests(b, off) + NavOnly(b, on)) == multiset(Requests(b, on))
  {
    InflationsAccountedFor(b, on);
    InflationsAccountedFor(b, off);
    var walk, only := multiset(SlotEntries(b, WalkSlots(b))), multiset(OverlaysOnly(b, on));
    AddedLast(multiset(Requests(b, on)), multiset(Requests(b, off)), walk, only, multiset(NavOnly(b, on)));
    assert multiset(Requests(b, off) + NavOnly(b, on)) == multiset(Requests(b, off)) + multiset(NavOnly(b, on));
  }

  lemma AddedLast(all: multiset<nat>, some: multiset<nat>, walk: multiset<nat>, only: multiset<nat>, extra: multiset<nat>)
    requires all == walk + only + extra && some == walk + only + multiset([])
    ensures some + extra == all
  {
  }

  /** Reading the navigation document costs its inflation when the walk will not send it, and nothing otherwise. */
  lemma CostOfTheOutline(b: Book, limits: Limits, from: Spent, on: Options, off: Options)
    requires ValidBook(b) && SameButNavigation(on, off) && on.parseNavigation && !off.parseNavigation
    requires ChargeAll(from, b.archive, Requests(b, on), limits).Ok?
    requires ChargeAll(from, b.archive, Requests(b, off), limits).Ok?
    ensures var reading := ChargeAll(from, b.archive, Requests(b, on), limits).value;
            var skipping := ChargeAll(from, b.archive, Requests(b, off), limits).value;
            && reading.consumed == skipping.consumed + Size(b.archive, NavOnly(b, on))
            && reading.remaining + Size(b.archive, NavOnly(b, on)) == skipping.remaining
            && reading.entries == skipping.entries + |NavOnly(b, on)|
  {
    OutlineRequests(b, on, off);
    CostOfMore(from, b.archive, Requests(b, off), NavOnly(b, on), Requests(b, on), limits);
  }

  /** With honest headers, and a navigation document the walk sends, reading it cannot make a call fail. */
  lemma ReadingAheadCannotFail(b: Book, limits: Limits, from: Spent, a: Options, c: Options)
    requires ValidBook(b) && SameButNavigation(a, c)
    requires b.nav.Some? ==> b.nav.value.entry in WillEmit(b)
    requires forall e :: 0 <= e < |b.archive| ==> Honest(b.archive[e])
    ensures ChargeAll(from, b.archive, Requests(b, a), limits).Ok? <==>
            ChargeAll(from, b.archive, Requests(b, c), limits).Ok?
  {
    InflationsAccountedFor(b, a);
    InflationsAccountedFor(b, c);
    HonestOrderIsFree(from, b.archive, Requests(b, a), Requests(b, c), limits);
  }
}
