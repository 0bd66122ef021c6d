/** What a caller of the extraction sees of its read-ahead and of its report. */
module Guarantees {
  import opened Archive
  import opened Extraction
  import opened Interleaving
  import opened Outcomes
  import opened Passes
  import opened ReadAhead

  /**
   * Reading the navigation document ahead is invisible: when the walk sends it,
   * two successful calls that differ only in reading it send the same events,
   * apart from the navigation event itself, and end with the same budget and
   * the same report.
   */
  lemma ReadAheadIsInvisible(b: Book, limits: Limits, from: Spent, on: Options, off: Options, withNav: Spent, without: Spent)
    requires ValidBook(b) && SameButNavigation(on, off) && on.parseNavigation && !off.parseNavigation
    requires b.nav.Some? ==> b.nav.value.entry in WillEmit(b)
    requires Made(b.archive, limits, from, Requests(b, on), Ok(()), withNav)
    requires Made(b.archive, limits, from, Requests(b, off), Ok(()), without)
    ensures withNav == without && Report(b, withNav) == Report(b, without)
    ensures Stream(b, on) == NavEvents(b, on) + Stream(b, off)
  {
    CostOfTheOutline(b, limits, from, on, off);
    assert NavOnly(b, on) == [];
    OutlineComesFirst(b, on, off);
  }

  lemma OutlineComesFirst(b: Book, on: Options, off: Options)
    requires ValidBook(b) && SameButNavigation(on, off) && !off.parseNavigation
    ensures Stream(b, on) == NavEvents(b, on) + Stream(b, off)
  {
    assert NavEvents(b, off) == [] && OverlayEvents(b, on) == OverlayEvents(b, off);
    assert EventsAhead(b, off) == OverlayEvents(b, off);
    Joined(NavEvents(b, on), OverlayEvents(b, on), SlotEvents(b, WalkSlots(b)));
  }

  lemma {:induction false} OverlaysCountNothing(b: Book, k: nat)
    requires ValidBook(b) && k <= |b.links|
    ensures CountSent(OverlayEventsFrom(b, k)) == (0, 0)
    decreases |b.links| - k
  {
    if k < |b.links| {
      OverlaysCountNothing(b, k + 1);
      CountsAdd(PairEvents(b, k), OverlayEventsFrom(b, k + 1));
    }
  }

  lemma AheadCountsNothing(b: Book, o: Options)
    requires ValidBook(b)
    ensures CountSent(EventsAhead(b, o)) == (0, 0)
  {
    CountsAdd(NavEvents(b, o), OverlayEvents(b, o));
    OverlaysCountNothing(b, 0);
  }

  lemma {:induction false} StepsCount(b: Book, slots: seq<Slot>)
    requires ValidBook(b) && SlotsIn(b, slots)
    ensures CountSent(SlotEvents(b, slots)) == (|ChaptersIn(slots)|, |ResourcesIn(slots)|)
  {
    if slots != [] {
      var first, rest := slots[0], slots[1..];
      assert slots == [first] + rest;
      SlotsFirst(b, slots, first, rest);
      StepsCount(b, rest);
      FilterFirst(first, rest);
      OneCount(b, first);
      CountsAdd([SlotEvent(b, first)], SlotEvents(b, rest));
    }
  }

  lemma {:induction false} RangeLength(low: nat, high: nat)
    requires low <= high
    ensures |Range(low, high)| == high - low
    decreases high - low
  {
    if low < high { RangeLength(low + 1, high); }
  }

  /**
   * What the walk counted and the report says is how many chapter and resource events
   * were sent before it, and that is one for each spine position and each planned resource.
   */
  lemma ReportCountsWhatWasSent(b: Book, o: Options, after: Spent)
    requires ValidBook(b)
    ensures CountSent(Stream(b, o)) == (Report(b, after).chapters, Report(b, after).resources) == (|b.spine|, |b.pending|)
  {
    CountsAdd(EventsAhead(b, o), SlotEvents(b, WalkSlots(b)));
    AheadCountsNothing(b, o);
    StepsCount(b, WalkSlots(b));
    EachIsSentOnceInOrder(b, 0, 0);
    RangeLength(0, |b.spine|);
    RangeLength(0, |b.pending|);
  }
}
