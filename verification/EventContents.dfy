/**
 * What each event of a stream carries, told from the manifest and the archive alone:
 * the book is as it was settled, and the event as the client receives it.
 */
module EventContents {
  import opened Archive
  import opened Extraction
  import opened Guarantees
  import opened Interleaving
  import opened Manifest
  import opened NavTree
  import opened Outcomes
  import opened Passes

  // ----- Where a step of the walk stands -----

  lemma ChaptersBeforeStep(first: Slot, rest: seq<Slot>, i: nat)
    requires i <= |rest|
    ensures ChaptersIn(([first] + rest)[..i + 1]) == (if first.ChapterSlot? then [first.k] else []) + ChaptersIn(rest[..i])
    ensures ResourcesIn(([first] + rest)[..i + 1]) == (if first.ResourceSlot? then [first.q] else []) + ResourcesIn(rest[..i])
  {
    assert ([first] + rest)[..i + 1] == [first] + rest[..i];
    FilterFirst(first, rest[..i]);
  }

  /** A step that sends a chapter, or a resource, is as many-eth of its kind as there are before it. */
  lemma {:induction false} PlaceOfStep(slots: seq<Slot>, i: nat)
    requires i < |slots|
    ensures var c, r := |ChaptersIn(slots[..i])|, |ResourcesIn(slots[..i])|;
            && (slots[i].ChapterSlot? ==> c < |ChaptersIn(slots)| && ChaptersIn(slots)[c] == slots[i].k)
            && (slots[i].ResourceSlot? ==> r < |ResourcesIn(slots)| && ResourcesIn(slots)[r] == slots[i].q)
  {
    var first, rest := slots[0], slots[1..];
    assert slots == [first] + rest;
    FilterFirst(first, rest);
    if i > 0 {
      PlaceOfStep(rest, i - 1);
      ChaptersBeforeStep(first, rest, i - 1);
    }
  }

  lemma {:induction false} InRange(low: nat, high: nat, i: nat)
    requires low <= high && i < |Range(low, high)|
    ensures Range(low, high)[i] == low + i < high
    decreases high - low
  {
    if i > 0 {
      InRange(low + 1, high, i - 1);
    }
  }

  /** Before the chapter of spine position `k` come exactly `k` chapters, and likewise for resources. */
  lemma PlaceInWalk(b: Book, i: nat)
    requires ValidBook(b) && i < |WalkSlots(b)|
    ensures WalkSlots(b)[i].ChapterSlot? ==> WalkSlots(b)[i].k == |ChaptersIn(WalkSlots(b)[..i])| < |b.spine|
    ensures WalkSlots(b)[i].ResourceSlot? ==> WalkSlots(b)[i].q == |ResourcesIn(WalkSlots(b)[..i])| < |b.pending|
  {
    EachIsSentOnceInOrder(b, 0, 0);
    PlaceOfStep(WalkSlots(b), i);
    if WalkSlots(b)[i].ChapterSlot? {
      InRange(0, |b.spine|, |ChaptersIn(WalkSlots(b)[..i])|);
    } else {
      InRange(0, |b.pending|, |ResourcesIn(WalkSlots(b)[..i])|);
    }
  }

  lemma {:induction false} EventOfStep(b: Book, slots: seq<Slot>, i: nat)
    requires ValidBook(b) && SlotsIn(b, slots) && i < |slots|
    ensures SlotsIn(b, slots[..i])
    ensures SlotEvents(b, slots)[i] == SlotEvent(b, slots[i])
    ensures SlotEvents(b, slots)[..i] == SlotEvents(b, slots[..i])
  {
    if i > 0 {
      EventOfStep(b, slots[1..], i - 1);
      assert slots[..i][1..] == slots[1..][..i - 1];
      assert SlotEvents(b, slots)[..i] == [SlotEvent(b, slots[0])] + SlotEvents(b, slots[1..])[..i - 1];
    }
  }

  /** How many chapters and resources were sent before an event. */
  function SentBefore(events: seq<Event>, i: nat): (nat, nat)
    requires i <= |events|
  {
    CountSent(events[..i])
  }

  lemma {:induction false} NothingCounted(events: seq<Event>)
    requires CountSent(events) == (0, 0)
    ensures forall i :: 0 <= i < |events| ==> !events[i].Chapter? && !events[i].Resource?
  {
    if events != [] {
      NothingCounted(events[1..]);
    }
  }

  /** An event that the walk sends, by the step that sends it. */
  lemma StepOfEvent(b: Book, o: Options, i: nat) returns (j: nat)
    requires ValidBook(b) && i < |Stream(b, o)| && (Stream(b, o)[i].Chapter? || Stream(b, o)[i].Resource?)
    ensures j < |WalkSlots(b)| && Stream(b, o)[i] == SlotEvent(b, WalkSlots(b)[j])
    ensures SentBefore(Stream(b, o), i) == (|ChaptersIn(WalkSlots(b)[..j])|, |ResourcesIn(WalkSlots(b)[..j])|)
  {
    var ahead, walk := EventsAhead(b, o), SlotEvents(b, WalkSlots(b));
    AheadCountsNothing(b, o);
    NothingCounted(ahead);
    assert i >= |ahead|;
    j := i - |ahead|;
    EventOfStep(b, WalkSlots(b), j);
    assert Stream(b, o)[..i] == ahead + walk[..j];
    CountsAdd(ahead, walk[..j]);
    StepsCount(b, WalkSlots(b)[..j]);
  }

  // ----- Overlays -----

  /** The overlay that the manifest gives an item: the first item with the id it names, unless that one is unusable. */
  function Narration(items: seq<Item>, position: nat): (r: Option<nat>)
    requires position < |items|
    ensures r.Some? ==> r.value < |items|
  {
    match ById(items, items[position].mediaOverlay)
    case None => None
    case Some(overlay) => if items[overlay].unusable then None else Some(overlay)
  }

  /** The path of an item's overlay, or nothing. */
  function NarrationPath(items: seq<Item>, position: nat): string
    requires position < |items|
  {
    match Narration(items, position)
    case None => ""
    case Some(overlay) => items[overlay].path
  }

  lemma LinksAdd(b: Book, front: seq<(nat, nat)>, last: (nat, nat), position: nat)
    requires forall k :: 0 <= k < |front| ==> front[k].1 < |b.items|
    requires last.1 < |b.items|
    requires forall k :: 0 <= k < |front| ==> front[k].0 != position
    ensures OverlayHref(b, front + [last], position) == if last.0 == position then b.items[last.1].path else ""
    decreases |front|
  {
    if front == [] {
      assert [last][1..] == [];
    } else {
      assert (front + [last])[1..] == front[1..] + [last];
      LinksAdd(b, front[1..], last, position);
    }
  }

  lemma {:induction false} LinkKeepsFirst(b: Book, front: seq<(nat, nat)>, last: (nat, nat), position: nat, k: nat)
    requires forall k :: 0 <= k < |front| ==> front[k].1 < |b.items|
    requires last.1 < |b.items| && k < |front| && front[k].0 == position
    ensures OverlayHref(b, front + [last], position) == OverlayHref(b, front, position)
    decreases |front|
  {
    assert (front + [last])[1..] == front[1..] + [last];
    if front[0].0 != position {
      assert front[1..][k - 1] == front[k];
      LinkKeepsFirst(b, front[1..], last, position, k - 1);
    }
  }

  lemma {:induction false} NoLink(b: Book, links: seq<(nat, nat)>, position: nat)
    requires forall k :: 0 <= k < |links| ==> links[k].1 < |b.items| && links[k].0 != position
    ensures OverlayHref(b, links, position) == ""
  {
    if links != [] {
      NoLink(b, links[1..], position);
    }
  }

  lemma {:induction false} LinksAreEarlier(items: seq<Item>, count: nat)
    requires count <= |items|
    ensures forall k :: 0 <= k < |OverlayLinks(items, count)| ==> OverlayLinks(items, count)[k].0 < count
  {
    if count > 0 {
      LinksAreEarlier(items, count - 1);
    }
  }

  /** The link that the manifest gives each item is the one that is found. */
  lemma {:induction false} LinkIsNarration(b: Book, items: seq<Item>, count: nat, position: nat)
    requires items == b.items && position < count <= |items|
    ensures OverlayHref(b, OverlayLinks(items, count), position) == NarrationPath(items, position)
    decreases count
  {
    var before, links := OverlayLinks(items, count - 1), OverlayLinks(items, count);
    LinksAreEarlier(items, count - 1);
    if position == count - 1 {
      if links != before {
        LinksAdd(b, before, (position, Narration(items, position).value), position);
      } else {
        NoLink(b, before, position);
      }
    } else {
      LinkIsNarration(b, items, count - 1, position);
      if links != before {
        OtherLink(b, before, (count - 1, Narration(items, count - 1).value), position);
      }
    }
  }

  lemma {:induction false} OtherLink(b: Book, front: seq<(nat, nat)>, last: (nat, nat), position: nat)
    requires forall k :: 0 <= k < |front| ==> front[k].1 < |b.items|
    requires last.1 < |b.items| && last.0 != position
    ensures OverlayHref(b, front + [last], position) == OverlayHref(b, front, position)
  {
    if k: nat :| k < |front| && front[k].0 == position {
      LinkKeepsFirst(b, front, last, position, k);
    } else {
      LinksAdd(b, front, last, position);
      NoLink(b, front, position);
    }
  }

  // ----- The chapter and resource events -----

  /** A book as its inputs settle it. */
  ghost predicate Settled(b: Book, spine: seq<SpineSlot>, tocIdref: string, obfuscated: set<nat>) {
    && ValidBook(b) && ValidSpine(b.items, spine)
    && b == BookOf(b.archive, b.items, spine, tocIdref, obfuscated, b.readers)
  }

  /** What is inflated for an item that the archive holds. */
  function BytesOf(b: Book, position: nat): Bytes
    requires ValidBook(b) && position < |b.items| && b.items[position].entry.Some?
  {
    Concat(b.archive[b.items[position].entry.value].chunks)
  }

  /** The chapter event of spine position `k`, field by field. */
  predicate TellsChapter(b: Book, k: nat, event: Event)
    requires ValidBook(b) && k < |b.spine|
  {
    var slot := b.spine[k];
    var source, primary := b.items[slot.source], b.items[slot.primary];
    var own, other := NarrationPath(b.items, slot.source), NarrationPath(b.items, slot.primary);
    && event.Chapter?
    && event.index == (if k <= 0xFFFF_FFFF then k else 0xFFFF_FFFF)
    && event.idref == slot.idref
    && event.href == source.path
    && event.content == BytesOf(b, slot.source)
    && event.overlay == (if own != "" then own else other)
    && (slot.primary == slot.source || primary.remote || primary.unusable ==> event.primary == "")
    && (slot.primary != slot.source && !primary.remote && !primary.unusable ==> event.primary == primary.path)
  }

  predicate TellsResource(b: Book, q: nat, event: Event)
    requires ValidBook(b) && q < |b.pending|
  {
    var item := b.items[b.pending[q].position];
    && event.Resource? && event.href == item.path && event.id == item.id
    && event.content == Concat(b.archive[b.pending[q].entry].chunks)
    && event.overlay == NarrationPath(b.items, b.pending[q].position)
  }

  lemma ChapterStep(b: Book, spine: seq<SpineSlot>, tocIdref: string, obfuscated: set<nat>, k: nat)
    requires Settled(b, spine, tocIdref, obfuscated) && k < |b.spine|
    ensures TellsChapter(b, k, SlotEvent(b, ChapterSlot(k)))
  {
    LinkIsNarration(b, b.items, |b.items|, b.spine[k].source);
    LinkIsNarration(b, b.items, |b.items|, b.spine[k].primary);
  }

  lemma ResourceStepTells(b: Book, spine: seq<SpineSlot>, tocIdref: string, obfuscated: set<nat>, q: nat)
    requires Settled(b, spine, tocIdref, obfuscated) && q < |b.pending|
    ensures TellsResource(b, q, SlotEvent(b, ResourceSlot(q)))
  {
    LinkIsNarration(b, b.items, |b.items|, b.pending[q].position);
  }

  /**
   * In the stream of a settled book, the chapter event after `k` others is the one of spine
   * position `k`: its number, idref and path, the whole content of the file it is read from,
   * the overlay of its source or else of its spine item, and the spine item's path when it
   * is a fallback for one.
   */
  lemma ChaptersCarryTheirFiles(
      b: Book, spine: seq<SpineSlot>, tocIdref: string, obfuscated: set<nat>, o: Options, i: nat, k: nat)
    requires Settled(b, spine, tocIdref, obfuscated) && i < |Stream(b, o)| && Stream(b, o)[i].Chapter?
    requires k == SentBefore(Stream(b, o), i).0
    ensures k < |b.spine| && TellsChapter(b, k, Stream(b, o)[i])
  {
    var j := StepOfEvent(b, o, i);
    PlaceInWalk(b, j);
    ChapterStep(b, spine, tocIdref, obfuscated, WalkSlots(b)[j].k);
  }

  /** The resource event after `q` others is the one of the plan's place `q`, with the whole content of its file. */
  lemma ResourcesCarryTheirFiles(
      b: Book, spine: seq<SpineSlot>, tocIdref: string, obfuscated: set<nat>, o: Options, i: nat, q: nat)
    requires Settled(b, spine, tocIdref, obfuscated) && i < |Stream(b, o)| && Stream(b, o)[i].Resource?
    requires q == SentBefore(Stream(b, o), i).1
    ensures q < |b.pending| && TellsResource(b, q, Stream(b, o)[i])
  {
    var j := StepOfEvent(b, o, i);
    PlaceInWalk(b, j);
    ResourceStepTells(b, spine, tocIdref, obfuscated, WalkSlots(b)[j].q);
  }

  // ----- The events ahead of the walk -----

  /** The first item that has the navigation property. */
  ghost predicate IsNavigation(items: seq<Item>, p: nat) {
    p < |items| && items[p].navigation && forall k :: 0 <= k < p ==> !items[k].navigation
  }

  /**
   * The navigation document goes first: the first item with the navigation property, if the
   * archive holds it; or else the item with the id that the spine names, if the archive holds
   * that one, and then it is an NCX; or else there is none.
   */
  lemma NavigationIsChosen(items: seq<Item>, tocIdref: string, p: nat)
    ensures IsNavigation(items, p) && items[p].entry.Some? ==>
              NavigationSource(items, tocIdref) == Some(NavSource(p, items[p].entry.value, false))
    ensures (forall n: nat :: IsNavigation(items, n) ==> items[n].entry.None?) && ById(items, tocIdref) == Some(p)
            && items[p].entry.Some? ==>
              NavigationSource(items, tocIdref) == Some(NavSource(p, items[p].entry.value, true))
    ensures (forall n: nat :: IsNavigation(items, n) ==> items[n].entry.None?)
            && (ById(items, tocIdref) == None || (ById(items, tocIdref) == Some(p) && items[p].entry.None?)) ==>
              NavigationSource(items, tocIdref) == None
  {
    var first := FirstNav(items);
    if first.Some? {
      assert IsNavigation(items, first.value);
      if IsNavigation(items, p) {
        assert p == first.value;
      }
    }
  }

  predicate NoOutline(events: seq<Event>) {
    forall i :: 0 <= i < |events| ==> !events[i].Navigation?
  }

  lemma {:induction false} PairsHoldNoOutline(b: Book, k: nat)
    requires ValidBook(b) && k <= |b.links|
    ensures NoOutline(OverlayEventsFrom(b, k))
    decreases |b.links| - k
  {
    if k < |b.links| {
      PairsHoldNoOutline(b, k + 1);
    }
  }

  lemma {:induction false} StepsHoldNoOutline(b: Book, slots: seq<Slot>)
    requires ValidBook(b) && SlotsIn(b, slots)
    ensures NoOutline(SlotEvents(b, slots))
  {
    if slots != [] {
      StepsHoldNoOutline(b, slots[1..]);
    }
  }

  /** What the reader makes of the book's navigation source, when the options ask for it. */
  function OutlineRead(b: Book, o: Options): seq<NavPoint>
    requires ValidBook(b)
  {
    if !o.parseNavigation || b.nav.None? then []
    else
      b.readers.toc(Concat(b.archive[b.nav.value.entry].chunks), b.items[b.nav.value.position].path, b.nav.value.fromNcx)
  }

  /** A table of contents that is not empty is sent once, before everything else, under its own path. */
  lemma OutlineIsSentFirst(b: Book, o: Options)
    requires ValidBook(b)
    ensures OutlineRead(b, o) == [] ==> NoOutline(Stream(b, o))
    ensures OutlineRead(b, o) != [] ==>
              Stream(b, o) != [] && NoOutline(Stream(b, o)[1..])
              && Stream(b, o)[0] == Navigation(b.items[b.nav.value.position].path, OutlineRead(b, o), b.nav.value.fromNcx)
  {
    PairsHoldNoOutline(b, 0);
    StepsHoldNoOutline(b, WalkSlots(b));
  }

  /** What one item has narrated: the cues of its overlay, if there are any, under both paths. */
  function Narrated(b: Book, p: nat): seq<Event>
    requires ValidBook(b) && p < |b.items|
  {
    match Narration(b.items, p)
    case None => []
    case Some(overlay) =>
      if b.items[overlay].entry.None? || b.readers.cues(BytesOf(b, overlay), b.items[overlay].path) == [] then []
      else
        [MediaOverlay(b.items[overlay].path, b.items[p].path, b.readers.cues(BytesOf(b, overlay), b.items[overlay].path))]
  }

  /** What the items from `p` on have narrated, in manifest order. */
  function NarratedFrom(b: Book, p: nat): seq<Event>
    requires ValidBook(b) && p <= |b.items|
    decreases |b.items| - p
  {
    if p == |b.items| then [] else Narrated(b, p) + NarratedFrom(b, p + 1)
  }

  /** The link that an item adds to those of the items before it. */
  function OwnLink(items: seq<Item>, p: nat): seq<(nat, nat)>
    requires p < |items|
  {
    match Narration(items, p)
    case None => []
    case Some(overlay) => [(p, overlay)]
  }

  lemma LinksGrow(items: seq<Item>, p: nat)
    requires p < |items|
    ensures OverlayLinks(items, p + 1) == OverlayLinks(items, p) + OwnLink(items, p)
  {
    assert OverlayLinks(items, p) + [] == OverlayLinks(items, p);
  }

  lemma {:induction false} LinksOfTheRest(items: seq<Item>, p: nat, n: nat) returns (rest: seq<(nat, nat)>)
    requires p <= n <= |items|
    ensures OverlayLinks(items, n) == OverlayLinks(items, p) + rest
    decreases n
  {
    if p == n {
      rest := [];
      assert OverlayLinks(items, p) + [] == OverlayLinks(items, p);
    } else {
      var most := LinksOfTheRest(items, p, n - 1);
      LinksGrow(items, n - 1);
      rest := most + OwnLink(items, n - 1);
      Joined(OverlayLinks(items, p), most, OwnLink(items, n - 1));
    }
  }

  lemma InTheMiddle<T>(a: seq<T>, one: seq<T>, rest: seq<T>)
    ensures |a| + |one| <= |a + one + rest|
    ensures forall i :: 0 <= i < |one| ==> (a + one + rest)[|a| + i] == one[i]
  {
  }

  /** The link of an item, if it has one, stands where the links of the items before it end. */
  lemma LinkInPlace(b: Book, p: nat, k: nat)
    requires ValidBook(b) && p < |b.items| && b.links == OverlayLinks(b.items, |b.items|) && k == |OverlayLinks(b.items, p)|
    ensures k + |OwnLink(b.items, p)| == |OverlayLinks(b.items, p + 1)| <= |b.links|
    ensures Narration(b.items, p).Some? ==> b.links[k] == (p, Narration(b.items, p).value)
  {
    var rest := LinksOfTheRest(b.items, p + 1, |b.items|);
    LinksGrow(b.items, p);
    InTheMiddle(OverlayLinks(b.items, p), OwnLink(b.items, p), rest);
  }

  lemma PairIsNarrated(b: Book, p: nat, k: nat)
    requires ValidBook(b) && p < |b.items| && k < |b.links|
    requires Narration(b.items, p).Some? && b.links[k] == (p, Narration(b.items, p).value)
    ensures PairEvents(b, k) == Narrated(b, p)
  {
  }

  lemma NarratedNext(b: Book, p: nat, k: nat, next: nat)
    requires ValidBook(b) && p < |b.items| && next == k + |OwnLink(b.items, p)| <= |b.links|
    requires Narration(b.items, p).Some? ==> b.links[k] == (p, Narration(b.items, p).value)
    requires OverlayEventsFrom(b, next) == NarratedFrom(b, p + 1)
    ensures OverlayEventsFrom(b, k) == NarratedFrom(b, p)
  {
    if Narration(b.items, p).Some? {
      PairIsNarrated(b, p, k);
    }
  }

  lemma NothingMore(b: Book)
    requires ValidBook(b)
    ensures OverlayEventsFrom(b, |b.links|) == [] == NarratedFrom(b, |b.items|)
  {
  }

  lemma {:induction false} PairsAreNarrated(b: Book, p: nat, k: nat)
    requires ValidBook(b) && p <= |b.items| && b.links == OverlayLinks(b.items, |b.items|)
    requires k == |OverlayLinks(b.items, p)| <= |b.links|
    ensures OverlayEventsFrom(b, k) == NarratedFrom(b, p)
    decreases |b.items| - p
  {
    if p == |b.items| {
      NothingMore(b);
    } else {
      LinkInPlace(b, p, k);
      var next := k + |OwnLink(b.items, p)|;
      PairsAreNarrated(b, p + 1, next);
      NarratedNext(b, p, k, next);
    }
  }

  function OverlaysIn(events: seq<Event>): seq<Event> {
    if events == [] then [] else (if events[0].MediaOverlay? then [events[0]] else []) + OverlaysIn(events[1..])
  }

  lemma {:induction false} OverlaysAdd(a: seq<Event>, c: seq<Event>)
    ensures OverlaysIn(a + c) == OverlaysIn(a) + OverlaysIn(c)
  {
    if a == [] {
      assert a + c == c;
    } else {
      assert (a + c)[1..] == a[1..] + c;
      OverlaysAdd(a[1..], c);
    }
  }

  lemma {:induction false} OnlyOverlays(events: seq<Event>)
    requires forall i :: 0 <= i < |events| ==> events[i].MediaOverlay?
    ensures OverlaysIn(events) == events
  {
    if events != [] {
      OnlyOverlays(events[1..]);
    }
  }

  lemma {:induction false} PairsAreOverlays(b: Book, k: nat)
    requires ValidBook(b) && k <= |b.links|
    ensures forall i :: 0 <= i < |OverlayEventsFrom(b, k)| ==> OverlayEventsFrom(b, k)[i].MediaOverlay?
    decreases |b.links| - k
  {
    if k < |b.links| {
      PairsAreOverlays(b, k + 1);
    }
  }

  lemma {:induction false} StepsAreNoOverlays(b: Book, slots: seq<Slot>)
    requires ValidBook(b) && SlotsIn(b, slots)
    ensures OverlaysIn(SlotEvents(b, slots)) == []
  {
    if slots != [] {
      StepsAreNoOverlays(b, slots[1..]);
    }
  }

  /** The overlay events of a settled book are what the manifest has narrated, in manifest order, each with its own cues. */
  lemma NarrationIsSent(b: Book, spine: seq<SpineSlot>, tocIdref: string, obfuscated: set<nat>, o: Options)
    requires Settled(b, spine, tocIdref, obfuscated)
    ensures OverlaysIn(Stream(b, o)) == if o.parseOverlays then NarratedFrom(b, 0) else []
  {
    OverlaysAdd(NavEvents(b, o) + OverlayEvents(b, o), SlotEvents(b, WalkSlots(b)));
    OverlaysAdd(NavEvents(b, o), OverlayEvents(b, o));
    StepsAreNoOverlays(b, WalkSlots(b));
    assert OverlaysIn(NavEvents(b, o)) == [];
    if o.parseOverlays {
      PairsAreOverlays(b, 0);
      OnlyOverlays(OverlayEventsFrom(b, 0));
      PairsAreNarrated(b, 0, 0);
    }
  }

  /** What the report says besides its two counters. */
  lemma ReportSays(b: Book, spine: seq<SpineSlot>, tocIdref: string, obfuscated: set<nat>, after: Spent)
    requires Settled(b, spine, tocIdref, obfuscated)
    ensures Report(b, after).consumed == after.consumed && Report(b, after).entriesRead == after.entries
    ensures Report(b, after).skipped == |LeftOutBefore(b.items, b.spine, obfuscated, |b.items|)|
  {
    SkippedAreLeftOut(b.items, b.spine, obfuscated, |b.items|);
  }

  /** What is read ahead is told ahead: no overlay event comes after a chapter or a resource. */
  lemma NarrationComesFirst(b: Book, o: Options, i: nat, j: nat)
    requires ValidBook(b) && i < j < |Stream(b, o)| && (Stream(b, o)[i].Chapter? || Stream(b, o)[i].Resource?)
    ensures Stream(b, o)[j].Chapter? || Stream(b, o)[j].Resource?
  {
    AheadCountsNothing(b, o);
    NothingCounted(EventsAhead(b, o));
    var k := j - |EventsAhead(b, o)|;
    EventOfStep(b, WalkSlots(b), k);
  }
}
