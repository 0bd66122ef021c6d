/**
 * The three passes of one extraction: the navigation document, the media
 * overlays and the walk over spine and resources, sharing one read-ahead cache
 * and one budget.
 */
module Passes {
  import opened Archive
  import opened Manifest
  import opened NavTree
  import opened Outcomes

  // ----- What is extracted -----

  datatype NavSource = NavSource(position: nat, entry: nat, fromNcx: bool)

  type Cue = string

  /** How the navigation documents and overlays read, given their bytes and archive path. */
  datatype Readers = Readers(toc: (Bytes, string, bool) -> seq<NavPoint>, cues: (Bytes, string) -> seq<Cue>)

  datatype Options = Options(parseNavigation: bool, parseOverlays: bool)

  /** A book whose spine and plan are settled. */
  datatype Book = Book(
    archive: seq<Entry>, items: seq<Item>, spine: seq<SpineSlot>, pending: seq<Pending>, skipped: nat,
    nav: Option<NavSource>, links: seq<(nat, nat)>, readers: Readers)

  ghost predicate ValidBook(b: Book) {
    && (forall e :: 0 <= e < |b.archive| ==> b.archive[e].index == e)
    && (forall p :: 0 <= p < |b.items| && b.items[p].entry.Some? ==> b.items[p].entry.value < |b.archive|)
    && ValidSpine(b.items, b.spine)
    && ByEntry(b.pending)
    && (forall q :: 0 <= q < |b.pending| ==>
          && b.pending[q].position < |b.items|
          && b.pending[q].entry < |b.archive|
          && b.pending[q].entry !in ChapterEntries(b.items, b.spine))
    && (b.nav.Some? ==> b.nav.value.position < |b.items| && b.nav.value.entry < |b.archive|)
    && (forall k :: 0 <= k < |b.links| ==> b.links[k].0 < |b.items| && b.links[k].1 < |b.items|)
  }

  /** Every pair of a narrated item and its overlay that the manifest declares. */
  function OverlayLinks(items: seq<Item>, count: nat): (links: seq<(nat, nat)>)
    requires count <= |items|
    ensures forall k :: 0 <= k < |links| ==> links[k].0 < |items| && links[k].1 < |items|
  {
    if count == 0 then []
    else
      var before := OverlayLinks(items, count - 1);
      match ById(items, items[count - 1].mediaOverlay)
      case Some(overlay) => if items[overlay].unusable then before else before + [(count - 1, overlay)]
      case None => before
  }

  function FirstNav(items: seq<Item>): (r: Option<nat>)
    ensures r.Some? ==> r.value < |items| && items[r.value].navigation
    ensures r.Some? ==> forall k :: 0 <= k < r.value ==> !items[k].navigation
    ensures r.None? ==> forall k :: 0 <= k < |items| ==> !items[k].navigation
  {
    if items == [] then None
    else if items[0].navigation then Some(0)
    else
      match FirstNav(items[1..])
      case None => None
      case Some(k) => Some(k + 1)
  }

  /** The navigation document when the archive holds it, or else the NCX the spine names. */
  function NavigationSource(items: seq<Item>, tocIdref: string): Option<NavSource> {
    var nav := FirstNav(items);
    if nav.Some? && items[nav.value].entry.Some? then
      Some(NavSource(nav.value, items[nav.value].entry.value, false))
    else
      match ById(items, tocIdref)
      case None => None
      case Some(position) =>
        match items[position].entry
        case None => None
        case Some(entry) => Some(NavSource(position, entry, true))
  }

  // ----- Settling a book -----

  /** Entries know their place, and items name entries that exist. */
  ghost predicate Indexed(archive: seq<Entry>, items: seq<Item>) {
    && (forall e :: 0 <= e < |archive| ==> archive[e].index == e)
    && (forall p :: 0 <= p < |items| && items[p].entry.Some? ==> items[p].entry.value < |archive|)
  }

  /** The book of an archive and a manifest whose spine is resolved. */
  function BookOf(
      archive: seq<Entry>, items: seq<Item>, spine: seq<SpineSlot>, tocIdref: string, obfuscated: set<nat>, readers: Readers)
    : Book
    requires ValidSpine(items, spine)
  {
    Book(archive, items, spine, PlannedResources(items, spine, obfuscated), CountFate(items, spine, obfuscated, Skipped, |items|),
         NavigationSource(items, tocIdref), OverlayLinks(items, |items|), readers)
  }

  lemma BookIsValid(
      archive: seq<Entry>, items: seq<Item>, spine: seq<SpineSlot>, tocIdref: string, obfuscated: set<nat>, readers: Readers)
    requires Indexed(archive, items) && ValidSpine(items, spine)
    ensures ValidBook(BookOf(archive, items, spine, tocIdref, obfuscated, readers))
  {
    PlanFits(items, spine, obfuscated, |archive|);
  }

  lemma PlanFits(items: seq<Item>, spine: seq<SpineSlot>, obfuscated: set<nat>, entries: nat)
    requires ValidSpine(items, spine)
    requires forall p :: 0 <= p < |items| && items[p].entry.Some? ==> items[p].entry.value < entries
    ensures var pending := PlannedResources(items, spine, obfuscated);
            && ByEntry(pending)
            && forall q :: 0 <= q < |pending| ==>
                 pending[q].position < |items| && pending[q].entry < entries && pending[q].entry !in ChapterEntries(items, spine)
  {
    var pending := PlannedResources(items, spine, obfuscated);
    PlanIsExact(items, spine, obfuscated);
    forall q | 0 <= q < |pending|
      ensures pending[q].position < |items| && pending[q].entry < entries && pending[q].entry !in ChapterEntries(items, spine)
    {
      assert pending[q] in pending;
      assert FirstNaming(items, spine, obfuscated, pending[q]);
    }
  }

  /** The book that these inputs settle: every itemref resolved in order, and the rest as the plan says. */
  ghost predicate Prepared(
      archive: seq<Entry>, items: seq<Item>, idrefs: seq<string>, tocIdref: string, obfuscated: set<nat>, readers: Readers,
      b: Book)
  {
    && ValidSpine(items, b.spine) && |b.spine| == |idrefs|
    && (forall k :: 0 <= k < |idrefs| ==> ResolveRef(items, idrefs[k], obfuscated) == Ok(b.spine[k]))
    && b == BookOf(archive, items, b.spine, tocIdref, obfuscated, readers)
  }

  // ----- What is sent -----

  datatype Event =
    | Navigation(source: string, toc: seq<NavPoint>, fromNcx: bool)
    | MediaOverlay(source: string, chapter: string, cues: seq<Cue>)
    | Chapter(index: nat, idref: string, href: string, content: Bytes, overlay: string, primary: string)
    | Resource(href: string, id: string, content: Bytes, overlay: string)
    | StatusReport(chapters: nat, resources: nat, skipped: nat, consumed: nat, entriesRead: nat)

  const U32_MAX := 0xFFFF_FFFF

  function ToU32(n: nat): nat {
    if n <= U32_MAX then n else U32_MAX
  }

  /** The overlay that narrates an item, by path; the first pair wins. */
  function OverlayHref(b: Book, links: seq<(nat, nat)>, position: nat): string
    requires forall k :: 0 <= k < |links| ==> links[k].1 < |b.items|
  {
    if links == [] then ""
    else if links[0].0 == position then b.items[links[0].1].path
    else OverlayHref(b, links[1..], position)
  }

  /** One step of the walk: the chapter of a spine position, or a planned resource. */
  datatype Slot = ChapterSlot(k: nat) | ResourceSlot(q: nat)

  predicate SlotIn(b: Book, slot: Slot) {
    match slot
    case ChapterSlot(k) => k < |b.spine|
    case ResourceSlot(q) => q < |b.pending|
  }

  function SlotEntry(b: Book, slot: Slot): (e: nat)
    requires ValidBook(b) && SlotIn(b, slot)
    ensures e < |b.archive|
  {
    match slot
    case ChapterSlot(k) => ChapterEntry(b.items, b.spine[k])
    case ResourceSlot(q) => b.pending[q].entry
  }

  function ChapterEvent(b: Book, k: nat, content: Bytes): Event
    requires ValidBook(b) && k < |b.spine|
  {
    var slot := b.spine[k];
    var item, spineItem := b.items[slot.source], b.items[slot.primary];
    var overlay := OverlayHref(b, b.links, slot.source);
    Chapter(
      ToU32(k), slot.idref, item.path, content,
      if overlay == "" then OverlayHref(b, b.links, slot.primary) else overlay,
      if slot.primary == slot.source || spineItem.remote || spineItem.unusable then "" else spineItem.path)
  }

  function ResourceEvent(b: Book, q: nat, content: Bytes): Event
    requires ValidBook(b) && q < |b.pending|
  {
    var position := b.pending[q].position;
    Resource(b.items[position].path, b.items[position].id, content, OverlayHref(b, b.links, position))
  }

  /** The event of a step when it carries the entry's own bytes. */
  function SlotEvent(b: Book, slot: Slot): Event
    requires ValidBook(b) && SlotIn(b, slot)
  {
    match slot
    case ChapterSlot(k) => ChapterEvent(b, k, Content(b.archive[SlotEntry(b, slot)]))
    case ResourceSlot(q) => ResourceEvent(b, q, Content(b.archive[SlotEntry(b, slot)]))
  }

  predicate SlotsIn(b: Book, slots: seq<Slot>) {
    forall i :: 0 <= i < |slots| ==> SlotIn(b, slots[i])
  }

  function SlotEvents(b: Book, slots: seq<Slot>): (events: seq<Event>)
    requires ValidBook(b) && SlotsIn(b, slots)
    ensures |events| == |slots|
  {
    if slots == [] then [] else [SlotEvent(b, slots[0])] + SlotEvents(b, slots[1..])
  }

  /** The walk from chapter `k` and resource `q` on: resources whose entry comes first, then the chapter. */
  function WalkFrom(b: Book, k: nat, q: nat): (slots: seq<Slot>)
    requires ValidBook(b) && k <= |b.spine| && q <= |b.pending|
    ensures SlotsIn(b, slots)
    decreases |b.spine| - k + |b.pending| - q
  {
    if k < |b.spine| then
      if q < |b.pending| && b.pending[q].entry < ChapterEntry(b.items, b.spine[k]) then
        [ResourceSlot(q)] + WalkFrom(b, k, q + 1)
      else [ChapterSlot(k)] + WalkFrom(b, k + 1, q)
    else if q < |b.pending| then [ResourceSlot(q)] + WalkFrom(b, k, q + 1)
    else []
  }

  function WalkSlots(b: Book): seq<Slot>
    requires ValidBook(b)
  {
    WalkFrom(b, 0, 0)
  }

  // ----- What is inflated -----

  function WillEmit(b: Book): set<nat>
    requires ValidBook(b)
  {
    ChapterEntries(b.items, b.spine) + set q | 0 <= q < |b.pending| :: b.pending[q].entry
  }

  function SlotEntries(b: Book, slots: seq<Slot>): (entries: seq<nat>)
    requires ValidBook(b) && SlotsIn(b, slots)
    ensures |entries| == |slots| && Within(b.archive, entries)
  {
    if slots == [] then [] else [SlotEntry(b, slots[0])] + SlotEntries(b, slots[1..])
  }

  lemma SlotsFirst(b: Book, slots: seq<Slot>, slot: Slot, rest: seq<Slot>)
    requires ValidBook(b) && slots == [slot] + rest && SlotsIn(b, slots)
    ensures SlotIn(b, slot) && SlotsIn(b, rest)
    ensures SlotEntries(b, slots) == [SlotEntry(b, slot)] + SlotEntries(b, rest)
    ensures SlotEvents(b, slots) == [SlotEvent(b, slot)] + SlotEvents(b, rest)
  {
    assert slots[0] == slot && slots[1..] == rest;
  }

  /** The entry of each overlay pair, absent when the archive lacks the overlay. */
  function OverlayEntries(b: Book): (entries: seq<Option<nat>>)
    requires ValidBook(b)
    ensures |entries| == |b.links|
    ensures forall k :: 0 <= k < |entries| && entries[k].Some? ==> entries[k].value < |b.archive|
  {
    seq(|b.links|, k requires 0 <= k < |b.links| => b.items[b.links[k].1].entry)
  }

  /** Whether a pair after `at` uses the same overlay entry. */
  predicate UsedAfter(entries: seq<Option<nat>>, at: nat, e: nat) {
    exists k :: at < k < |entries| && entries[k] == Some(e)
  }

  /** What the cache holds after serving the overlay of pair `at`: its entry, if anything will still ask for it. */
  function HeldAfter(entries: seq<Option<nat>>, at: nat, willEmit: set<nat>, held: set<nat>): set<nat>
    requires at < |entries| && entries[at].Some?
  {
    var e := entries[at].value;
    if e in willEmit || UsedAfter(entries, at, e) then held + {e} else held - {e}
  }

  /** The entries the overlay pass inflates from pair `at` on. */
  function OverlayRequests(entries: seq<Option<nat>>, at: nat, willEmit: set<nat>, held: set<nat>): seq<nat>
    requires at <= |entries|
    decreases |entries| - at
  {
    if at == |entries| then []
    else if entries[at].None? then OverlayRequests(entries, at + 1, willEmit, held)
    else
      (if entries[at].value in held then [] else [entries[at].value])
      + OverlayRequests(entries, at + 1, willEmit, HeldAfter(entries, at, willEmit, held))
  }

  /** What the cache holds after the overlay pass. */
  function OverlayHeld(entries: seq<Option<nat>>, at: nat, willEmit: set<nat>, held: set<nat>): set<nat>
    requires at <= |entries|
    decreases |entries| - at
  {
    if at == |entries| then held
    else if entries[at].None? then OverlayHeld(entries, at + 1, willEmit, held)
    else OverlayHeld(entries, at + 1, willEmit, HeldAfter(entries, at, willEmit, held))
  }

  /** The entries the walk inflates: those it does not take from the cache. */
  function WalkRequests(entries: seq<nat>, held: set<nat>): seq<nat> {
    if entries == [] then []
    else (if entries[0] in held then [] else [entries[0]]) + WalkRequests(entries[1..], held - {entries[0]})
  }

  function WalkHeld(entries: seq<nat>, held: set<nat>): set<nat> {
    if entries == [] then held else WalkHeld(entries[1..], held - {entries[0]})
  }

  function NavRequests(b: Book, o: Options): seq<nat> {
    if o.parseNavigation && b.nav.Some? then [b.nav.value.entry] else []
  }

  function NavHeld(b: Book, o: Options): set<nat>
    requires ValidBook(b)
  {
    if o.parseNavigation && b.nav.Some? && b.nav.value.entry in WillEmit(b) then {b.nav.value.entry} else {}
  }

  function OverlaysAsked(b: Book, o: Options): seq<Option<nat>>
    requires ValidBook(b)
  {
    if o.parseOverlays then OverlayEntries(b) else []
  }

  /** What the passes before the walk inflate. */
  function AskedAhead(b: Book, o: Options): seq<nat>
    requires ValidBook(b)
  {
    NavRequests(b, o) + OverlayRequests(OverlaysAsked(b, o), 0, WillEmit(b), NavHeld(b, o))
  }

  /** What the passes before the walk leave in the cache. */
  function HeldAhead(b: Book, o: Options): set<nat>
    requires ValidBook(b)
  {
    OverlayHeld(OverlaysAsked(b, o), 0, WillEmit(b), NavHeld(b, o))
  }

  /** What the walk from `k` and `q` on inflates, with `held` in the cache. */
  function WalkAsks(b: Book, k: nat, q: nat, held: set<nat>): seq<nat>
    requires ValidBook(b) && k <= |b.spine| && q <= |b.pending|
  {
    WalkRequests(SlotEntries(b, WalkFrom(b, k, q)), held)
  }

  lemma {:induction false} OverlayRequestsWithin(
      archive: seq<Entry>, entries: seq<Option<nat>>, at: nat, willEmit: set<nat>, held: set<nat>)
    requires at <= |entries| && forall k :: 0 <= k < |entries| && entries[k].Some? ==> entries[k].value < |archive|
    ensures Within(archive, OverlayRequests(entries, at, willEmit, held))
    decreases |entries| - at
  {
    if at < |entries| {
      OverlayRequestsWithin(archive, entries, at + 1, willEmit,
                            if entries[at].None? then held else HeldAfter(entries, at, willEmit, held));
    }
  }

  lemma {:induction false} WalkRequestsWithin(archive: seq<Entry>, entries: seq<nat>, held: set<nat>)
    requires Within(archive, entries)
    ensures Within(archive, WalkRequests(entries, held))
  {
    if entries != [] { WalkRequestsWithin(archive, entries[1..], held - {entries[0]}); }
  }

  /** Every entry the three passes inflate, in order. */
  function Requests(b: Book, o: Options): (requests: seq<nat>)
    requires ValidBook(b)
    ensures Within(b.archive, requests)
  {
    OverlayRequestsWithin(b.archive, OverlaysAsked(b, o), 0, WillEmit(b), NavHeld(b, o));
    WalkRequestsWithin(b.archive, SlotEntries(b, WalkSlots(b)), HeldAhead(b, o));
    AskedAhead(b, o) + WalkAsks(b, 0, 0, HeldAhead(b, o))
  }
}
