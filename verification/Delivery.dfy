/** From a call's events to its Document: what the fold makes of what an extraction sends. */
module Delivery {
  import Archive
  import opened Documents
  import DotSegments
  import opened DocumentTree
  import opened Extraction
  import Fold = FoldSpec
  import Href
  import opened Interleaving
  import Manifest
  import opened Nav
  import NavMarkup
  import NavRoundTrip
  import opened NavTree
  import opened Outcomes
  import opened Passes
  import Text
  import Whitespace
  import Xml

  // ----- Events -----

  /** What an event carries besides: its item's media type, whether that is an image's, and cues as one value. */
  datatype Kinds = Kinds(mediaType: Event -> string, image: Event -> bool, pack: seq<Cue> -> string)

  /** An event as the fold consumes it. */
  function Consumed(event: Event, kinds: Kinds): Fold.Event {
    match event
    case Navigation(_, toc, _) => Fold.Navigation(OnWire(toc))
    case MediaOverlay(_, chapter, cues) => Fold.MediaOverlay(Fold.Overlay(chapter, kinds.pack(cues)))
    case Chapter(_, idref, href, _, _, _) => Fold.Chapter(href, idref, kinds.mediaType(event))
    case Resource(href, id, _, _) => Fold.Resource(href, id, kinds.mediaType(event), kinds.image(event))
    case StatusReport(_, _, _, _, _) => Fold.Other
  }

  function ConsumedAll(events: seq<Event>, kinds: Kinds): (log: seq<Fold.Event>)
    ensures |log| == |events| && forall i :: 0 <= i < |events| ==> log[i] == Consumed(events[i], kinds)
  {
    seq(|events|, i requires 0 <= i < |events| => Consumed(events[i], kinds))
  }

  /** Everything a successful call sends, as the fold consumes it: the information first and the report last. */
  function CallLog(b: Book, o: Options, cover: string, after: Archive.Spent, kinds: Kinds): seq<Fold.Event>
    requires ValidBook(b)
  {
    [Fold.Info(cover)] + ConsumedAll(Stream(b, o) + [Report(b, after)], kinds)
  }

  // ----- The chapters -----

  /** The archive paths of the chapter events, in order. */
  function ChapterPaths(events: seq<Event>): seq<string> {
    if events == [] then [] else (if events[0].Chapter? then [events[0].href] else []) + ChapterPaths(events[1..])
  }

  lemma {:induction false} PathsAdd(a: seq<Event>, c: seq<Event>)
    ensures ChapterPaths(a + c) == ChapterPaths(a) + ChapterPaths(c)
  {
    if a == [] {
      assert a + c == c;
    } else {
      assert (a + c)[1..] == a[1..] + c;
      PathsAdd(a[1..], c);
    }
  }

  lemma OneMoreEvent(log: seq<Fold.Event>, event: Event, kinds: Kinds)
    ensures Fold.ShapeOf(log + [Consumed(event, kinds)]).chapters == Fold.ShapeOf(log).chapters + ChapterPaths([event])
  {
    assert (log + [Consumed(event, kinds)])[..|log|] == log;
    assert ChapterPaths([event][1..]) == [];
  }

  lemma {:induction false} GroupsOfTheLog(events: seq<Event>, cover: string, kinds: Kinds)
    ensures Fold.ShapeOf([Fold.Info(cover)] + ConsumedAll(events, kinds)).chapters == ChapterPaths(events)
    decreases |events|
  {
    var log := [Fold.Info(cover)] + ConsumedAll(events, kinds);
    if events == [] {
      assert log[..0] == [];
    } else {
      var before, last := events[..|events| - 1], events[|events| - 1];
      assert log == [Fold.Info(cover)] + ConsumedAll(before, kinds) + [Consumed(last, kinds)];
      GroupsOfTheLog(before, cover, kinds);
      OneMoreEvent([Fold.Info(cover)] + ConsumedAll(before, kinds), last, kinds);
      assert events == before + [last];
      PathsAdd(before, [last]);
    }
  }

  /** The archive path of the chapter at each spine position. */
  function SpinePaths(b: Book): (paths: seq<string>)
    requires ValidBook(b)
    ensures |paths| == |b.spine| && forall k :: 0 <= k < |paths| ==> paths[k] == b.items[b.spine[k].source].path
  {
    seq(|b.spine|, k requires 0 <= k < |b.spine| => b.items[b.spine[k].source].path)
  }

  function PathsAt(b: Book, positions: seq<nat>): seq<string>
    requires ValidBook(b) && forall i :: 0 <= i < |positions| ==> positions[i] < |b.spine|
  {
    seq(|positions|, i requires 0 <= i < |positions| => b.items[b.spine[positions[i]].source].path)
  }

  lemma ChaptersAreInSpine(b: Book, slots: seq<Slot>)
    requires SlotsIn(b, slots)
    ensures forall i :: 0 <= i < |ChaptersIn(slots)| ==> ChaptersIn(slots)[i] < |b.spine|
  {
  }

  lemma PathOfOne(b: Book, slot: Slot)
    requires ValidBook(b) && SlotIn(b, slot)
    ensures ChapterPaths([SlotEvent(b, slot)]) == if slot.ChapterSlot? then [b.items[b.spine[slot.k].source].path] else []
  {
    assert ChapterPaths([SlotEvent(b, slot)][1..]) == [];
  }

  lemma PathsAtFirst(b: Book, first: nat, rest: seq<nat>)
    requires ValidBook(b) && first < |b.spine| && forall i :: 0 <= i < |rest| ==> rest[i] < |b.spine|
    ensures PathsAt(b, [first] + rest) == [b.items[b.spine[first].source].path] + PathsAt(b, rest)
  {
  }

  lemma {:induction false} PathsOfSlots(b: Book, slots: seq<Slot>)
    requires ValidBook(b) && SlotsIn(b, slots)
    ensures forall i :: 0 <= i < |ChaptersIn(slots)| ==> ChaptersIn(slots)[i] < |b.spine|
    ensures ChapterPaths(SlotEvents(b, slots)) == PathsAt(b, ChaptersIn(slots))
  {
    ChaptersAreInSpine(b, slots);
    if slots != [] {
      var first, rest := slots[0], slots[1..];
      assert slots == [first] + rest;
      SlotsFirst(b, slots, first, rest);
      PathsOfSlots(b, rest);
      PathsAdd([SlotEvent(b, first)], SlotEvents(b, rest));
      PathOfOne(b, first);
      if first.ChapterSlot? {
        PathsAtFirst(b, first.k, ChaptersIn(rest));
      }
    }
  }

  lemma {:induction false} PositionsInOrder(low: nat, high: nat)
    requires low <= high
    ensures |Range(low, high)| == high - low && forall i :: 0 <= i < high - low ==> Range(low, high)[i] == low + i
    decreases high - low
  {
    if low < high {
      PositionsInOrder(low + 1, high);
    }
  }

  /** No event of these is a chapter or a table of contents. */
  predicate OnlyOverlays(events: seq<Event>) {
    forall i :: 0 <= i < |events| ==> events[i].MediaOverlay?
  }

  lemma {:induction false} OverlaysAlone(b: Book, k: nat)
    requires ValidBook(b) && k <= |b.links|
    ensures OnlyOverlays(OverlayEventsFrom(b, k))
    decreases |b.links| - k
  {
    if k < |b.links| {
      OverlaysAlone(b, k + 1);
    }
  }

  lemma {:induction false} NoPaths(events: seq<Event>)
    requires forall i :: 0 <= i < |events| ==> !events[i].Chapter?
    ensures ChapterPaths(events) == []
  {
    if events != [] {
      NoPaths(events[1..]);
    }
  }

  lemma PathsAhead(b: Book, o: Options)
    requires ValidBook(b)
    ensures ChapterPaths(EventsAhead(b, o)) == []
  {
    OverlaysAlone(b, 0);
    NoPaths(EventsAhead(b, o));
  }

  lemma PathsOfTheWalk(b: Book)
    requires ValidBook(b)
    ensures ChapterPaths(SlotEvents(b, WalkSlots(b))) == SpinePaths(b)
  {
    PathsOfSlots(b, WalkSlots(b));
    EachIsSentOnceInOrder(b, 0, 0);
    PositionsInOrder(0, |b.spine|);
  }

  lemma PathsInTheMiddle(a: seq<Event>, middle: seq<Event>, c: seq<Event>)
    requires ChapterPaths(a) == [] && ChapterPaths(c) == []
    ensures ChapterPaths(a + middle + c) == ChapterPaths(middle)
  {
    PathsAdd(a, middle);
    PathsAdd(a + middle, c);
  }

  lemma PathsOfTheStream(b: Book, o: Options, after: Archive.Spent)
    requires ValidBook(b)
    ensures ChapterPaths(Stream(b, o) + [Report(b, after)]) == SpinePaths(b)
  {
    var ahead, walk, report := EventsAhead(b, o), SlotEvents(b, WalkSlots(b)), [Report(b, after)];
    PathsAhead(b, o);
    PathsOfTheWalk(b);
    NoPaths(report);
    PathsInTheMiddle(ahead, walk, report);
  }

  // ----- The table of contents -----

  /** The table of contents that a call reads, if it reads one. */
  function CallToc(b: Book, o: Options): seq<NavPoint>
    requires ValidBook(b)
  {
    if !o.parseNavigation || b.nav.None? then []
    else
      var source := b.nav.value;
      b.readers.toc(Archive.Content(b.archive[source.entry]), b.items[source.position].path, source.fromNcx)
  }

  lemma {:induction false} OutlineStays(log: seq<Fold.Event>, more: seq<Fold.Event>)
    requires forall i :: 0 <= i < |more| ==> !more[i].Navigation?
    ensures Fold.TocOf(log + more) == Fold.TocOf(log)
    decreases |more|
  {
    if more == [] {
      assert log + more == log;
    } else {
      assert (log + more)[..|log + more| - 1] == log + more[..|more| - 1];
      OutlineStays(log, more[..|more| - 1]);
    }
  }

  lemma {:induction false} SlotsHoldNoOutline(b: Book, slots: seq<Slot>)
    requires ValidBook(b) && SlotsIn(b, slots)
    ensures forall i :: 0 <= i < |slots| ==> !SlotEvents(b, slots)[i].Navigation?
  {
    if slots != [] {
      SlotsHoldNoOutline(b, slots[1..]);
    }
  }

  lemma ConsumedInParts(a: seq<Event>, c: seq<Event>, kinds: Kinds)
    ensures ConsumedAll(a + c, kinds) == ConsumedAll(a, kinds) + ConsumedAll(c, kinds)
  {
  }

  lemma FirstPart<T>(head: T, a: seq<T>, b: seq<T>)
    ensures [head] + (a + b) == ([head] + a) + b
  {
  }

  /** Only what comes first can hold a table of contents. */
  lemma TocComesFirst(first: seq<Event>, rest: seq<Event>, cover: string, kinds: Kinds)
    requires forall i :: 0 <= i < |rest| ==> !rest[i].Navigation?
    ensures Fold.TocOf([Fold.Info(cover)] + ConsumedAll(first + rest, kinds))
            == Fold.TocOf([Fold.Info(cover)] + ConsumedAll(first, kinds))
  {
    ConsumedInParts(first, rest, kinds);
    FirstPart(Fold.Info(cover), ConsumedAll(first, kinds), ConsumedAll(rest, kinds));
    OutlineStays([Fold.Info(cover)] + ConsumedAll(first, kinds), ConsumedAll(rest, kinds));
  }

  lemma TocOfNavEvents(b: Book, o: Options, cover: string, kinds: Kinds)
    requires ValidBook(b)
    ensures Fold.TocOf([Fold.Info(cover)] + ConsumedAll(NavEvents(b, o), kinds)) == OnWire(CallToc(b, o))
  {
    var log := [Fold.Info(cover)] + ConsumedAll(NavEvents(b, o), kinds);
    assert [Fold.Info(cover)][..0] == [];
    if NavEvents(b, o) == [] {
      assert log == [Fold.Info(cover)];
    } else {
      assert log[1] == Fold.Navigation(OnWire(CallToc(b, o)));
    }
  }

  lemma TocOfTheCall(b: Book, o: Options, cover: string, after: Archive.Spent, kinds: Kinds)
    requires ValidBook(b)
    ensures Fold.TocOf(CallLog(b, o, cover, after, kinds)) == OnWire(CallToc(b, o))
  {
    var overlays, walk, report := OverlayEvents(b, o), SlotEvents(b, WalkSlots(b)), [Report(b, after)];
    OverlaysAlone(b, 0);
    SlotsHoldNoOutline(b, WalkSlots(b));
    InFront(NavEvents(b, o), overlays, walk, report);
    TocComesFirst(NavEvents(b, o), overlays + walk + report, cover, kinds);
    TocOfNavEvents(b, o, cover, kinds);
  }

  lemma InFront<T>(a: seq<T>, b: seq<T>, c: seq<T>, d: seq<T>)
    ensures a + b + c + d == a + (b + c + d)
  {
  }

  // ----- The document -----

  /** Some chapter of the book is read from the file at `path`. */
  ghost predicate IsChapterPath(b: Book, path: string)
    requires ValidBook(b)
  {
    exists k :: 0 <= k < |b.spine| && b.items[b.spine[k].source].path == path
  }

  lemma ChaptersOfTheCall(b: Book, o: Options, cover: string, after: Archive.Spent, kinds: Kinds)
    requires ValidBook(b)
    ensures Fold.ShapeOf(CallLog(b, o, cover, after, kinds)).chapters == SpinePaths(b)
  {
    GroupsOfTheLog(Stream(b, o) + [Report(b, after)], cover, kinds);
    PathsOfTheStream(b, o, after);
  }

  /** What the outline makes of one entry that was read, in a document with these chapters. */
  lemma OutlineEntryOfACall(b: Book, log: seq<Fold.Event>, toc: seq<NavPoint>, i: nat)
    requires ValidBook(b) && Fold.ShapeOf(log).chapters == SpinePaths(b) && Fold.TocOf(log) == OnWire(toc)
    requires i < |Flatten(toc)|
    ensures |Fold.Built(log).outline| == |Flatten(toc)|
    ensures var entry, point := Fold.Built(log).outline[i], Flatten(toc)[i];
            && entry.title == point.title
            && (entry.target.None? <==> point.href == "" || !IsChapterPath(b, Fold.BeforeHash(point.href)))
  {
    OutlineAgreesWithFlatten(log, toc, i);
    PathOfTheSpine(b, Fold.BeforeHash(Flatten(toc)[i].href));
  }

  lemma OutlineOfACall(b: Book, log: seq<Fold.Event>, toc: seq<NavPoint>)
    requires ValidBook(b) && Fold.ShapeOf(log).chapters == SpinePaths(b) && Fold.TocOf(log) == OnWire(toc)
    ensures var outline, flat := Fold.Built(log).outline, Flatten(toc);
            |outline| == |flat|
            && forall i :: 0 <= i < |flat| ==>
                 outline[i].title == flat[i].title
                 && (outline[i].target.None? <==> flat[i].href == "" || !IsChapterPath(b, Fold.BeforeHash(flat[i].href)))
  {
    FlattenOnWire(toc);
    forall i | 0 <= i < |Flatten(toc)|
      ensures Fold.Built(log).outline[i].title == Flatten(toc)[i].title
      ensures Fold.Built(log).outline[i].target.None?
              <==> Flatten(toc)[i].href == "" || !IsChapterPath(b, Fold.BeforeHash(Flatten(toc)[i].href))
    {
      OutlineEntryOfACall(b, log, toc, i);
    }
  }

  lemma GroupsOfACall(b: Book, log: seq<Fold.Event>)
    requires ValidBook(b) && Fold.ShapeOf(log).chapters == SpinePaths(b)
    ensures var document := Fold.Built(log);
            |document.groups| == |b.spine|
            && forall k :: 0 <= k < |b.spine| ==>
                 document.groups[k].name == b.items[b.spine[k].source].path
                 && document.groups[k].item.selfRef == Fold.Name(Fold.GroupRef(k))
  {
  }

  /**
   * The Document of a successful call has one group for each spine position, in order,
   * named by the path of its chapter; its outline is the call's own table of contents,
   * depth-first; and an entry has no target exactly when its link is empty or leads to
   * no chapter of the spine.
   */
  lemma DocumentOfACall(b: Book, o: Options, cover: string, after: Archive.Spent, kinds: Kinds, log: seq<Fold.Event>)
    requires ValidBook(b) && log == CallLog(b, o, cover, after, kinds)
    ensures var document := Fold.Built(log);
            |document.groups| == |b.spine|
            && forall k :: 0 <= k < |b.spine| ==>
                 document.groups[k].name == b.items[b.spine[k].source].path
                 && document.groups[k].item.selfRef == Fold.Name(Fold.GroupRef(k))
    ensures var outline, flat := Fold.Built(log).outline, Flatten(CallToc(b, o));
            |outline| == |flat|
            && forall i :: 0 <= i < |flat| ==>
                 outline[i].title == flat[i].title
                 && (outline[i].target.None? <==> flat[i].href == "" || !IsChapterPath(b, Fold.BeforeHash(flat[i].href)))
  {
    ChaptersOfTheCall(b, o, cover, after, kinds);
    TocOfTheCall(b, o, cover, after, kinds);
    GroupsOfACall(b, log);
    OutlineOfACall(b, log, CallToc(b, o));
  }

  lemma PathOfTheSpine(b: Book, path: string)
    requires ValidBook(b)
    ensures Fold.ChapterNamed(SpinePaths(b), path).Some? <==> IsChapterPath(b, path)
  {
    if IsChapterPath(b, path) {
      var k :| 0 <= k < |b.spine| && b.items[b.spine[k].source].path == path;
      assert SpinePaths(b)[k] == path;
    }
  }

  // ----- A chapter that no link leads to -----

  /** A navigation document with one entry, which links to the file whose name is written `a%23b`. */
  const MarkedEntry := NavMarkup.Item([Xml.Text("x")], Some("a%23b"), true, [], NavRoundTrip.Bare, [])
  const MarkedNav := NavRoundTrip.Document([], [], NavRoundTrip.Bare, [MarkedEntry], [])

  lemma MarkIsDecoded()
    ensures Href.Unescape("a%23b") == "a#b"
  {
    var raw, mark := "a%23b", "%23b";
    assert raw[1..] == mark && mark[3..] == "b" && "b"[1..] == "";
    assert Href.HexPair('2', '3') == Some(35);
    assert Href.Unescape(mark) == ['#'] + Href.Unescape("b");
  }

  lemma MarkResolves(lossy: string -> string)
    requires lossy("a#b") == "a#b"
    ensures Href.Resolve("", "a%23b", lossy) == Ok(Href.Entry("a#b"))
  {
    var raw := "a%23b";
    assert Text.Split(raw, '#') == [raw];
    assert !Href.IsAbsoluteUri(raw);
    assert raw[1] == '%';
    MarkIsDecoded();
    DotSegments.NameIsNormalized("", "a#b");
  }

  lemma UnmarkedLink(source: string, raw: string, path: string, lossy: string -> string)
    requires raw != "" && '#' !in raw && '/' !in source
    requires Href.Resolve("", raw, lossy) == Ok(Href.Entry(path))
    ensures Resolver(source, lossy)(raw) == path
  {
    assert Text.SplitOnce(raw, '#') == None;
    assert Href.ParentDir(source) == "";
  }

  /** The escaped mark belongs to the path, and survives in the link. */
  lemma MarkSurvives(source: string, lossy: string -> string)
    requires '/' !in source && lossy("a#b") == "a#b"
    ensures Resolver(source, lossy)("a%23b") == "a#b"
  {
    MarkResolves(lossy);
    UnmarkedLink(source, "a%23b", "a#b", lossy);
  }

  lemma MarkedTitle()
    ensures NavMarkup.Title(MarkedEntry) == "x"
  {
    assert MarkedEntry.title[1..] == [];
    assert NavMarkup.TextOf(MarkedEntry.title) == "x";
    assert Text.Join(["x"], ' ') == "x";
    Whitespace.WordsOfJoin(["x"]);
  }

  lemma MarkedIsADocument()
    ensures NavRoundTrip.IsDocument(NavDocument, MarkedNav)
    ensures NavRoundTrip.Levels(MarkedNav.items) == NavRoundTrip.Count(MarkedNav.items) == 1
  {
    MarkedTitle();
    assert [MarkedEntry][1..] == [] && MarkedEntry.title[1..] == [];
    assert NavMarkup.IsItem(MarkedEntry);
  }

  lemma MarkedIsRead(source: string, lossy: string -> string)
    requires Resolver(source, lossy)("a%23b") == "a#b"
    ensures NavToc(NavRoundTrip.Print(NavDocument, MarkedNav), Resolver(source, lossy)) == [NavPoint("x", "a#b", 0, [])]
  {
    MarkedIsADocument();
    MarkedTitle();
    MarkedIsFaithful(Resolver(source, lossy));
    NavRoundTrip.BookIsReadBackExactlyWithinLimits(NavDocument, MarkedNav, source, lossy);
  }

  lemma MarkedIsFaithful(resolve: string -> string)
    requires resolve("a%23b") == "a#b" && NavMarkup.Title(MarkedEntry) == "x"
    ensures NavRoundTrip.Faithful(MarkedNav.items, 0, resolve) == [NavPoint("x", "a#b", 0, [])]
  {
    assert [MarkedEntry][1..] == [];
  }

  lemma MarkedHasNoTarget()
    ensures Fold.TargetOf("a#b", ["a#b"]) == None
  {
    Text.SplitOnceAt("a", '#', "b");
    assert "a#b" == "a" + ['#'] + "b";
    assert Fold.BeforeHash("a#b") == "a";
    assert "a" !in ["a#b"];
  }

  lemma MarkedOutline()
    ensures Fold.Outline([NavPoint("x", "a#b", 0, [])], ["a#b"]) == [OutlineEntry("x", 0, None)]
  {
    var toc := [NavPoint("x", "a#b", 0, [])];
    MarkedHasNoTarget();
    assert toc[1..] == [];
    assert Flatten(toc) == toc;
  }

  lemma PartsOfTheDocument(log: seq<Fold.Event>)
    ensures var document, chapters := Fold.Built(log), Fold.ShapeOf(log).chapters;
            && |document.groups| == |chapters| && (forall k :: 0 <= k < |chapters| ==> document.groups[k].name == chapters[k])
            && document.outline == Fold.Outline(Fold.TocOf(log), chapters)
  {
  }

  /** A manifest with the chapter `a#b` and a navigation document beside it. */
  function MarkedItems(): (items: seq<Manifest.Item>)
    ensures Manifest.Classified(items)
  {
    [Manifest.Item("c", "a#b", Some(0), false, false, true, false, true, false, "", ""),
     Manifest.Item("n", "n.xhtml", Some(1), false, false, true, false, true, true, "", "")]
  }

  /** The two readers of tables of contents, over whatever cuts bytes into events and reads overlays. */
  function ReadersOver(tokens: Archive.Bytes -> seq<Xml.Event>, cues: (Archive.Bytes, string) -> seq<Cue>, lossy: string -> string)
    : Readers
  {
    Readers((bytes, path, fromNcx) => if fromNcx then NcxToc(tokens(bytes), Resolver(path, lossy))
                                      else NavToc(tokens(bytes), Resolver(path, lossy)),
            cues)
  }

  lemma MarkedChapterResolves()
    ensures Manifest.ResolveRef(MarkedItems(), "c", {}) == Ok(Manifest.SpineSlot(0, 0, "c"))
    ensures NavigationSource(MarkedItems(), "") == Some(NavSource(1, 1, false))
  {
    var items := MarkedItems();
    assert Manifest.ById(items, "c") == Some(0);
    assert Manifest.NextInChain(items, [0]) == None;
    assert Manifest.Chain(items, [0]) == [0];
    assert Manifest.FirstSuited(items, [0], true) == Some(0);
    assert FirstNav(items) == Some(1);
  }

  lemma MarkedBookIsPrepared(archive: seq<Archive.Entry>, readers: Readers) returns (b: Book)
    requires Indexed(archive, MarkedItems())
    ensures ValidBook(b) && Prepared(archive, MarkedItems(), ["c"], "", {}, readers, b)
    ensures SpinePaths(b) == ["a#b"] && b.nav == Some(NavSource(1, 1, false)) && b.items == MarkedItems()
  {
    MarkedChapterResolves();
    var spine := [Manifest.SpineSlot(0, 0, "c")];
    b := BookOf(archive, MarkedItems(), spine, "", {}, readers);
    BookIsValid(archive, MarkedItems(), spine, "", {}, readers);
  }

  lemma MarkedDocument(log: seq<Fold.Event>, toc: seq<NavPoint>)
    requires Fold.ShapeOf(log).chapters == ["a#b"] && Fold.TocOf(log) == OnWire(toc) && toc == [NavPoint("x", "a#b", 0, [])]
    ensures |Fold.Built(log).groups| == 1 && Fold.Built(log).groups[0].name == "a#b"
    ensures Fold.Built(log).outline == [OutlineEntry("x", 0, None)]
  {
    assert OnWire(toc) == toc by { assert toc[1..] == []; }
    MarkedOutline();
    PartsOfTheDocument(log);
  }

  lemma MarkedTocIsRead(
      b: Book, o: Options, tokens: Archive.Bytes -> seq<Xml.Event>, cues: (Archive.Bytes, string) -> seq<Cue>, lossy: string -> string)
    requires ValidBook(b) && b.items == MarkedItems() && b.nav == Some(NavSource(1, 1, false)) && |b.archive| > 1
    requires b.readers == ReadersOver(tokens, cues, lossy) && o.parseNavigation && lossy("a#b") == "a#b"
    requires tokens(Archive.Content(b.archive[1])) == NavRoundTrip.Print(NavDocument, MarkedNav)
    ensures CallToc(b, o) == [NavPoint("x", "a#b", 0, [])]
  {
    assert b.items[1].path == "n.xhtml";
    MarkSurvives("n.xhtml", lossy);
    MarkedIsRead("n.xhtml", lossy);
  }

  lemma MarkedDocumentOfACall(b: Book, o: Options, cover: string, after: Archive.Spent, kinds: Kinds, log: seq<Fold.Event>)
    requires ValidBook(b) && SpinePaths(b) == ["a#b"] && CallToc(b, o) == [NavPoint("x", "a#b", 0, [])]
    requires log == CallLog(b, o, cover, after, kinds)
    ensures |Fold.Built(log).groups| == 1 && Fold.Built(log).groups[0].name == "a#b"
    ensures Fold.Built(log).outline == [OutlineEntry("x", 0, None)]
  {
    ChaptersOfTheCall(b, o, cover, after, kinds);
    TocOfTheCall(b, o, cover, after, kinds);
    MarkedDocument(log, CallToc(b, o));
  }

  /**
   * A book whose manifest names its one chapter as `a%23b`, which is the file `a#b`, and
   * whose navigation document links to it in the same way: the link is read as the
   * chapter's own path, and yet in the Document of the call its entry has no target.
   */
  lemma MarkedChapterLosesItsLink(
      archive: seq<Archive.Entry>, tokens: Archive.Bytes -> seq<Xml.Event>, cues: (Archive.Bytes, string) -> seq<Cue>,
      lossy: string -> string, readers: Readers, o: Options, cover: string, after: Archive.Spent, kinds: Kinds)
    returns (b: Book, log: seq<Fold.Event>)
    requires |archive| > 1 && Indexed(archive, MarkedItems()) && o.parseNavigation && lossy("a#b") == "a#b"
    requires tokens(Archive.Content(archive[1])) == NavRoundTrip.Print(NavDocument, MarkedNav)
    requires readers == ReadersOver(tokens, cues, lossy)
    ensures Href.Resolve("", "a%23b", lossy) == Ok(Href.Entry("a#b"))
    ensures NavRoundTrip.IsDocument(NavDocument, MarkedNav)
    ensures ValidBook(b) && Prepared(archive, MarkedItems(), ["c"], "", {}, readers, b)
    ensures CallToc(b, o) == [NavPoint("x", "a#b", 0, [])] && log == CallLog(b, o, cover, after, kinds)
    ensures |Fold.Built(log).groups| == 1 && Fold.Built(log).groups[0].name == "a#b"
    ensures Fold.Built(log).outline == [OutlineEntry("x", 0, None)]
  {
    MarkResolves(lossy);
    MarkedIsADocument();
    b := MarkedBookIsPrepared(archive, readers);
    MarkedTocIsRead(b, o, tokens, cues, lossy);
    log := CallLog(b, o, cover, after, kinds);
    MarkedDocumentOfACall(b, o, cover, after, kinds, log);
  }
}
