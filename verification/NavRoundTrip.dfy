/**
 * Whole documents: what is read of a table of contents, for every forest and in
 * both dialects, and exactly when that is the forest itself.
 */
module NavRoundTrip {
  import opened DotSegments
  import Href
  import opened Nav
  import opened NavMarkup
  import opened NavMeaning
  import opened NavSafety
  import opened NavTree
  import opened Outcomes
  import opened Text
  import opened Whitespace
  import opened Xml

  // ----- Documents -----

  /** No event opens a table of contents. */
  predicate Quiet(dialect: Dialect, events: seq<Event>) {
    forall i :: 0 <= i < |events| ==> QuietEvent(dialect, events[i])
  }

  predicate QuietEvent(dialect: Dialect, event: Event) {
    event.Start? ==>
      match dialect
      case NavDocument => event.name == "nav" ==> !IsTocKind(Attribute(event.attrs, "type"))
      case Ncx => event.name != "navMap"
  }

  /** A table of contents between anything that opens no other one. */
  datatype Document = Document(prolog: seq<Event>, attrs: seq<Attr>, gaps: Gaps, items: seq<Item>, epilog: seq<Event>)

  predicate IsDocument(dialect: Dialect, doc: Document) {
    && Quiet(dialect, doc.prolog) && Quiet(dialect, doc.epilog)
    && (dialect.NavDocument? ==> IsTocKind(Attribute(doc.attrs, "type")))
    && Clean(doc.gaps) && WellFormed(doc.items)
  }

  function ListName(dialect: Dialect): string {
    if dialect.NavDocument? then "nav" else "navMap"
  }

  /** The list as the contents of an entry that is not itself printed. */
  function Root(doc: Document): Item {
    Item([], None, true, [], doc.gaps, doc.items)
  }

  function Body(dialect: Dialect, doc: Document): seq<Event> {
    doc.gaps.before + Wrap(dialect, Root(doc), Markup(dialect, doc.items)) + doc.gaps.close
  }

  function Print(dialect: Dialect, doc: Document): seq<Event> {
    doc.prolog + [Start(ListName(dialect), doc.attrs)] + Body(dialect, doc) + [End(ListName(dialect))] + doc.epilog
  }

  function Toc(dialect: Dialect, events: seq<Event>, resolve: string -> string): seq<NavPoint> {
    if dialect.NavDocument? then NavToc(events, resolve) else NcxToc(events, resolve)
  }

  // ----- Outside the list -----

  ghost predicate Idle(s: State) {
    !s.inside && !s.inLabel && s.text == "" && s.stack == []
  }

  /** Outside the list, only the depth changes. */
  lemma QuietStep(step: Reader, dialect: Dialect, s: State, event: Event, resolve: string -> string)
    requires Reads(step, dialect, resolve) && Idle(s) && QuietEvent(dialect, event)
    ensures var after := step(s, event); after == s.(depth := after.depth)
  {
    assert Seen(s, event);
  }

  lemma {:induction false} QuietRun(step: Reader, dialect: Dialect, s: State, events: seq<Event>, resolve: string -> string)
    requires Reads(step, dialect, resolve) && Idle(s) && Quiet(dialect, events)
    ensures var after := Fold(step, s, events); after == s.(depth := after.depth)
  {
    if events != [] {
      var before := events[..|events| - 1];
      QuietRun(step, dialect, s, before, resolve);
      QuietStep(step, dialect, Fold(step, s, before), events[|events| - 1], resolve);
    }
  }

  lemma ListStart(step: Reader, dialect: Dialect, s: State, attrs: seq<Attr>, resolve: string -> string)
    requires Reads(step, dialect, resolve) && Idle(s)
    requires dialect.NavDocument? ==> IsTocKind(Attribute(attrs, "type"))
    ensures Fold(step, s, [Start(ListName(dialect), attrs)])
            == s.(inside := true, depth := s.depth + 1, outerDepth := s.depth + 1)
  {
    FoldOne(step, s, Start(ListName(dialect), attrs));
    assert Seen(s, Start(ListName(dialect), attrs));
  }

  lemma ListEnd(step: Reader, dialect: Dialect, s: State, resolve: string -> string)
    requires Reads(step, dialect, resolve) && s.stack == [] && !s.inLabel && s.depth == s.outerDepth > 0
    ensures Fold(step, s, [End(ListName(dialect))]) == s.(inside := false, depth := s.depth - 1)
  {
    FoldOne(step, s, End(ListName(dialect)));
    assert Seen(s, End(ListName(dialect)));
  }

  // ----- The whole document -----

  lemma BodyRun(step: Reader, dialect: Dialect, s: State, doc: Document, resolve: string -> string)
    requires Reads(step, dialect, resolve) && resolve("") == ""
    requires Clean(doc.gaps) && WellFormed(doc.items) && Ready(s, 0)
    ensures Fold(step, s, Body(dialect, doc)) == After(dialect, s, doc.items, 0, resolve)
  {
    var inner := Markup(dialect, doc.items);
    var list := Wrap(dialect, Root(doc), inner);
    GapRun(step, dialect, s, doc.gaps.before, resolve);
    FoldPlus(step, s, doc.gaps.before, list);
    forall depth: nat | s.depth <= depth
      ensures Fold(step, s.(depth := depth), inner) == After(dialect, s.(depth := depth), doc.items, 0, resolve)
    {
      ForestRun(step, dialect, s.(depth := depth), doc.items, 0, resolve);
    }
    WrapRun(step, dialect, s, Root(doc), inner, 0, resolve);
    AfterIsReady(dialect, s, doc.items, 0, resolve);
    GapRun(step, dialect, After(dialect, s, doc.items, 0, resolve), doc.gaps.close, resolve);
    FoldPlus(step, s, doc.gaps.before + list, doc.gaps.close);
  }

  lemma PrintRun(step: Reader, dialect: Dialect, doc: Document, resolve: string -> string)
    requires Reads(step, dialect, resolve) && resolve("") == "" && IsDocument(dialect, doc)
    ensures var after := Fold(step, Initial, Print(dialect, doc));
            after.stack == [] && after.roots == Meaning(dialect, doc.items, 0, 0, resolve).points
  {
    var start, body, end := [Start(ListName(dialect), doc.attrs)], Body(dialect, doc), [End(ListName(dialect))];
    var s0 := Fold(step, Initial, doc.prolog);
    QuietRun(step, dialect, Initial, doc.prolog, resolve);
    ListStart(step, dialect, s0, doc.attrs, resolve);
    var s1 := Fold(step, s0, start);
    BodyRun(step, dialect, s1, doc, resolve);
    var s2 := Fold(step, s1, body);
    assert [] + Meaning(dialect, doc.items, 0, 0, resolve).points == Meaning(dialect, doc.items, 0, 0, resolve).points;
    ListEnd(step, dialect, s2, resolve);
    var s3 := Fold(step, s2, end);
    QuietRun(step, dialect, s3, doc.epilog, resolve);
    Chain(step, Initial, doc.prolog, start, body, end);
    FoldPlus(step, Initial, doc.prolog + start + body + end, doc.epilog);
  }

  /** What either reader makes of the markup of any forest is what the forest means, numbered from the top. */
  lemma ReadingIsMeaning(dialect: Dialect, doc: Document, resolve: string -> string)
    requires resolve("") == "" && IsDocument(dialect, doc)
    ensures Toc(dialect, Print(dialect, doc), resolve)
            == Renumber(Meaning(dialect, doc.items, 0, 0, resolve).points, 0)
  {
    var step: Reader := (s, event) => Step(dialect, s, event, resolve);
    PrintRun(step, dialect, doc, resolve);
    RunIsFold(step, dialect, Initial, Print(dialect, doc), resolve);
  }

  // ----- When nothing is lost -----

  /** The forest itself: every label, every link resolved, every depth the distance from the top. */
  function Faithful(items: seq<Item>, depth: nat, resolve: string -> string): seq<NavPoint> {
    if items == [] then []
    else
      [NavPoint(Title(items[0]), Target(items[0], "", resolve), depth, Faithful(items[0].children, depth + 1, resolve))]
      + Faithful(items[1..], depth, resolve)
  }

  function Levels(items: seq<Item>): nat {
    if items == [] then 0 else Max(1 + Levels(items[0].children), Levels(items[1..]))
  }

  function Count(items: seq<Item>): nat {
    if items == [] then 0 else 1 + Count(items[0].children) + Count(items[1..])
  }

  lemma {:induction false} FaithfulShape(items: seq<Item>, depth: nat, resolve: string -> string)
    ensures Height(Faithful(items, depth, resolve)) == Levels(items)
    ensures Nodes(Faithful(items, depth, resolve)) == Count(items)
  {
    if items != [] {
      FaithfulShape(items[0].children, depth + 1, resolve);
      FaithfulShape(items[1..], depth, resolve);
      assert Faithful(items, depth, resolve)[1..] == Faithful(items[1..], depth, resolve);
    }
  }

  /** Within the deepest level, every entry counts until the limit is reached. */
  lemma {:induction false} CountSaturates(dialect: Dialect, items: seq<Item>, level: nat, count: nat, resolve: string -> string)
    requires level + Levels(items) <= MAX_DEPTH && count <= MAX_ENTRIES
    ensures var kept := Meaning(dialect, items, level, count, resolve).count;
            kept == if count + Count(items) < MAX_ENTRIES then count + Count(items) else MAX_ENTRIES
    decreases items
  {
    if items != [] {
      CountSaturates(dialect, items[0].children, level + 1, count, resolve);
      var below := Meaning(dialect, items[0].children, level + 1, count, resolve);
      CountSaturates(dialect, items[1..], level, MeaningOfOne(dialect, items[0], level, below, resolve).count, resolve);
    }
  }

  /** Within both limits everything is kept. */
  lemma {:induction false} WithinLimitsIsFaithful(
      dialect: Dialect, items: seq<Item>, level: nat, count: nat, depth: nat, resolve: string -> string)
    requires level + Levels(items) <= MAX_DEPTH && count + Count(items) <= MAX_ENTRIES
    ensures Renumber(Meaning(dialect, items, level, count, resolve).points, depth) == Faithful(items, depth, resolve)
    decreases items
  {
    if items != [] {
      var item, rest := items[0], items[1..];
      var below := Meaning(dialect, item.children, level + 1, count, resolve);
      var first := MeaningOfOne(dialect, item, level, below, resolve);
      CountSaturates(dialect, item.children, level + 1, count, resolve);
      WithinLimitsIsFaithful(dialect, item.children, level + 1, count, depth + 1, resolve);
      WithinLimitsIsFaithful(dialect, rest, level, first.count, depth, resolve);
      WithinLimitsLink(dialect, item, level, resolve);
      RenumberCons(first.points[0], Meaning(dialect, rest, level, first.count, resolve).points, depth);
    }
  }

  lemma WithinLimitsLink(dialect: Dialect, item: Item, level: nat, resolve: string -> string)
    requires level + 1 + Levels(item.children) <= MAX_DEPTH
    ensures LinkOf(dialect, item, level, resolve) == Target(item, "", resolve)
  {
    if level == MAX_DEPTH - 1 {
      assert item.children == [];
    }
  }

  lemma RenumberCons(first: NavPoint, rest: seq<NavPoint>, depth: nat)
    ensures Renumber([first] + rest, depth) == [RenumberOne(first, depth)] + Renumber(rest, depth)
  {
    assert ([first] + rest)[1..] == rest;
  }

  /** What is kept never exceeds either limit. */
  lemma {:induction false} KeptShape(dialect: Dialect, items: seq<Item>, level: nat, count: nat, resolve: string -> string)
    requires level <= MAX_DEPTH && count <= MAX_ENTRIES
    ensures var kept := Meaning(dialect, items, level, count, resolve);
            kept.count <= MAX_ENTRIES && count + Nodes(kept.points) <= kept.count && level + Height(kept.points) <= MAX_DEPTH
    decreases items
  {
    if items != [] && level < MAX_DEPTH {
      var below := Meaning(dialect, items[0].children, level + 1, count, resolve);
      var first := MeaningOfOne(dialect, items[0], level, below, resolve);
      var rest := Meaning(dialect, items[1..], level, first.count, resolve);
      KeptShape(dialect, items[0].children, level + 1, count, resolve);
      KeptShape(dialect, items[1..], level, first.count, resolve);
      if first.points == [] {
        assert first.points + rest.points == rest.points;
      } else {
        assert (first.points + rest.points)[1..] == rest.points;
      }
    }
  }

  /**
   * A table of contents is read back as the forest it was written from, in either
   * dialect, exactly when it has at most 32 levels and at most 5000 entries.
   */
  lemma RoundTripExactlyWithinLimits(dialect: Dialect, doc: Document, resolve: string -> string)
    requires resolve("") == "" && IsDocument(dialect, doc)
    ensures Toc(dialect, Print(dialect, doc), resolve) == Faithful(doc.items, 0, resolve)
            <==> Levels(doc.items) <= MAX_DEPTH && Count(doc.items) <= MAX_ENTRIES
  {
    var kept := Meaning(dialect, doc.items, 0, 0, resolve);
    ReadingIsMeaning(dialect, doc, resolve);
    if Levels(doc.items) <= MAX_DEPTH && Count(doc.items) <= MAX_ENTRIES {
      WithinLimitsIsFaithful(dialect, doc.items, 0, 0, 0, resolve);
    } else {
      KeptShape(dialect, doc.items, 0, 0, resolve);
      RenumberKeepsShape(kept.points, 0);
      FaithfulShape(doc.items, 0, resolve);
    }
  }

  /** The same for a document that stands somewhere in a book, its links read as the readers do. */
  lemma BookIsReadBackExactlyWithinLimits(dialect: Dialect, doc: Document, source: string, lossy: string -> string)
    requires IsDocument(dialect, doc)
    ensures var resolve := Resolver(source, lossy);
            Toc(dialect, Print(dialect, doc), resolve) == Faithful(doc.items, 0, resolve)
            <==> Levels(doc.items) <= MAX_DEPTH && Count(doc.items) <= MAX_ENTRIES
  {
    RoundTripExactlyWithinLimits(dialect, doc, Resolver(source, lossy));
  }

  // ----- Where the dialects agree -----

  /** How many of the entries stand above the 33rd level. */
  function Shallow(items: seq<Item>, level: nat): nat {
    if items == [] || level >= MAX_DEPTH then 0
    else Shallow(items[0].children, level + 1) + 1 + Shallow(items[1..], level)
  }

  /**
   * With `before` entries closed so far: every entry at the 32nd level that closes
   * among the first 5000 has, as the last link at or below it, one that leads where
   * its own does. An entry that is too late takes along all that is below it.
   */
  predicate LastLinksKept(items: seq<Item>, level: nat, before: nat, resolve: string -> string) {
    items == [] || level >= MAX_DEPTH
    || (var item, closed := items[0], before + Shallow(items[0].children, level + 1);
        && (closed < MAX_ENTRIES ==> KeepsItsLink(item, level, resolve) && LastLinksKept(item.children, level + 1, before, resolve))
        && LastLinksKept(items[1..], level, closed + 1, resolve))
  }

  predicate KeepsItsLink(item: Item, level: nat, resolve: string -> string) {
    var own := Target(item, "", resolve);
    level == MAX_DEPTH - 1 ==> LastTarget(item.children, own, resolve) == own
  }

  function Counted(before: nat): nat {
    if before < MAX_ENTRIES then before else MAX_ENTRIES
  }

  /** How many entries count in the end, when `count` did before. */
  function CountedFrom(items: seq<Item>, level: nat, count: nat): nat {
    if items == [] || level >= MAX_DEPTH then count
    else
      var below := CountedFrom(items[0].children, level + 1, count);
      CountedFrom(items[1..], level, if below < MAX_ENTRIES then below + 1 else below)
  }

  lemma {:induction false} CountIgnoresDialect(dialect: Dialect, items: seq<Item>, level: nat, count: nat, resolve: string -> string)
    ensures Meaning(dialect, items, level, count, resolve).count == CountedFrom(items, level, count)
    decreases items
  {
    if items != [] && level < MAX_DEPTH {
      var below := Meaning(dialect, items[0].children, level + 1, count, resolve);
      CountIgnoresDialect(dialect, items[0].children, level + 1, count, resolve);
      CountIgnoresDialect(dialect, items[1..], level, MeaningOfOne(dialect, items[0], level, below, resolve).count, resolve);
    }
  }

  lemma {:induction false} CountIsShallow(items: seq<Item>, level: nat, before: nat)
    ensures CountedFrom(items, level, Counted(before)) == Counted(before + Shallow(items, level))
    decreases items
  {
    if items != [] && level < MAX_DEPTH {
      CountIsShallow(items[0].children, level + 1, before);
      CountIsShallow(items[1..], level, before + Shallow(items[0].children, level + 1) + 1);
    }
  }

  lemma SameCons<T>(a: T, b: T, rest: seq<T>, rest': seq<T>)
    ensures [a] + rest == [b] + rest' <==> a == b && rest == rest'
  {
    if [a] + rest == [b] + rest' {
      assert ([a] + rest)[0] == ([b] + rest')[0] && ([a] + rest)[1..] == ([b] + rest')[1..];
    }
  }

  /** A forest as it is read when `before` entries have closed. */
  function ReadFrom(dialect: Dialect, items: seq<Item>, level: nat, before: nat, depth: nat, resolve: string -> string)
    : seq<NavPoint>
  {
    Renumber(Meaning(dialect, items, level, Counted(before), resolve).points, depth)
  }

  /** What is read of an entry that closes after `closed` others. */
  function ReadOne(
      dialect: Dialect, item: Item, level: nat, closed: nat, depth: nat, below: seq<NavPoint>, resolve: string -> string)
    : seq<NavPoint>
  {
    if closed < MAX_ENTRIES then [NavPoint(Title(item), LinkOf(dialect, item, level, resolve), depth, below)] else []
  }

  /** How many entries count once those below the first have closed. */
  lemma CountedBelow(dialect: Dialect, items: seq<Item>, level: nat, before: nat, resolve: string -> string)
    requires items != [] && level < MAX_DEPTH
    ensures Meaning(dialect, items[0].children, level + 1, Counted(before), resolve).count
            == Counted(before + Shallow(items[0].children, level + 1))
  {
    CountIgnoresDialect(dialect, items[0].children, level + 1, Counted(before), resolve);
    CountIsShallow(items[0].children, level + 1, before);
  }

  /** One entry as it is read, with what was kept below it. */
  lemma OneRead(dialect: Dialect, item: Item, level: nat, closed: nat, below: Kept, depth: nat, resolve: string -> string)
    requires below.count == Counted(closed)
    ensures var first := MeaningOfOne(dialect, item, level, below, resolve);
            && first.count == Counted(closed + 1)
            && Renumber(first.points, depth) == ReadOne(dialect, item, level, closed, depth, Renumber(below.points, depth + 1), resolve)
  {
    if closed < MAX_ENTRIES {
      RenumberCons(NavPoint(Title(item), LinkOf(dialect, item, level, resolve), 0, below.points), [], depth);
    }
  }

  lemma RenumberPlus(a: seq<NavPoint>, b: seq<NavPoint>, depth: nat)
    requires |a| <= 1
    ensures Renumber(a + b, depth) == Renumber(a, depth) + Renumber(b, depth)
  {
    if a == [] {
      assert a + b == b;
    } else {
      assert a == [a[0]];
      RenumberCons(a[0], b, depth);
      RenumberCons(a[0], [], depth);
    }
  }

  /** What is read of a forest, in parts, each with the number of entries closed before it. */
  lemma ReadInParts(dialect: Dialect, items: seq<Item>, level: nat, before: nat, depth: nat, resolve: string -> string)
    requires items != [] && level < MAX_DEPTH
    ensures var item, rest, closed := items[0], items[1..], before + Shallow(items[0].children, level + 1);
            ReadFrom(dialect, items, level, before, depth, resolve)
            == ReadOne(dialect, item, level, closed, depth,
                       ReadFrom(dialect, item.children, level + 1, before, depth + 1, resolve), resolve)
               + ReadFrom(dialect, rest, level, closed + 1, depth, resolve)
  {
    var closed := before + Shallow(items[0].children, level + 1);
    var below := Meaning(dialect, items[0].children, level + 1, Counted(before), resolve);
    var first := MeaningOfOne(dialect, items[0], level, below, resolve);
    CountedBelow(dialect, items, level, before, resolve);
    OneRead(dialect, items[0], level, closed, below, depth, resolve);
    RenumberPlus(first.points, Meaning(dialect, items[1..], level, Counted(closed + 1), resolve).points, depth);
  }

  /** The same, entry by entry. */
  function Reading(dialect: Dialect, items: seq<Item>, level: nat, before: nat, depth: nat, resolve: string -> string): seq<NavPoint> {
    if items == [] || level >= MAX_DEPTH then []
    else
      var closed := before + Shallow(items[0].children, level + 1);
      var below := Reading(dialect, items[0].children, level + 1, before, depth + 1, resolve);
      ReadOne(dialect, items[0], level, closed, depth, below, resolve)
      + Reading(dialect, items[1..], level, closed + 1, depth, resolve)
  }

  /** Nothing is read of no entries, or below the deepest level. */
  lemma NothingToRead(dialect: Dialect, items: seq<Item>, level: nat, before: nat, depth: nat, resolve: string -> string)
    requires items == [] || level >= MAX_DEPTH
    ensures ReadFrom(dialect, items, level, before, depth, resolve) == [] == Reading(dialect, items, level, before, depth, resolve)
  {
  }

  lemma ReadingInParts(dialect: Dialect, items: seq<Item>, level: nat, before: nat, depth: nat, resolve: string -> string)
    requires items != [] && level < MAX_DEPTH
    requires ReadFrom(dialect, items[0].children, level + 1, before, depth + 1, resolve)
             == Reading(dialect, items[0].children, level + 1, before, depth + 1, resolve)
    requires var closed := before + Shallow(items[0].children, level + 1);
             ReadFrom(dialect, items[1..], level, closed + 1, depth, resolve)
             == Reading(dialect, items[1..], level, closed + 1, depth, resolve)
    ensures ReadFrom(dialect, items, level, before, depth, resolve) == Reading(dialect, items, level, before, depth, resolve)
  {
    ReadInParts(dialect, items, level, before, depth, resolve);
  }

  lemma {:induction false} ReadEntryByEntry(
      dialect: Dialect, items: seq<Item>, level: nat, before: nat, depth: nat, resolve: string -> string)
    ensures ReadFrom(dialect, items, level, before, depth, resolve) == Reading(dialect, items, level, before, depth, resolve)
    decreases items
  {
    if items == [] || level >= MAX_DEPTH {
      NothingToRead(dialect, items, level, before, depth, resolve);
    } else {
      ReadEntryByEntry(dialect, items[0].children, level + 1, before, depth + 1, resolve);
      ReadEntryByEntry(dialect, items[1..], level, before + Shallow(items[0].children, level + 1) + 1, depth, resolve);
      ReadingInParts(dialect, items, level, before, depth, resolve);
    }
  }

  /** Two readings of one entry, and of those after it. */
  lemma SameInParts(
      item: Item, level: nat, closed: nat, depth: nat, nav: seq<NavPoint>, ncx: seq<NavPoint>,
      navRest: seq<NavPoint>, ncxRest: seq<NavPoint>, resolve: string -> string)
    ensures ReadOne(NavDocument, item, level, closed, depth, nav, resolve) + navRest
            == ReadOne(Ncx, item, level, closed, depth, ncx, resolve) + ncxRest
            <==> (closed < MAX_ENTRIES ==> KeepsItsLink(item, level, resolve) && nav == ncx) && navRest == ncxRest
  {
    if closed < MAX_ENTRIES {
      SameCons(ReadOne(NavDocument, item, level, closed, depth, nav, resolve)[0],
               ReadOne(Ncx, item, level, closed, depth, ncx, resolve)[0], navRest, ncxRest);
    } else {
      assert [] + navRest == navRest && [] + ncxRest == ncxRest;
    }
  }

  lemma {:induction false} SameExactlyWhen(items: seq<Item>, level: nat, before: nat, depth: nat, resolve: string -> string)
    ensures Reading(NavDocument, items, level, before, depth, resolve) == Reading(Ncx, items, level, before, depth, resolve)
            <==> LastLinksKept(items, level, before, resolve)
    decreases items
  {
    if items != [] && level < MAX_DEPTH {
      var item, rest, closed := items[0], items[1..], before + Shallow(items[0].children, level + 1);
      SameExactlyWhen(item.children, level + 1, before, depth + 1, resolve);
      SameExactlyWhen(rest, level, closed + 1, depth, resolve);
      SameInParts(item, level, closed, depth,
                  Reading(NavDocument, item.children, level + 1, before, depth + 1, resolve),
                  Reading(Ncx, item.children, level + 1, before, depth + 1, resolve),
                  Reading(NavDocument, rest, level, closed + 1, depth, resolve),
                  Reading(Ncx, rest, level, closed + 1, depth, resolve), resolve);
    }
  }

  /**
   * The two dialects of one forest, of whatever size and depth, read the same exactly
   * when no kept entry at the 32nd level has a later link below it that leads elsewhere.
   */
  lemma DialectsAgreeExactlyWhen(nav: Document, ncx: Document, resolve: string -> string)
    requires resolve("") == "" && IsDocument(NavDocument, nav) && IsDocument(Ncx, ncx) && nav.items == ncx.items
    ensures NavToc(Print(NavDocument, nav), resolve) == NcxToc(Print(Ncx, ncx), resolve)
            <==> LastLinksKept(nav.items, 0, 0, resolve)
  {
    ReadingIsMeaning(NavDocument, nav, resolve);
    ReadingIsMeaning(Ncx, ncx, resolve);
    ReadEntryByEntry(NavDocument, nav.items, 0, 0, 0, resolve);
    ReadEntryByEntry(Ncx, ncx.items, 0, 0, 0, resolve);
    SameExactlyWhen(nav.items, 0, 0, 0, resolve);
  }

  lemma {:induction false} ShallowLinksAreKept(items: seq<Item>, level: nat, before: nat, resolve: string -> string)
    requires level + Levels(items) <= MAX_DEPTH
    ensures LastLinksKept(items, level, before, resolve)
    decreases items
  {
    if items != [] && level < MAX_DEPTH {
      if level == MAX_DEPTH - 1 {
        assert items[0].children == [];
      }
      ShallowLinksAreKept(items[0].children, level + 1, before, resolve);
      ShallowLinksAreKept(items[1..], level, before + Shallow(items[0].children, level + 1) + 1, resolve);
    }
  }

  /** Up to 32 levels, and however many entries, the two dialects of one forest read the same. */
  lemma DialectsAgree(nav: Document, ncx: Document, resolve: string -> string)
    requires resolve("") == "" && IsDocument(NavDocument, nav) && IsDocument(Ncx, ncx)
    requires nav.items == ncx.items && Levels(nav.items) <= MAX_DEPTH
    ensures NavToc(Print(NavDocument, nav), resolve) == NcxToc(Print(Ncx, ncx), resolve)
  {
    ShallowLinksAreKept(nav.items, 0, 0, resolve);
    DialectsAgreeExactlyWhen(nav, ncx, resolve);
  }

  // ----- What is lost beyond the limits -----

  /** A single top entry is kept exactly when fewer than 5000 entries close before it. */
  lemma OneHeadingIsKept(dialect: Dialect, item: Item, resolve: string -> string)
    ensures Meaning(dialect, [item], 0, 0, resolve).points == [] <==> Shallow(item.children, 1) >= MAX_ENTRIES
  {
    var below := Meaning(dialect, item.children, 1, 0, resolve);
    var first := MeaningOfOne(dialect, item, 0, below, resolve);
    CountIgnoresDialect(dialect, item.children, 1, 0, resolve);
    CountIsShallow(item.children, 1, 0);
    assert [item][1..] == [];
    assert Meaning(dialect, [item], 0, 0, resolve).points == first.points + [];
  }

  lemma OneHeadingMore(item: Item)
    ensures Shallow([item], 0) == Shallow(item.children, 1) + 1
  {
    assert [item][1..] == [];
  }

  lemma RenumberedNothing(points: seq<NavPoint>)
    ensures Renumber(points, 0) == [] <==> points == []
  {
  }

  /**
   * A document whose entries all stand under one heading has no outline exactly when
   * more than 5000 of them stand above the 33rd level, the heading included.
   */
  lemma CrowdedEntryIsLost(dialect: Dialect, doc: Document, resolve: string -> string)
    requires resolve("") == "" && IsDocument(dialect, doc) && |doc.items| == 1
    ensures Toc(dialect, Print(dialect, doc), resolve) == [] <==> Shallow(doc.items, 0) > MAX_ENTRIES
  {
    assert doc.items == [doc.items[0]];
    ReadingIsMeaning(dialect, doc, resolve);
    OneHeadingIsKept(dialect, doc.items[0], resolve);
    OneHeadingMore(doc.items[0]);
    RenumberedNothing(Meaning(dialect, doc.items, 0, 0, resolve).points);
  }

  const Bare := Gaps([], [], [], [], [])

  /** An entry labelled `x` that links to the file `a`. */
  function Labelled(children: seq<Item>): Item {
    Item([Event.Text("x")], Some("a"), true, [], Bare, children)
  }

  function Flat(n: nat): seq<Item> {
    if n == 0 then [] else [Labelled([])] + Flat(n - 1)
  }

  lemma LabelledIsItem(children: seq<Item>)
    ensures IsItem(Labelled(children))
  {
    var item := Labelled(children);
    assert item.title[1..] == [] && TextOf(item.title) == "x";
    assert Join(["x"], ' ') == "x";
    WordsOfJoin(["x"]);
  }

  lemma {:induction false} FlatShape(n: nat, level: nat)
    requires level < MAX_DEPTH
    ensures WellFormed(Flat(n)) && Shallow(Flat(n), level) == n == Count(Flat(n)) && Levels(Flat(n)) <= 1
  {
    if n > 0 {
      assert Flat(n)[1..] == Flat(n - 1);
      LabelledIsItem([]);
      FlatShape(n - 1, level);
    }
  }

  /** A heading over `n` entries, on two levels in all, is read as nothing exactly from 5000 entries on. */
  lemma HeadingOverMany(dialect: Dialect, doc: Document, n: nat, source: string, lossy: string -> string)
    requires doc == Document([], [], Bare, [Labelled(Flat(n))], [])
    ensures IsDocument(dialect, doc) && Levels(doc.items) <= 2 && Count(doc.items) == n + 1
    ensures Toc(dialect, Print(dialect, doc), Resolver(source, lossy)) == [] <==> n >= 5000
  {
    FlatShape(n, 1);
    LabelledIsItem(Flat(n));
    assert doc.items[1..] == [];
    OneHeadingMore(doc.items[0]);
    CrowdedEntryIsLost(dialect, doc, Resolver(source, lossy));
  }

  /** `n` entries, each inside the one before, all linking to `a` but the innermost, which links to `b`. */
  function Nested(n: nat): seq<Item> {
    if n == 0 then []
    else [Item([Event.Text("x")], Some(if n == 1 then "b" else "a"), true, [], Bare, Nested(n - 1))]
  }

  /** The link of the first entry of the first entry, and so on to the bottom. */
  function Bottom(points: seq<NavPoint>): string {
    if points == [] then ""
    else if points[0].children == [] then points[0].href
    else Bottom(points[0].children)
  }

  lemma {:induction false} NestedMeaning(dialect: Dialect, n: nat, resolve: string -> string)
    requires 2 <= n <= MAX_DEPTH + 1
    ensures var kept := Meaning(dialect, Nested(n), MAX_DEPTH + 1 - n, 0, resolve);
            kept.count == n - 1 && |kept.points| == 1
            && Bottom(kept.points) == resolve(if dialect.Ncx? then "b" else "a")
  {
    var item := Nested(n)[0];
    assert Nested(n)[1..] == [];
    if n == 2 {
      assert LastTarget(Nested(1), resolve("a"), resolve) == resolve("b") by {
        assert Nested(1)[1..] == [] && Nested(1)[0].children == [];
      }
    } else {
      NestedMeaning(dialect, n - 1, resolve);
    }
    var below := Meaning(dialect, item.children, MAX_DEPTH + 2 - n, 0, resolve);
    var one := MeaningOfOne(dialect, item, MAX_DEPTH + 1 - n, below, resolve);
    assert Meaning(dialect, Nested(n), MAX_DEPTH + 1 - n, 0, resolve).points == one.points + [];
  }

  lemma {:induction false} NestedIsWellFormed(n: nat)
    ensures WellFormed(Nested(n)) && Levels(Nested(n)) == n
  {
    if n > 0 {
      var item := Nested(n)[0];
      assert Nested(n)[1..] == [];
      NestedIsWellFormed(n - 1);
      assert item.title[1..] == [] && TextOf(item.title) == "x";
      assert Join(["x"], ' ') == "x";
      WordsOfJoin(["x"]);
    }
  }

  lemma {:induction false} RenumberKeepsBottom(points: seq<NavPoint>, depth: nat)
    ensures Bottom(Renumber(points, depth)) == Bottom(points)
  {
    if points != [] {
      RenumberKeepsBottom(points[0].children, depth + 1);
      assert Renumber(points, depth)[0] == RenumberOne(points[0], depth);
    }
  }

  /** What either dialect reads at the bottom of 33 nested entries. */
  lemma NestedIsRead(dialect: Dialect, doc: Document, resolve: string -> string)
    requires resolve("") == "" && doc == Document([], [], Bare, Nested(33), [])
    ensures IsDocument(dialect, doc)
    ensures Bottom(Toc(dialect, Print(dialect, doc), resolve)) == resolve(if dialect.Ncx? then "b" else "a")
  {
    NestedIsWellFormed(33);
    NestedMeaning(dialect, 33, resolve);
    ReadingIsMeaning(dialect, doc, resolve);
    RenumberKeepsBottom(Meaning(dialect, doc.items, 0, 0, resolve).points, 0);
  }

  /**
   * One level deeper the dialects part: of 33 nested entries both keep 32, but in an
   * NCX the innermost kept entry takes the link of the one that was dropped.
   */
  lemma DialectsPartAtLevel33(nav: Document, ncx: Document, source: string, lossy: string -> string)
    requires |Href.ParentDir(source)| + 2 <= Href.MAX_PATH_BYTES
    requires nav == Document([], [], Bare, Nested(33), []) && ncx == nav
    ensures IsDocument(NavDocument, nav) && IsDocument(Ncx, ncx)
    ensures var resolve := Resolver(source, lossy);
            NavToc(Print(NavDocument, nav), resolve) != NcxToc(Print(Ncx, ncx), resolve)
            && Bottom(NavToc(Print(NavDocument, nav), resolve)) == InDirectory(Href.ParentDir(source), "a")
            && Bottom(NcxToc(Print(Ncx, ncx), resolve)) == InDirectory(Href.ParentDir(source), "b")
  {
    TwoLinks(source, lossy);
    NestedIsRead(NavDocument, nav, Resolver(source, lossy));
    NestedIsRead(Ncx, ncx, Resolver(source, lossy));
  }

  lemma TwoLinks(source: string, lossy: string -> string)
    requires |Href.ParentDir(source)| + 2 <= Href.MAX_PATH_BYTES
    ensures var a, b := Resolver(source, lossy)("a"), Resolver(source, lossy)("b");
            a != b && a == InDirectory(Href.ParentDir(source), "a") && b == InDirectory(Href.ParentDir(source), "b")
  {
    PlainLink(source, "a", lossy);
    PlainLink(source, "b", lossy);
    EndsWith(Href.ParentDir(source), "a");
    EndsWith(Href.ParentDir(source), "b");
  }

  /** A plain file name leads to the file of that name beside the table of contents. */
  lemma PlainLink(source: string, name: string, lossy: string -> string)
    requires IsPlain(name) && |name| + |Href.ParentDir(source)| + 1 <= Href.MAX_PATH_BYTES
    ensures Resolver(source, lossy)(name) == InDirectory(Href.ParentDir(source), name)
  {
    PlainNameResolves(Href.ParentDir(source), name, lossy);
    assert SplitOnce(name, '#') == None;
  }

  lemma EndsWith(baseDir: string, name: string)
    requires name != ""
    ensures var path := InDirectory(baseDir, name); path != "" && path[|path| - 1] == name[|name| - 1]
  {
  }
}
