/**
 * What a table of contents means: each dialect's reader, run on the markup of a
 * forest, against a recursive function of the forest.
 */
module NavMeaning {
  import opened Nav
  import opened NavMarkup
  import opened NavTree
  import opened Xml

  // ----- Meaning -----

  datatype Kept = Kept(points: seq<NavPoint>, count: nat)

  /** The last link in document order among `items` and all below them. */
  function LastTarget(items: seq<Item>, otherwise: string, resolve: string -> string): string {
    if items == [] then otherwise
    else LastTarget(items[1..], LastTarget(items[0].children, Target(items[0], otherwise, resolve), resolve), resolve)
  }

  /** Entries of an NCX past the deepest level are gone, but the last of their links stays. */
  function LinkOf(dialect: Dialect, item: Item, level: nat, resolve: string -> string): string {
    var own := Target(item, "", resolve);
    if dialect.Ncx? && level == MAX_DEPTH - 1 then LastTarget(item.children, own, resolve) else own
  }

  /**
   * The entries kept of a forest at `level` when `count` were kept before: none
   * at the 33rd level or below, and in the order in which the entries close, none
   * after the 5000th; an entry that is not kept takes all that is below it along.
   */
  function Meaning(dialect: Dialect, items: seq<Item>, level: nat, count: nat, resolve: string -> string): Kept {
    if items == [] || level >= MAX_DEPTH then Kept([], count)
    else
      var below := Meaning(dialect, items[0].children, level + 1, count, resolve);
      var first := MeaningOfOne(dialect, items[0], level, below, resolve);
      var rest := Meaning(dialect, items[1..], level, first.count, resolve);
      Kept(first.points + rest.points, rest.count)
  }

  function MeaningOfOne(dialect: Dialect, item: Item, level: nat, below: Kept, resolve: string -> string): Kept {
    if below.count < MAX_ENTRIES
    then Kept([NavPoint(Title(item), LinkOf(dialect, item, level, resolve), 0, below.points)], below.count + 1)
    else Kept([], below.count)
  }

  // ----- States between entries -----

  /** Attach finished entries, in order. */
  function AttachAll(s: State, points: seq<NavPoint>): State {
    if s.stack == [] then s.(roots := s.roots + points)
    else
      var parent := Top(s.stack).point;
      s.(stack := WithTop(s.stack, parent.(children := parent.children + points)))
  }

  /** Between two entries at `level`: inside the list, every open entry labelled and none too deep. */
  ghost predicate Ready(s: State, level: nat) {
    && s.inside && !s.inLabel && s.text == ""
    && s.outerDepth <= s.depth
    && |s.stack| == (if level < MAX_DEPTH then level else MAX_DEPTH)
    && (s.stack == [] || (Top(s.stack).depth <= s.depth && Top(s.stack).point.title != ""))
  }

  // ----- One entry -----

  /** After an entry's head: opened with its label and link, or, past the deepest level, only its link used. */
  function Opened(dialect: Dialect, s: State, item: Item, resolve: string -> string): State {
    var down := s.(depth := s.depth + 1);
    if |s.stack| < MAX_DEPTH then
      down.(stack := s.stack + [Open(NavPoint(Title(item), Target(item, "", resolve), 0, []), s.depth + 1)])
    else if dialect.Ncx? then Retarget(down, Target(item, TopHref(s), resolve))
    else down
  }

  lemma OpenedIsReady(dialect: Dialect, s: State, item: Item, level: nat, resolve: string -> string)
    requires Ready(s, level) && IsItem(item)
    ensures Ready(Opened(dialect, s, item, resolve), level + 1)
  {
  }

  lemma AttachToPushed(s: State, stack: seq<Open>, open: Open, points: seq<NavPoint>)
    ensures AttachAll(s.(stack := stack + [open]), points)
            == s.(stack := stack + [open.(point := open.point.(children := open.point.children + points))])
  {
    TopOfPushed(stack, open);
  }

  lemma RetargetPushed(s: State, stack: seq<Open>, open: Open, href: string)
    ensures TopHref(s.(stack := stack + [open])) == open.point.href
    ensures Retarget(s.(stack := stack + [open]), href)
            == s.(stack := stack + [open.(point := open.point.(href := href))])
  {
    TopOfPushed(stack, open);
  }

  /** Three stretches of events, one after another. */
  lemma InTurn(step: Reader, s: State, a: seq<Event>, b: seq<Event>, c: seq<Event>, s1: State, s2: State, s3: State)
    requires Fold(step, s, a) == s1 && Fold(step, s1, b) == s2 && Fold(step, s2, c) == s3
    ensures Fold(step, s, a + b + c) == s3
  {
    FoldPlus(step, s, a, b);
    FoldPlus(step, s, a + b, c);
  }

  /** After an entry's start tag. */
  function Entered(s: State): State {
    s.(depth := s.depth + 1,
       stack := if |s.stack| < MAX_DEPTH then s.stack + [Open(Blank(), s.depth + 1)] else s.stack)
  }

  /** The label and link of a navigation document's entry complete what its start tag opened. */
  lemma LabelOpens(s: State, item: Item, level: nat, resolve: string -> string)
    requires Ready(s, level)
    ensures var s1 := Entered(s);
            s1.stack != []
            && Opened(NavDocument, s, item, resolve)
               == if Top(s1.stack).point.title != "" then s1
                  else s1.(stack := WithTop(s1.stack, Top(s1.stack).point.(href := Target(item, "", resolve), title := Title(item))))
  {
    if |s.stack| < MAX_DEPTH {
      TopOfPushed(s.stack, Open(Blank(), s.depth + 1));
    }
  }

  lemma NavNameRun(step: Reader, s: State, item: Item, level: nat, resolve: string -> string)
    requires Reads(step, NavDocument, resolve) && resolve("") == "" && IsItem(item) && Ready(s, level)
    ensures Fold(step, s, [Start(EntryName(NavDocument), item.attrs)] + item.gaps.before + Label(NavDocument, item))
            == Opened(NavDocument, s, item, resolve)
  {
    var start, s1 := [Start(EntryName(NavDocument), item.attrs)], Entered(s);
    EntryStart(step, NavDocument, s, item.attrs, resolve);
    LabelOpens(s, item, level, resolve);
    NavNameFrom(step, s1, item, resolve);
    InTurn(step, s, start, item.gaps.before, Label(NavDocument, item), s1, s1, Opened(NavDocument, s, item, resolve));
  }

  lemma NavNameFrom(step: Reader, s: State, item: Item, resolve: string -> string)
    requires Reads(step, NavDocument, resolve) && resolve("") == "" && IsItem(item)
    requires s.inside && s.stack != [] && !s.inLabel && s.text == "" && Clear(s, 0)
    ensures Fold(step, s, item.gaps.before) == s
    ensures Fold(step, s, Label(NavDocument, item))
            == if Top(s.stack).point.title != "" then s
               else s.(stack := WithTop(s.stack, Top(s.stack).point.(href := Target(item, "", resolve), title := Title(item))))
  {
    GapRun(step, NavDocument, s, item.gaps.before, resolve);
    NavLabelRun(step, s, item, resolve);
  }

  lemma NavHeadRun(step: Reader, s: State, item: Item, level: nat, resolve: string -> string)
    requires Reads(step, NavDocument, resolve) && resolve("") == "" && IsItem(item) && Ready(s, level)
    ensures Fold(step, s, Head(NavDocument, item)) == Opened(NavDocument, s, item, resolve)
  {
    var name, between :=
      [Start(EntryName(NavDocument), item.attrs)] + item.gaps.before + Label(NavDocument, item), item.gaps.between;
    assert between + Content(NavDocument, item) == between;
    NavNameRun(step, s, item, level, resolve);
    GapRun(step, NavDocument, Opened(NavDocument, s, item, resolve), between, resolve);
    FoldPlus(step, s, name, between);
  }

  /** In an NCX the label comes before the link. */
  function Named(s: State, item: Item): State {
    s.(depth := s.depth + 1,
       stack := if |s.stack| < MAX_DEPTH then s.stack + [Open(Blank().(title := Title(item)), s.depth + 1)] else s.stack)
  }

  lemma NcxNameRun(step: Reader, s: State, item: Item, level: nat, resolve: string -> string)
    requires Reads(step, Ncx, resolve) && IsItem(item) && Ready(s, level)
    ensures Fold(step, s, [Start(EntryName(Ncx), item.attrs)] + item.gaps.before + Label(Ncx, item)) == Named(s, item)
  {
    var start, before, name := [Start(EntryName(Ncx), item.attrs)], item.gaps.before, Label(Ncx, item);
    var s1 := Fold(step, s, start);
    EntryStart(step, Ncx, s, item.attrs, resolve);
    GapRun(step, Ncx, s1, before, resolve);
    FoldPlus(step, s, start, before);
    NcxLabelRun(step, s1, item, resolve);
    FoldPlus(step, s, start + before, name);
    if |s.stack| < MAX_DEPTH {
      TopOfPushed(s.stack, Open(Blank(), s.depth + 1));
    }
  }

  lemma NcxHeadRun(step: Reader, s: State, item: Item, level: nat, resolve: string -> string)
    requires Reads(step, Ncx, resolve) && IsItem(item) && Ready(s, level)
    ensures Fold(step, s, Head(Ncx, item)) == Opened(Ncx, s, item, resolve)
  {
    var name, between, content :=
      [Start(EntryName(Ncx), item.attrs)] + item.gaps.before + Label(Ncx, item), item.gaps.between, Content(Ncx, item);
    var named := Named(s, item);
    NcxNameRun(step, s, item, level, resolve);
    GapRun(step, Ncx, named, between, resolve);
    NcxContent(step, named, item, resolve);
    FoldPlus(step, named, between, content);
    FoldPlus(step, s, name, between + content);
    if |s.stack| < MAX_DEPTH {
      var open := Open(Blank().(title := Title(item)), s.depth + 1);
      RetargetPushed(s.(depth := s.depth + 1), s.stack, open, Target(item, "", resolve));
    }
  }

  /** After everything in `items` at `level`. */
  function After(dialect: Dialect, s: State, items: seq<Item>, level: nat, resolve: string -> string): State {
    if level < MAX_DEPTH then
      var kept := Meaning(dialect, items, level, s.entries, resolve);
      AttachAll(s, kept.points).(entries := kept.count)
    else if dialect.Ncx? then Retarget(s, LastTarget(items, TopHref(s), resolve))
    else s
  }

  /** After one entry and everything in it. */
  function AfterOne(dialect: Dialect, s: State, item: Item, level: nat, resolve: string -> string): State {
    if level < MAX_DEPTH then
      var below := Meaning(dialect, item.children, level + 1, s.entries, resolve);
      var kept := MeaningOfOne(dialect, item, level, below, resolve);
      AttachAll(s, kept.points).(entries := kept.count)
    else if dialect.Ncx? then
      Retarget(s, LastTarget(item.children, Target(item, TopHref(s), resolve), resolve))
    else s
  }

  lemma AfterCons(dialect: Dialect, s: State, items: seq<Item>, level: nat, resolve: string -> string)
    requires items != [] && (level >= MAX_DEPTH ==> s.stack != [])
    ensures After(dialect, s, items, level, resolve)
            == After(dialect, AfterOne(dialect, s, items[0], level, resolve), items[1..], level, resolve)
  {
    if level < MAX_DEPTH {
      var below := Meaning(dialect, items[0].children, level + 1, s.entries, resolve);
      var first := MeaningOfOne(dialect, items[0], level, below, resolve);
      var rest := Meaning(dialect, items[1..], level, first.count, resolve);
      AttachTwice(s, first.points, rest.points);
    }
  }

  lemma AttachTwice(s: State, a: seq<NavPoint>, b: seq<NavPoint>)
    ensures AttachAll(AttachAll(s, a), b) == AttachAll(s, a + b)
    ensures AttachAll(s, []) == s
  {
    if s.stack == [] {
      assert s.roots + a + b == s.roots + (a + b) && s.roots + [] == s.roots;
    } else {
      var held := Top(s.stack).point.children;
      assert held + a + b == held + (a + b) && held + [] == held;
      TopOfWithTop(s.stack, Top(s.stack).point.(children := held + a));
    }
  }

  /** Reading entries keeps the reader between two entries, at the same depth. */
  lemma AfterIsReady(dialect: Dialect, s: State, items: seq<Item>, level: nat, resolve: string -> string)
    requires Ready(s, level)
    ensures var after := After(dialect, s, items, level, resolve);
            Ready(after, level) && after.depth == s.depth && Clear(after, 0)
  {
  }

  lemma AfterOneIsReady(dialect: Dialect, s: State, item: Item, level: nat, resolve: string -> string)
    requires Ready(s, level)
    ensures Ready(AfterOne(dialect, s, item, level, resolve), level)
  {
  }

  /** The level at which a sublist is read does not matter to what is read. */
  lemma AfterAtDepth(dialect: Dialect, s: State, items: seq<Item>, level: nat, depth: nat, resolve: string -> string)
    ensures After(dialect, s.(depth := depth), items, level, resolve)
            == After(dialect, s, items, level, resolve).(depth := depth)
  {
  }

  /** A sublist in a list element of its own, given what its entries do one level down. */
  lemma ListedRun(step: Reader, s: State, lead: seq<Event>, items: seq<Item>, inner: seq<Event>, level: nat, resolve: string -> string)
    requires Reads(step, NavDocument, resolve) && Neutral(lead, 0) && Ready(s, level)
    requires var down := s.(depth := s.depth + 1); Fold(step, down, inner) == After(NavDocument, down, items, level, resolve)
    ensures Fold(step, s, [Start("ol", [])] + lead + inner + [End("ol")]) == After(NavDocument, s, items, level, resolve)
  {
    var start, end := [Start("ol", [])], [End("ol")];
    var down := s.(depth := s.depth + 1);
    UnknownStart(step, NavDocument, s, "ol", [], resolve);
    GapRun(step, NavDocument, down, lead, resolve);
    Chain(step, s, start, lead, inner, end);
    AfterIsReady(NavDocument, s, items, level, resolve);
    AfterAtDepth(NavDocument, s, items, level, s.depth + 1, resolve);
    UnknownEnd(step, NavDocument, After(NavDocument, down, items, level, resolve), "ol", resolve);
  }

  /** A sublist in its wrapping, given what its entries do. */
  lemma WrapRun(step: Reader, dialect: Dialect, s: State, item: Item, inner: seq<Event>, level: nat, resolve: string -> string)
    requires Reads(step, dialect, resolve) && Clean(item.gaps) && Ready(s, level)
    requires forall depth: nat | s.depth <= depth ::
               Fold(step, s.(depth := depth), inner) == After(dialect, s.(depth := depth), item.children, level, resolve)
    ensures Fold(step, s, Wrap(dialect, item, inner)) == After(dialect, s, item.children, level, resolve)
  {
    if dialect.NavDocument? && item.children != [] {
      ListedRun(step, s, item.gaps.lead, item.children, inner, level, resolve);
    } else {
      GapRun(step, dialect, s, item.gaps.lead, resolve);
      assert s.(depth := s.depth) == s;
      FoldPlus(step, s, item.gaps.lead, inner);
    }
  }

  lemma OpenTakesChildren(dialect: Dialect, s: State, stack: seq<Open>, open: Open, items: seq<Item>, level: nat, resolve: string -> string)
    requires level < MAX_DEPTH && open.point.children == []
    ensures var below := Meaning(dialect, items, level, s.entries, resolve);
            After(dialect, s.(stack := stack + [open]), items, level, resolve)
            == s.(stack := stack + [Open(open.point.(children := below.points), open.depth)], entries := below.count)
  {
    var below := Meaning(dialect, items, level, s.entries, resolve);
    AttachToPushed(s, stack, open, below.points);
    assert [] + below.points == below.points;
  }

  /** At the deepest level an open entry takes no children; in an NCX it takes the last link below it. */
  lemma OpenTakesLink(dialect: Dialect, s: State, stack: seq<Open>, open: Open, items: seq<Item>, level: nat, resolve: string -> string)
    requires level >= MAX_DEPTH
    ensures var href := if dialect.Ncx? then LastTarget(items, open.point.href, resolve) else open.point.href;
            After(dialect, s.(stack := stack + [open]), items, level, resolve)
            == s.(stack := stack + [Open(open.point.(href := href), open.depth)])
  {
    RetargetPushed(s, stack, open, LastTarget(items, open.point.href, resolve));
    TopOfPushed(stack, open);
  }

  /** With its sublist read, an open entry holds exactly what it means. */
  lemma OpenHoldsBelow(dialect: Dialect, s: State, item: Item, level: nat, resolve: string -> string)
    requires Ready(s, level) && level < MAX_DEPTH
    ensures var below := Meaning(dialect, item.children, level + 1, s.entries, resolve);
            var point := NavPoint(Title(item), LinkOf(dialect, item, level, resolve), 0, below.points);
            After(dialect, Opened(dialect, s, item, resolve), item.children, level + 1, resolve)
            == s.(depth := s.depth + 1, stack := s.stack + [Open(point, s.depth + 1)], entries := below.count)
  {
    var open := Open(NavPoint(Title(item), Target(item, "", resolve), 0, []), s.depth + 1);
    var down := s.(depth := s.depth + 1);
    if level + 1 < MAX_DEPTH {
      OpenTakesChildren(dialect, down, s.stack, open, item.children, level + 1, resolve);
    } else {
      OpenTakesLink(dialect, down, s.stack, open, item.children, level + 1, resolve);
    }
  }

  lemma ClosePoint(s: State, point: NavPoint, entries: nat)
    requires s.inside && s.outerDepth <= s.depth && point.title != ""
    ensures Rise(PopAt(s.(depth := s.depth + 1, stack := s.stack + [Open(point, s.depth + 1)], entries := entries)))
            == if entries < MAX_ENTRIES then AttachAll(s, [point]).(entries := entries + 1) else s.(entries := entries)
  {
    TopOfPushed(s.stack, Open(point, s.depth + 1));
  }

  lemma CloseOpen(dialect: Dialect, s: State, item: Item, level: nat, below: Kept, resolve: string -> string)
    requires s.inside && s.outerDepth <= s.depth && Title(item) != ""
    ensures var point := NavPoint(Title(item), LinkOf(dialect, item, level, resolve), 0, below.points);
            var kept := MeaningOfOne(dialect, item, level, below, resolve);
            Rise(PopAt(s.(depth := s.depth + 1, stack := s.stack + [Open(point, s.depth + 1)], entries := below.count)))
            == AttachAll(s, kept.points).(entries := kept.count)
  {
    ClosePoint(s, NavPoint(Title(item), LinkOf(dialect, item, level, resolve), 0, below.points), below.count);
    AttachTwice(s, [], []);
  }

  /** Closing an entry after its sublist gives what the entry means. */
  lemma CloseRead(dialect: Dialect, s: State, item: Item, level: nat, resolve: string -> string)
    requires Ready(s, level) && IsItem(item)
    ensures Rise(PopAt(After(dialect, Opened(dialect, s, item, resolve), item.children, level + 1, resolve)))
            == AfterOne(dialect, s, item, level, resolve)
  {
    if level < MAX_DEPTH {
      CloseKept(dialect, s, item, level, resolve);
    } else {
      CloseDropped(dialect, s, item, level, resolve);
    }
  }

  lemma CloseKept(dialect: Dialect, s: State, item: Item, level: nat, resolve: string -> string)
    requires Ready(s, level) && level < MAX_DEPTH && Title(item) != ""
    ensures Rise(PopAt(After(dialect, Opened(dialect, s, item, resolve), item.children, level + 1, resolve)))
            == AfterOne(dialect, s, item, level, resolve)
  {
    OpenHoldsBelow(dialect, s, item, level, resolve);
    CloseOpen(dialect, s, item, level, Meaning(dialect, item.children, level + 1, s.entries, resolve), resolve);
  }

  lemma CloseDropped(dialect: Dialect, s: State, item: Item, level: nat, resolve: string -> string)
    requires Ready(s, level) && level >= MAX_DEPTH
    ensures Rise(PopAt(After(dialect, Opened(dialect, s, item, resolve), item.children, level + 1, resolve)))
            == AfterOne(dialect, s, item, level, resolve)
  {
    if dialect.Ncx? {
      TopOfWithTop(s.stack, Top(s.stack).point.(href := Target(item, TopHref(s), resolve)));
    }
  }

  lemma FootRun(step: Reader, dialect: Dialect, s: State, item: Item, level: nat, resolve: string -> string)
    requires Reads(step, dialect, resolve) && IsItem(item) && Ready(s, level)
    ensures Fold(step, After(dialect, Opened(dialect, s, item, resolve), item.children, level + 1, resolve), Foot(dialect, item))
            == AfterOne(dialect, s, item, level, resolve)
  {
    var inner := After(dialect, Opened(dialect, s, item, resolve), item.children, level + 1, resolve);
    var close, end, after := item.gaps.close, [End(EntryName(dialect))], item.gaps.after;
    OpenedIsReady(dialect, s, item, level, resolve);
    AfterIsReady(dialect, Opened(dialect, s, item, resolve), item.children, level + 1, resolve);
    GapRun(step, dialect, inner, close, resolve);
    FoldPlus(step, inner, close, end);
    EntryEnd(step, dialect, inner, resolve);
    CloseRead(dialect, s, item, level, resolve);
    AfterOneIsReady(dialect, s, item, level, resolve);
    GapRun(step, dialect, AfterOne(dialect, s, item, level, resolve), after, resolve);
    FoldPlus(step, inner, close + end, after);
  }

  // ----- A forest -----

  lemma HeadRun(step: Reader, dialect: Dialect, s: State, item: Item, level: nat, resolve: string -> string)
    requires Reads(step, dialect, resolve) && resolve("") == "" && IsItem(item) && Ready(s, level)
    ensures Fold(step, s, Head(dialect, item)) == Opened(dialect, s, item, resolve)
  {
    match dialect
    case NavDocument => NavHeadRun(step, s, item, level, resolve);
    case Ncx => NcxHeadRun(step, s, item, level, resolve);
  }

  /** Reading the markup of a forest at any level, from any state between two entries, adds what the forest means. */
  lemma {:induction false} ForestRun(step: Reader, dialect: Dialect, s: State, items: seq<Item>, level: nat, resolve: string -> string)
    requires Reads(step, dialect, resolve) && resolve("") == "" && WellFormed(items) && Ready(s, level)
    ensures Fold(step, s, Markup(dialect, items)) == After(dialect, s, items, level, resolve)
    decreases items
  {
    if items == [] {
      AttachTwice(s, [], []);
      if s.stack != [] {
        SameTop(s.stack);
      }
    } else {
      var item, rest := items[0], items[1..];
      var inner, within := Markup(dialect, item.children), Opened(dialect, s, item, resolve);
      HeadRun(step, dialect, s, item, level, resolve);
      OpenedIsReady(dialect, s, item, level, resolve);
      forall depth: nat | within.depth <= depth
        ensures Fold(step, within.(depth := depth), inner) == After(dialect, within.(depth := depth), item.children, level + 1, resolve)
      {
        ForestRun(step, dialect, within.(depth := depth), item.children, level + 1, resolve);
      }
      WrapRun(step, dialect, within, item, inner, level + 1, resolve);
      FootRun(step, dialect, s, item, level, resolve);
      var one := AfterOne(dialect, s, item, level, resolve);
      AfterOneIsReady(dialect, s, item, level, resolve);
      ForestRun(step, dialect, one, rest, level, resolve);
      AfterCons(dialect, s, items, level, resolve);
      Chain(step, s, Head(dialect, item), Wrap(dialect, item, inner), Foot(dialect, item), Markup(dialect, rest));
    }
  }

  lemma Chain(step: Reader, s: State, a: seq<Event>, b: seq<Event>, c: seq<Event>, d: seq<Event>)
    ensures Fold(step, s, a + b + c + d) == Fold(step, Fold(step, Fold(step, Fold(step, s, a), b), c), d)
  {
    FoldPlus(step, s, a + b + c, d);
    FoldPlus(step, s, a + b, c);
    FoldPlus(step, s, a, b);
  }
}
