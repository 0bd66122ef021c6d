/**
 * The markup of a table of contents in each dialect, and what the readers make
 * of its parts: neutral markup between the entries, and the label of an entry.
 */
module NavMarkup {
  import opened Nav
  import opened NavTree
  import opened Outcomes
  import opened Whitespace
  import opened Xml

  // ----- Markup that neither reader looks at -----

  predicate IsKey(name: string) {
    || name == "nav" || name == "li" || name == "a" || name == "span"
    || name == "navMap" || name == "navPoint" || name == "text" || name == "content"
  }

  /** Balanced markup, `level` elements deep, with no element that either reader knows. */
  predicate Neutral(events: seq<Event>, level: nat) {
    if events == [] then level == 0
    else
      match events[0]
      case Start(name, _) => !IsKey(name) && Neutral(events[1..], level + 1)
      case End(name) => !IsKey(name) && level > 0 && Neutral(events[1..], level - 1)
      case Empty(name, _) => !IsKey(name) && Neutral(events[1..], level)
      case _ => Neutral(events[1..], level)
  }

  function TextOf(events: seq<Event>): string {
    if events == [] then "" else (if events[0].Text? then events[0].text else "") + TextOf(events[1..])
  }

  lemma TextOfCons(events: seq<Event>)
    requires events != []
    ensures TextOf(events) == TextOf([events[0]]) + TextOf(events[1..])
    ensures !events[0].Text? ==> TextOf(events) == TextOf(events[1..])
  {
    assert TextOf([events[0]][1..]) == "";
  }

  // ----- Forests and their markup -----

  /** Stretches of neutral markup: before the label, after it, before the sublist, after it, and after the entry. */
  datatype Gaps = Gaps(before: seq<Event>, between: seq<Event>, lead: seq<Event>, close: seq<Event>, after: seq<Event>)

  /** An entry: its label as markup, its link if it has one, as an empty tag or as two, and what is nested in it. */
  datatype Item = Item(
    title: seq<Event>, link: Option<string>, emptyTag: bool, attrs: seq<Attr>, gaps: Gaps, children: seq<Item>)

  predicate WellFormed(items: seq<Item>) {
    items == [] || (IsItem(items[0]) && WellFormed(items[0].children) && WellFormed(items[1..]))
  }

  predicate IsItem(item: Item) {
    Neutral(item.title, 0) && Title(item) != "" && Clean(item.gaps)
  }

  predicate Clean(gaps: Gaps) {
    && Neutral(gaps.before, 0) && Neutral(gaps.between, 0) && Neutral(gaps.lead, 0)
    && Neutral(gaps.close, 0) && Neutral(gaps.after, 0)
  }

  function EntryName(dialect: Dialect): string {
    if dialect.NavDocument? then "li" else "navPoint"
  }

  /** A link, or a span where there is none. */
  function LinkStart(item: Item): Event {
    if item.link.Some? then Start("a", [Attr("href", item.link.value)]) else Start("span", [])
  }

  function LinkEnd(item: Item): Event {
    End(if item.link.Some? then "a" else "span")
  }

  function Label(dialect: Dialect, item: Item): seq<Event> {
    match dialect
    case NavDocument => [LinkStart(item)] + item.title + [LinkEnd(item)]
    case Ncx => [Start("navLabel", [])] + ([Start("text", [])] + item.title + [End("text")]) + [End("navLabel")]
  }

  function Content(dialect: Dialect, item: Item): seq<Event> {
    if dialect.NavDocument? || item.link.None? then []
    else if item.emptyTag then [Empty("content", [Attr("src", item.link.value)])]
    else [Start("content", [Attr("src", item.link.value)])] + [End("content")]
  }

  function Head(dialect: Dialect, item: Item): seq<Event> {
    [Start(EntryName(dialect), item.attrs)] + item.gaps.before + Label(dialect, item)
    + (item.gaps.between + Content(dialect, item))
  }

  /** A navigation document wraps a sublist in a list element; an NCX nests its entries directly. */
  function Wrap(dialect: Dialect, item: Item, inner: seq<Event>): seq<Event> {
    if dialect.NavDocument? && item.children != []
    then [Start("ol", [])] + item.gaps.lead + inner + [End("ol")]
    else item.gaps.lead + inner
  }

  function Foot(dialect: Dialect, item: Item): seq<Event> {
    item.gaps.close + [End(EntryName(dialect))] + item.gaps.after
  }

  function Markup(dialect: Dialect, items: seq<Item>): seq<Event> {
    if items == [] then []
    else
      Head(dialect, items[0]) + Wrap(dialect, items[0], Markup(dialect, items[0].children)) + Foot(dialect, items[0])
      + Markup(dialect, items[1..])
  }

  function Title(item: Item): string {
    Collapse(TextOf(item.title))
  }

  function Target(item: Item, otherwise: string, resolve: string -> string): string {
    if item.link.Some? then resolve(item.link.value) else otherwise
  }

  // ----- Stacks -----

  function Retarget(s: State, href: string): State {
    if s.stack == [] then s else s.(stack := WithTop(s.stack, Top(s.stack).point.(href := href)))
  }

  function TopHref(s: State): string {
    if s.stack == [] then "" else Top(s.stack).point.href
  }

  lemma SameTop(stack: seq<Open>)
    requires stack != []
    ensures WithTop(stack, Top(stack).point) == stack
  {
  }

  lemma TopOfWithTop(stack: seq<Open>, point: NavPoint)
    requires stack != []
    ensures Top(WithTop(stack, point)) == Top(stack).(point := point)
    ensures Below(WithTop(stack, point)) == Below(stack)
  {
  }

  lemma TopOfPushed(stack: seq<Open>, open: Open)
    ensures Top(stack + [open]) == open && Below(stack + [open]) == stack
  {
  }

  // ----- Runs -----

  type Reader = (State, Event) -> State

  /** Marks the steps that a proof looks into; all others stay closed. */
  ghost predicate Seen(s: State, event: Event) {
    true
  }

  /** `step` is one step of this dialect's reader. */
  ghost predicate Reads(step: Reader, dialect: Dialect, resolve: string -> string) {
    forall s, event {:trigger Seen(s, event)} :: Seen(s, event) ==> step(s, event) == Step(dialect, s, event, resolve)
  }

  function Fold(step: Reader, s: State, events: seq<Event>): State {
    if events == [] then s else step(Fold(step, s, events[..|events| - 1]), events[|events| - 1])
  }

  lemma {:induction false} RunIsFold(step: Reader, dialect: Dialect, s: State, events: seq<Event>, resolve: string -> string)
    requires Reads(step, dialect, resolve)
    ensures Run(dialect, s, events, resolve) == Fold(step, s, events)
  {
    if events != [] {
      var before := events[..|events| - 1];
      RunIsFold(step, dialect, s, before, resolve);
      assert Seen(Fold(step, s, before), events[|events| - 1]);
    }
  }

  lemma {:induction false} FoldPlus(step: Reader, s: State, a: seq<Event>, b: seq<Event>)
    ensures Fold(step, s, a + b) == Fold(step, Fold(step, s, a), b)
    decreases |b|
  {
    if b == [] {
      assert a + b == a;
    } else {
      assert (a + b)[..|a + b| - 1] == a + b[..|b| - 1];
      FoldPlus(step, s, a, b[..|b| - 1]);
    }
  }

  lemma FoldOne(step: Reader, s: State, event: Event)
    ensures Fold(step, s, [event]) == step(s, event)
  {
    assert [event][..0] == [];
    assert Fold(step, s, []) == s;
  }

  /** An element that the reader does not know changes nothing but the depth. */
  lemma UnknownStart(step: Reader, dialect: Dialect, s: State, name: string, attrs: seq<Attr>, resolve: string -> string)
    requires Reads(step, dialect, resolve) && !IsKey(name)
    ensures Fold(step, s, [Start(name, attrs)]) == s.(depth := s.depth + 1)
  {
    FoldOne(step, s, Start(name, attrs));
    assert Seen(s, Start(name, attrs));
  }

  lemma UnknownEnd(step: Reader, dialect: Dialect, s: State, name: string, resolve: string -> string)
    requires Reads(step, dialect, resolve) && !IsKey(name) && Clear(s, 1)
    ensures Fold(step, s, [End(name)]) == s.(depth := s.depth - 1)
  {
    FoldOne(step, s, End(name));
    assert Seen(s, End(name));
    assert PopAt(s) == s;
  }

  lemma UnknownOther(step: Reader, dialect: Dialect, s: State, event: Event, resolve: string -> string)
    requires Reads(step, dialect, resolve)
    requires !event.Start? && !event.End? && (event.Empty? ==> !IsKey(event.name))
    ensures Fold(step, s, [event]) == Heard(s, TextOf([event]))
  {
    FoldOne(step, s, event);
    assert Seen(s, event);
    assert TextOf([event][1..]) == "";
    assert s.text + "" == s.text;
    if event.Text? {
      assert TextOf([event]) == event.text;
    }
  }

  function Heard(s: State, text: string): State {
    if s.inLabel then s.(text := s.text + text) else s
  }

  lemma HeardTwice(s: State, a: string, b: string)
    ensures Heard(Heard(s, a), b) == Heard(s, a + b)
    ensures Heard(s, "") == s
  {
    assert s.text + a + b == s.text + (a + b);
    assert s.text + "" == s.text;
  }

  /** The innermost `level` elements are neither an open entry nor the list itself. */
  ghost predicate Clear(s: State, level: nat) {
    && level <= s.depth
    && (s.stack == [] || Top(s.stack).depth <= s.depth - level)
    && (s.inside ==> s.outerDepth <= s.depth - level)
  }

  function Rises(event: Event): int {
    match event
    case Start(_, _) => 1
    case End(_) => -1
    case _ => 0
  }

  lemma NeutralStep(
      step: Reader, dialect: Dialect, s: State, events: seq<Event>, level: nat, resolve: string -> string)
    requires Reads(step, dialect, resolve)
    requires events != [] && Neutral(events, level) && Clear(s, level)
    ensures var rise := Rises(events[0]);
            level + rise >= 0 && Neutral(events[1..], level + rise) && Clear(s.(depth := s.depth + rise), level + rise)
            && Fold(step, s, [events[0]]) == Heard(s.(depth := s.depth + rise), TextOf([events[0]]))
  {
    HeardTwice(s.(depth := s.depth + Rises(events[0])), "", "");
    match events[0] {
      case Start(name, attrs) => UnknownStart(step, dialect, s, name, attrs, resolve);
      case End(name) => UnknownEnd(step, dialect, s, name, resolve);
      case _ => UnknownOther(step, dialect, s, events[0], resolve);
    }
  }

  /** Neutral markup leaves only its text, and that only in a label. */
  lemma {:induction false} NeutralRun(
      step: Reader, dialect: Dialect, s: State, events: seq<Event>, level: nat, resolve: string -> string)
    requires Reads(step, dialect, resolve)
    requires Neutral(events, level) && Clear(s, level)
    ensures Fold(step, s, events) == Heard(s.(depth := s.depth - level), TextOf(events))
    decreases |events|
  {
    var end := s.(depth := s.depth - level);
    if events == [] {
      HeardTwice(end, "", "");
    } else {
      var rise := Rises(events[0]);
      assert events == [events[0]] + events[1..];
      FoldPlus(step, s, [events[0]], events[1..]);
      NeutralStep(step, dialect, s, events, level, resolve);
      NeutralRun(step, dialect, Heard(s.(depth := s.depth + rise), TextOf([events[0]])), events[1..], level + rise, resolve);
      HeardTwice(end, TextOf([events[0]]), TextOf(events[1..]));
      TextOfCons(events);
    }
  }

  /** Outside a label, a gap changes nothing. */
  lemma GapRun(step: Reader, dialect: Dialect, s: State, gap: seq<Event>, resolve: string -> string)
    requires Reads(step, dialect, resolve)
    requires Neutral(gap, 0) && Clear(s, 0) && !s.inLabel
    ensures Fold(step, s, gap) == s
  {
    NeutralRun(step, dialect, s, gap, 0, resolve);
  }

  // ----- One event -----

  lemma LinkAttribute(v: string)
    ensures Attribute([Attr("href", v)], "href") == v
    ensures Attribute([Attr("src", v)], "src") == v
    ensures Attribute([], "href") == ""
  {
    assert LocalName("href") == "href";
    assert LocalName("src") == "src";
  }

  lemma EntryStart(step: Reader, dialect: Dialect, s: State, attrs: seq<Attr>, resolve: string -> string)
    requires Reads(step, dialect, resolve) && s.inside
    ensures Fold(step, s, [Start(EntryName(dialect), attrs)])
            == s.(depth := s.depth + 1,
                  stack := if |s.stack| < MAX_DEPTH then s.stack + [Open(Blank(), s.depth + 1)] else s.stack)
  {
    FoldOne(step, s, Start(EntryName(dialect), attrs));
    assert Seen(s, Start(EntryName(dialect), attrs));
  }

  lemma EntryEnd(step: Reader, dialect: Dialect, s: State, resolve: string -> string)
    requires Reads(step, dialect, resolve) && !s.inLabel
    ensures Fold(step, s, [End(EntryName(dialect))]) == Rise(PopAt(s))
  {
    FoldOne(step, s, End(EntryName(dialect)));
    assert Seen(s, End(EntryName(dialect)));
  }

  lemma NavLinkStart(step: Reader, s: State, item: Item, resolve: string -> string)
    requires Reads(step, NavDocument, resolve) && resolve("") == "" && s.inside && s.stack != []
    ensures Fold(step, s, [LinkStart(item)])
            == if Top(s.stack).point.title != "" then s.(depth := s.depth + 1)
               else s.(depth := s.depth + 1, inLabel := true, text := "",
                       stack := WithTop(s.stack, Top(s.stack).point.(href := Target(item, "", resolve))))
  {
    FoldOne(step, s, LinkStart(item));
    assert Seen(s, LinkStart(item));
    LinkAttribute(if item.link.Some? then item.link.value else "");
  }

  lemma NavLinkEnd(step: Reader, s: State, item: Item, resolve: string -> string)
    requires Reads(step, NavDocument, resolve) && s.stack != [] && Clear(s, 1)
    ensures Fold(step, s, [LinkEnd(item)])
            == if !s.inLabel then s.(depth := s.depth - 1)
               else s.(depth := s.depth - 1, inLabel := false, text := "",
                       stack := WithTop(s.stack, Top(s.stack).point.(title := Collapse(s.text))))
  {
    FoldOne(step, s, LinkEnd(item));
    assert Seen(s, LinkEnd(item));
    TopOfWithTop(s.stack, Top(s.stack).point.(title := Collapse(s.text)));
  }

  lemma NcxTextStart(step: Reader, s: State, resolve: string -> string)
    requires Reads(step, Ncx, resolve) && s.inside && s.stack != []
    ensures Fold(step, s, [Start("text", [])]) == s.(depth := s.depth + 1, inLabel := true, text := "")
  {
    FoldOne(step, s, Start("text", []));
    assert Seen(s, Start("text", []));
  }

  lemma NcxTextEnd(step: Reader, s: State, resolve: string -> string)
    requires Reads(step, Ncx, resolve) && s.stack != [] && s.inLabel && Clear(s, 1)
    ensures Fold(step, s, [End("text")])
            == s.(depth := s.depth - 1, inLabel := false, text := "",
                  stack := if Top(s.stack).point.title != "" then s.stack
                           else WithTop(s.stack, Top(s.stack).point.(title := Collapse(s.text))))
  {
    FoldOne(step, s, End("text"));
    assert Seen(s, End("text"));
    TopOfWithTop(s.stack, Top(s.stack).point.(title := Collapse(s.text)));
  }

  lemma NcxFold(step: Reader, s: State, event: Event, resolve: string -> string)
    requires Reads(step, Ncx, resolve)
    ensures Fold(step, s, [event]) == NcxStep(s, event, resolve)
  {
    FoldOne(step, s, event);
    assert Seen(s, event);
  }

  lemma ContentStep(s: State, link: string, resolve: string -> string)
    requires s.inside && s.stack != []
    ensures NcxStep(s, Empty("content", [Attr("src", link)]), resolve) == Retarget(s, resolve(link))
    ensures NcxStep(s, Start("content", [Attr("src", link)]), resolve) == Retarget(s, resolve(link)).(depth := s.depth + 1)
  {
    LinkAttribute(link);
  }

  lemma NcxContentTag(step: Reader, s: State, link: string, resolve: string -> string)
    requires Reads(step, Ncx, resolve) && s.inside && s.stack != []
    ensures Fold(step, s, [Empty("content", [Attr("src", link)])]) == Retarget(s, resolve(link))
    ensures Fold(step, s, [Start("content", [Attr("src", link)])]) == Retarget(s, resolve(link)).(depth := s.depth + 1)
  {
    NcxFold(step, s, Empty("content", [Attr("src", link)]), resolve);
    NcxFold(step, s, Start("content", [Attr("src", link)]), resolve);
    ContentStep(s, link, resolve);
  }

  lemma NcxContentEnd(step: Reader, s: State, resolve: string -> string)
    requires Reads(step, Ncx, resolve) && Clear(s, 1)
    ensures Fold(step, s, [End("content")]) == s.(depth := s.depth - 1)
  {
    FoldOne(step, s, End("content"));
    assert Seen(s, End("content"));
    assert PopAt(s) == s;
  }

  lemma NcxContent(step: Reader, s: State, item: Item, resolve: string -> string)
    requires Reads(step, Ncx, resolve) && s.inside && s.stack != [] && Clear(s, 0)
    ensures Fold(step, s, Content(Ncx, item)) == Retarget(s, Target(item, TopHref(s), resolve))
  {
    if item.link.None? {
      SameTop(s.stack);
    } else {
      var link := item.link.value;
      NcxContentTag(step, s, link, resolve);
      if !item.emptyTag {
        var start, end := [Start("content", [Attr("src", link)])], [End("content")];
        TopOfWithTop(s.stack, Top(s.stack).point.(href := resolve(link)));
        NcxContentEnd(step, Retarget(s, resolve(link)).(depth := s.depth + 1), resolve);
        FoldPlus(step, s, start, end);
      }
    }
  }

  // ----- One label -----

  lemma NavLabelRun(step: Reader, s: State, item: Item, resolve: string -> string)
    requires Reads(step, NavDocument, resolve) && resolve("") == "" && IsItem(item)
    requires s.inside && s.stack != [] && !s.inLabel && s.text == "" && Clear(s, 0)
    ensures Fold(step, s, Label(NavDocument, item))
            == if Top(s.stack).point.title != "" then s
               else s.(stack := WithTop(s.stack, Top(s.stack).point.(href := Target(item, "", resolve), title := Title(item))))
  {
    var s1 := Fold(step, s, [LinkStart(item)]);
    var point := Top(s.stack).point.(href := Target(item, "", resolve));
    NavLinkStart(step, s, item, resolve);
    TopOfWithTop(s.stack, point);
    NeutralRun(step, NavDocument, s1, item.title, 0, resolve);
    var s2 := Heard(s1, TextOf(item.title));
    assert s2.inLabel ==> s2.text == TextOf(item.title);
    NavLinkEnd(step, s2, item, resolve);
    TopOfWithTop(s.stack, point.(title := Title(item)));
    FoldPlus(step, s, [LinkStart(item)], item.title);
    FoldPlus(step, s, [LinkStart(item)] + item.title, [LinkEnd(item)]);
  }

  lemma NcxTextRun(step: Reader, s: State, item: Item, resolve: string -> string)
    requires Reads(step, Ncx, resolve) && IsItem(item)
    requires s.inside && s.stack != [] && !s.inLabel && s.text == "" && Clear(s, 0)
    ensures Fold(step, s, [Start("text", [])] + item.title + [End("text")])
            == if Top(s.stack).point.title != "" then s
               else s.(stack := WithTop(s.stack, Top(s.stack).point.(title := Title(item))))
  {
    var s1 := s.(depth := s.depth + 1, inLabel := true);
    var s2 := s1.(text := TextOf(item.title));
    NcxTextStart(step, s, resolve);
    NeutralRun(step, Ncx, s1, item.title, 0, resolve);
    assert Heard(s1, TextOf(item.title)) == s2;
    NcxTextEnd(step, s2, resolve);
    FoldPlus(step, s, [Start("text", [])], item.title);
    FoldPlus(step, s, [Start("text", [])] + item.title, [End("text")]);
  }

  lemma NcxLabelRun(step: Reader, s: State, item: Item, resolve: string -> string)
    requires Reads(step, Ncx, resolve) && IsItem(item)
    requires s.inside && s.stack != [] && !s.inLabel && s.text == "" && Clear(s, 0)
    ensures Fold(step, s, Label(Ncx, item))
            == if Top(s.stack).point.title != "" then s
               else s.(stack := WithTop(s.stack, Top(s.stack).point.(title := Title(item))))
  {
    var start, text, end := [Start("navLabel", [])], [Start("text", [])] + item.title + [End("text")], [End("navLabel")];
    var s1 := s.(depth := s.depth + 1);
    TopOfWithTop(s.stack, Top(s.stack).point.(title := Title(item)));
    UnknownStart(step, Ncx, s, "navLabel", [], resolve);
    NcxTextRun(step, s1, item, resolve);
    UnknownEnd(step, Ncx, Fold(step, s1, text), "navLabel", resolve);
    FoldPlus(step, s, start, text);
    FoldPlus(step, s, start + text, end);
  }
}
