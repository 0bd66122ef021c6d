/**
 * The two table-of-contents readers of src/nav.rs: the EPUB 3 navigation
 * document and the EPUB 2 NCX, each an event loop over a stack of open entries.
 */
module Nav {
  import opened Href
  import opened NavTree
  import opened Text
  import opened Whitespace
  import opened Xml

  const MAX_ENTRIES := 5_000
  const MAX_DEPTH := 32

  datatype Dialect = NavDocument | Ncx

  /** An entry whose element has not ended, with the depth at which that element began. */
  datatype Open = Open(point: NavPoint, depth: nat)

  /**
   * What a reader knows between two events: whether and where it is inside the
   * list it reads, how deep it is, the entries still open, those finished at the
   * top level, the label being read, and how many entries it has counted.
   */
  datatype State = State(
    inside: bool, outerDepth: nat, depth: nat, stack: seq<Open>, roots: seq<NavPoint>,
    inLabel: bool, text: string, entries: nat)

  const Initial := State(false, 0, 0, [], [], false, "", 0)

  /** A link target with its fragment, or the empty string when it cannot be used. */
  function ResolveWithFragment(baseDir: string, raw: string, lossy: string -> string): string {
    var (path, fragment) := SplitOnce(raw, '#').UnwrapOr((raw, ""));
    if path == "" then ""
    else
      match Resolve(baseDir, path, lossy)
      case Ok(Entry(resolved)) => if fragment == "" then resolved else resolved + ['#'] + fragment
      case _ => ""
  }

  /** How the links of a table of contents are read, given the document's own archive path. */
  function Resolver(source: string, lossy: string -> string): string -> string {
    raw => ResolveWithFragment(ParentDir(source), raw, lossy)
  }

  function Blank(): NavPoint {
    NavPoint("", "", 0, [])
  }

  function Top(stack: seq<Open>): Open
    requires stack != []
  {
    stack[|stack| - 1]
  }

  function Below(stack: seq<Open>): seq<Open>
    requires stack != []
  {
    stack[..|stack| - 1]
  }

  /** The stack with its innermost entry's point replaced. */
  function WithTop(stack: seq<Open>, point: NavPoint): seq<Open>
    requires stack != []
  {
    Below(stack) + [Top(stack).(point := point)]
  }

  /** Hang a closed entry under the innermost one that is open, or at the top when none is. */
  function Attach(s: State, finished: NavPoint): State {
    if s.stack == [] then s.(roots := s.roots + [finished])
    else
      var parent := Top(s.stack).point;
      s.(stack := WithTop(s.stack, parent.(children := parent.children + [finished])))
  }

  function Pushed(s: State): State {
    s.(stack := s.stack + [Open(Blank(), s.depth)])
  }

  /** Close the entry that this end tag's element opened, if it did, and keep it if it has a label. */
  function PopAt(s: State): State {
    if s.stack != [] && Top(s.stack).depth == s.depth then
      var point, popped := Top(s.stack).point, s.(stack := Below(s.stack));
      if s.entries < MAX_ENTRIES && point.title != "" then Attach(popped.(entries := s.entries + 1), point) else popped
    else s
  }

  /** Leave the list when its element ends, and go up one level. */
  function Rise(s: State): State {
    s.(inside := s.inside && s.depth != s.outerDepth, depth := if s.depth == 0 then 0 else s.depth - 1)
  }

  // ----- The navigation document -----

  predicate IsTocKind(kind: string) {
    kind == "" || "toc" in Words(kind)
  }

  /** A list is a table of contents when its type says nothing at all, or has `toc` among its words. */
  lemma TocKindExactlyWhen(words: seq<string>, gaps: seq<string>)
    requires IsSpread(words, gaps)
    ensures IsTocKind(Spread(words, gaps)) <==> Spread(words, gaps) == "" || "toc" in words
  {
    SpreadWordsAreRead(words, gaps);
  }

  function NavStart(s: State, name: string, attrs: seq<Attr>, resolve: string -> string): State {
    if name == "nav" && !s.inside then
      if IsTocKind(Attribute(attrs, "type")) then s.(inside := true, outerDepth := s.depth) else s
    else if name == "li" && s.inside then if |s.stack| < MAX_DEPTH then Pushed(s) else s
    else if (name == "a" || name == "span") && s.inside && s.stack != [] && Top(s.stack).point.title == "" then
      s.(stack := WithTop(s.stack, Top(s.stack).point.(href := resolve(Attribute(attrs, "href")))),
         inLabel := true, text := "")
    else s
  }

  function NavEndLabel(s: State, name: string): State {
    if s.inLabel && (name == "a" || name == "span") then
      s.(inLabel := false, text := "",
         stack := if s.stack == [] then [] else WithTop(s.stack, Top(s.stack).point.(title := Collapse(s.text))))
    else s
  }

  function NavStep(s: State, event: Event, resolve: string -> string): State {
    match event
    case Start(name, attrs) => NavStart(s.(depth := s.depth + 1), name, attrs, resolve)
    case Text(text) => if s.inLabel then s.(text := s.text + text) else s
    case End(name) => Rise(PopAt(NavEndLabel(s, name)))
    case _ => s
  }

  // ----- Runs -----

  function Step(dialect: Dialect, s: State, event: Event, resolve: string -> string): State {
    match dialect
    case NavDocument => NavStep(s, event, resolve)
    case Ncx => NcxStep(s, event, resolve)
  }

  function Run(dialect: Dialect, s: State, events: seq<Event>, resolve: string -> string): State {
    if events == [] then s
    else Step(dialect, Run(dialect, s, events[..|events| - 1], resolve), events[|events| - 1], resolve)
  }

  lemma RunNext(dialect: Dialect, events: seq<Event>, i: nat, resolve: string -> string)
    requires i < |events|
    ensures Run(dialect, Initial, events[..i + 1], resolve)
            == Step(dialect, Run(dialect, Initial, events[..i], resolve), events[i], resolve)
  {
    assert events[..i + 1][..i] == events[..i];
  }

  /** Entries left open by a truncated document are kept if they have a label. */
  function Unwind(s: State): State
    decreases |s.stack|
  {
    if s.stack == [] then s
    else
      var point, popped := Top(s.stack).point, s.(stack := Below(s.stack));
      Unwind(if point.title != "" then Attach(popped, point) else popped)
  }

  /** The finished tree, with each depth recomputed as the distance from the top. */
  function Renumber(points: seq<NavPoint>, depth: nat): seq<NavPoint> {
    if points == [] then []
    else [RenumberOne(points[0], depth)] + Renumber(points[1..], depth)
  }

  function RenumberOne(point: NavPoint, depth: nat): NavPoint {
    NavPoint(point.title, point.href, depth, Renumber(point.children, depth + 1))
  }

  function NavToc(events: seq<Event>, resolve: string -> string): seq<NavPoint> {
    Renumber(Unwind(Run(NavDocument, Initial, events, resolve)).roots, 0)
  }

  /** Read the events of a navigation document that stands at `source`. */
  method ParseNav(events: seq<Event>, source: string, lossy: string -> string) returns (toc: seq<NavPoint>)
    ensures toc == NavToc(events, Resolver(source, lossy))
  {
    var read := ReadNav(events, Resolver(source, lossy));
    toc := Finish(read);
  }

  /** The loop over the events of a navigation document. */
  method ReadNav(events: seq<Event>, resolve: string -> string) returns (read: State)
    ensures read == Run(NavDocument, Initial, events, resolve)
  {
    var inside, inLabel, text := false, false, "";
    var outerDepth: nat, depth: nat, entries: nat := 0, 0, 0;
    var stack: seq<Open>, roots: seq<NavPoint> := [], [];
    for i := 0 to |events|
      invariant State(inside, outerDepth, depth, stack, roots, inLabel, text, entries)
                == Run(NavDocument, Initial, events[..i], resolve)
    {
      ghost var before := State(inside, outerDepth, depth, stack, roots, inLabel, text, entries);
      RunNext(NavDocument, events, i, resolve);
      match events[i] {
        case Start(name, attrs) =>
          depth := depth + 1;
          inside, outerDepth, stack, inLabel, text :=
            StartElement(inside, outerDepth, depth, stack, inLabel, text, name, attrs, resolve, before.(depth := depth));
        case Text(piece) =>
          if inLabel {
            text := text + piece;
          }
        case End(name) =>
          if inLabel && (name == "a" || name == "span") {
            inLabel := false;
            if stack != [] {
              stack := WithTop(stack, Top(stack).point.(title := Collapse(text)));
            }
            text := "";
          }
          ghost var labelled := NavEndLabel(before, name);
          assert State(inside, outerDepth, depth, stack, roots, inLabel, text, entries) == labelled;
          inside, depth, stack, roots, entries := EndElement(inside, outerDepth, depth, stack, roots, entries, labelled);
        case _ =>
      }
    }
    assert events[..|events|] == events;
    read := State(inside, outerDepth, depth, stack, roots, inLabel, text, entries);
  }

  /** What a start tag means in a navigation document. */
  method StartElement(
      inside: bool, outerDepth: nat, depth: nat, stack: seq<Open>, inLabel: bool, text: string,
      name: string, attrs: seq<Attr>, resolve: string -> string, ghost s: State)
    returns (inside': bool, outerDepth': nat, stack': seq<Open>, inLabel': bool, text': string)
    requires s == State(inside, outerDepth, depth, stack, s.roots, inLabel, text, s.entries)
    ensures NavStart(s, name, attrs, resolve) == State(inside', outerDepth', depth, stack', s.roots, inLabel', text', s.entries)
  {
    inside', outerDepth', stack', inLabel', text' := inside, outerDepth, stack, inLabel, text;
    if name == "nav" && !inside {
      if IsTocKind(Attribute(attrs, "type")) {
        inside', outerDepth' := true, depth;
      }
    } else if name == "li" && inside {
      if |stack| < MAX_DEPTH {
        stack' := stack + [Open(Blank(), depth)];
      }
    } else if (name == "a" || name == "span") && inside {
      if stack != [] && Top(stack).point.title == "" {
        stack' := WithTop(stack, Top(stack).point.(href := resolve(Attribute(attrs, "href"))));
        inLabel', text' := true, "";
      }
    }
  }

  /** The entry that ends here, if one does, is counted and hung where it belongs, or dropped. */
  method CloseEntry(stack: seq<Open>, roots: seq<NavPoint>, entries: nat, depth: nat, ghost s: State)
    returns (stack': seq<Open>, roots': seq<NavPoint>, entries': nat)
    requires s.stack == stack && s.roots == roots && s.entries == entries && s.depth == depth
    ensures PopAt(s) == s.(stack := stack', roots := roots', entries := entries')
  {
    stack', roots', entries' := stack, roots, entries;
    if stack != [] && Top(stack).depth == depth {
      var point := Top(stack).point;
      stack' := Below(stack);
      if entries < MAX_ENTRIES && point.title != "" {
        entries' := entries + 1;
        if stack' == [] {
          roots' := roots + [point];
        } else {
          var parent := Top(stack').point;
          stack' := WithTop(stack', parent.(children := parent.children + [point]));
        }
      }
    }
  }

  /** What both readers do after a label at every end tag: close the entry that ends, leave the list, and rise. */
  method EndElement(
      inside: bool, outerDepth: nat, depth: nat, stack: seq<Open>, roots: seq<NavPoint>, entries: nat, ghost s: State)
    returns (inside': bool, depth': nat, stack': seq<Open>, roots': seq<NavPoint>, entries': nat)
    requires s == State(inside, outerDepth, depth, stack, roots, s.inLabel, s.text, entries)
    ensures Rise(PopAt(s)) == State(inside', outerDepth, depth', stack', roots', s.inLabel, s.text, entries')
  {
    stack', roots', entries' := CloseEntry(stack, roots, entries, depth, s);
    inside' := inside && depth != outerDepth;
    depth' := if depth == 0 then 0 else depth - 1;
  }

  /** Keep what a truncated document left open, and number the tree. */
  method Finish(s: State) returns (toc: seq<NavPoint>)
    ensures toc == Renumber(Unwind(s).roots, 0)
  {
    var open := s;
    while open.stack != []
      invariant Unwind(open) == Unwind(s)
      decreases |open.stack|
    {
      var point := Top(open.stack).point;
      open := open.(stack := Below(open.stack));
      if point.title != "" {
        open := Attach(open, point);
      }
    }
    return Renumber(open.roots, 0);
  }

  // ----- The NCX -----

  function NcxLink(s: State, attrs: seq<Attr>, resolve: string -> string): State {
    if s.inside && s.stack != [] then
      s.(stack := WithTop(s.stack, Top(s.stack).point.(href := resolve(Attribute(attrs, "src")))))
    else s
  }

  function NcxStart(s: State, name: string, attrs: seq<Attr>, resolve: string -> string): State {
    if name == "navMap" then s.(inside := true, outerDepth := s.depth)
    else if name == "navPoint" && s.inside && |s.stack| < MAX_DEPTH then Pushed(s)
    else if name == "text" && s.inside && s.stack != [] then s.(inLabel := true, text := "")
    else if name == "content" then NcxLink(s, attrs, resolve)
    else s
  }

  function NcxEndLabel(s: State, name: string): State {
    if s.inLabel && name == "text" then
      s.(inLabel := false, text := "",
         stack := if s.stack == [] || Top(s.stack).point.title != "" then s.stack
                  else WithTop(s.stack, Top(s.stack).point.(title := Collapse(s.text))))
    else s
  }

  function NcxStep(s: State, event: Event, resolve: string -> string): State {
    match event
    case Start(name, attrs) => NcxStart(s.(depth := s.depth + 1), name, attrs, resolve)
    case Empty(name, attrs) => if name == "content" then NcxLink(s, attrs, resolve) else s
    case Text(text) => if s.inLabel then s.(text := s.text + text) else s
    case End(name) => Rise(PopAt(NcxEndLabel(s, name)))
    case Other => s
  }

  function NcxToc(events: seq<Event>, resolve: string -> string): seq<NavPoint> {
    Renumber(Run(Ncx, Initial, events, resolve).roots, 0)
  }

  /** Read the events of an NCX that stands at `source`; what is still open at the end is dropped. */
  method ParseNcx(events: seq<Event>, source: string, lossy: string -> string) returns (toc: seq<NavPoint>)
    ensures toc == NcxToc(events, Resolver(source, lossy))
  {
    var resolve := Resolver(source, lossy);
    var inside, inLabel, text := false, false, "";
    var outerDepth: nat, depth: nat, entries: nat := 0, 0, 0;
    var stack: seq<Open>, roots: seq<NavPoint> := [], [];
    for i := 0 to |events|
      invariant State(inside, outerDepth, depth, stack, roots, inLabel, text, entries)
                == Run(Ncx, Initial, events[..i], resolve)
    {
      ghost var before := State(inside, outerDepth, depth, stack, roots, inLabel, text, entries);
      RunNext(Ncx, events, i, resolve);
      match events[i] {
        case Empty(name, attrs) =>
          if inside && name == "content" && stack != [] {
            stack := WithTop(stack, Top(stack).point.(href := resolve(Attribute(attrs, "src"))));
          }
          assert State(inside, outerDepth, depth, stack, roots, inLabel, text, entries)
                 == if name == "content" then NcxLink(before, attrs, resolve) else before;
        case Start(name, attrs) =>
          depth := depth + 1;
          if name == "navMap" {
            inside, outerDepth := true, depth;
          } else if name == "navPoint" && inside && |stack| < MAX_DEPTH {
            stack := stack + [Open(Blank(), depth)];
          } else if name == "text" && inside && stack != [] {
            inLabel, text := true, "";
          } else if name == "content" && inside && stack != [] {
            stack := WithTop(stack, Top(stack).point.(href := resolve(Attribute(attrs, "src"))));
          }
          assert State(inside, outerDepth, depth, stack, roots, inLabel, text, entries)
                 == NcxStart(before.(depth := before.depth + 1), name, attrs, resolve);
        case Text(piece) =>
          if inLabel {
            text := text + piece;
          }
        case End(name) =>
          if name == "text" && inLabel {
            inLabel := false;
            if stack != [] && Top(stack).point.title == "" {
              stack := WithTop(stack, Top(stack).point.(title := Collapse(text)));
            }
            text := "";
          }
          ghost var labelled := NcxEndLabel(before, name);
          assert State(inside, outerDepth, depth, stack, roots, inLabel, text, entries) == labelled;
          inside, depth, stack, roots, entries := EndElement(inside, outerDepth, depth, stack, roots, entries, labelled);
        case Other =>
      }
    }
    assert events[..|events|] == events;
    toc := Renumber(roots, 0);
  }

  // ----- Flattening -----

  /** The preorder list of a forest: each entry, then all below it, then what follows. */
  function Flatten(points: seq<NavPoint>): seq<NavPoint> {
    if points == [] then [] else [points[0]] + Flatten(points[0].children) + Flatten(points[1..])
  }

  lemma {:induction false} FlattenPlus(points: seq<NavPoint>, i: nat)
    requires i < |points|
    ensures Flatten(points[..i + 1]) == Flatten(points[..i]) + Flatten([points[i]])
  {
    if i > 0 {
      assert points[..i + 1][1..] == points[1..][..i] && points[..i][1..] == points[1..][..i - 1];
      FlattenPlus(points[1..], i - 1);
    }
  }

  /** Append `point` and everything under it. */
  method Walk(point: NavPoint, visited: seq<NavPoint>) returns (extended: seq<NavPoint>)
    ensures extended == visited + Flatten([point])
    decreases point
  {
    extended := visited + [point];
    for i := 0 to |point.children|
      invariant extended == visited + [point] + Flatten(point.children[..i])
    {
      extended := Walk(point.children[i], extended);
      FlattenPlus(point.children, i);
    }
    assert point.children[..|point.children|] == point.children;
  }

  /** The whole tree in a flat list. */
  method FlattenAll(points: seq<NavPoint>) returns (flat: seq<NavPoint>)
    ensures flat == Flatten(points)
  {
    flat := [];
    for i := 0 to |points|
      invariant flat == Flatten(points[..i])
    {
      flat := Walk(points[i], flat);
      FlattenPlus(points, i);
    }
    assert points[..|points|] == points;
  }
}
