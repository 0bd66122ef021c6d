/** What both table-of-contents readers keep on every event sequence, unmatched end tags included. */
module NavSafety {
  import opened Nav
  import opened NavTree
  import opened Whitespace
  import opened Xml

  // ----- Measures of a tree -----

  function Max(a: nat, b: nat): nat {
    if a < b then b else a
  }

  function Height(points: seq<NavPoint>): nat {
    if points == [] then 0 else Max(1 + Height(points[0].children), Height(points[1..]))
  }

  function Nodes(points: seq<NavPoint>): nat {
    if points == [] then 0 else 1 + Nodes(points[0].children) + Nodes(points[1..])
  }

  /** Every entry has a label, with its whitespace collapsed. */
  predicate Titled(points: seq<NavPoint>) {
    points == [] || (IsTitle(points[0].title) && Titled(points[0].children) && Titled(points[1..]))
  }

  predicate IsTitle(title: string) {
    title != "" && Collapse(title) == title
  }

  /** Every entry's depth is its distance from the top, counted from `depth`. */
  predicate Numbered(points: seq<NavPoint>, depth: nat) {
    points == []
    || (points[0].depth == depth && Numbered(points[0].children, depth + 1) && Numbered(points[1..], depth))
  }

  lemma {:induction false} MeasuresOfAttached(points: seq<NavPoint>, last: NavPoint)
    ensures Nodes(points + [last]) == Nodes(points) + 1 + Nodes(last.children)
    ensures Height(points + [last]) == Max(Height(points), 1 + Height(last.children))
    ensures Titled(points) && IsTitle(last.title) && Titled(last.children) ==> Titled(points + [last])
  {
    if points == [] {
      assert points + [last] == [last];
    } else {
      assert (points + [last])[1..] == points[1..] + [last];
      MeasuresOfAttached(points[1..], last);
    }
  }

  lemma {:induction false} RenumberKeepsShape(points: seq<NavPoint>, depth: nat)
    ensures Nodes(Renumber(points, depth)) == Nodes(points)
    ensures Height(Renumber(points, depth)) == Height(points)
    ensures Titled(Renumber(points, depth)) == Titled(points)
    ensures Numbered(Renumber(points, depth), depth)
  {
    if points != [] {
      var renumbered := Renumber(points, depth);
      assert renumbered[0] == RenumberOne(points[0], depth) && renumbered[1..] == Renumber(points[1..], depth);
      RenumberKeepsShape(points[0].children, depth + 1);
      RenumberKeepsShape(points[1..], depth);
    }
  }

  // ----- The invariant -----

  /**
   * The open entries lie above `floor`, each strictly deeper than the one below it and
   * the innermost no deeper than `depth`; each holds a sound subtree that still fits.
   */
  predicate Stacked(stack: seq<Open>, floor: nat, depth: nat) {
    stack == []
    || (var top := Top(stack);
        floor < top.depth <= depth
        && |stack| + Height(top.point.children) <= MAX_DEPTH
        && Titled(top.point.children)
        && Collapse(top.point.title) == top.point.title
        && Stacked(Below(stack), floor, top.depth - 1))
  }

  /** How many finished entries the open ones hold. */
  function Held(stack: seq<Open>): nat {
    if stack == [] then 0 else Nodes(Top(stack).point.children) + Held(Below(stack))
  }

  ghost predicate Safe(s: State, floor: nat) {
    && Stacked(s.stack, floor, s.depth)
    && Height(s.roots) <= MAX_DEPTH
    && Titled(s.roots)
    && Nodes(s.roots) + Held(s.stack) <= s.entries <= MAX_ENTRIES
  }

  lemma {:induction false} StackedDeeper(stack: seq<Open>, floor: nat, depth: nat, deeper: nat)
    requires Stacked(stack, floor, depth) && depth <= deeper
    ensures Stacked(stack, floor, deeper)
  {
  }

  /** Replacing the innermost entry by one with the same children is harmless. */
  lemma RelabelIsSafe(s: State, floor: nat, point: NavPoint)
    requires Safe(s, floor) && s.stack != []
    requires point.children == Top(s.stack).point.children && Collapse(point.title) == point.title
    ensures Safe(s.(stack := WithTop(s.stack, point)), floor)
  {
    var stack := WithTop(s.stack, point);
    assert Below(stack) == Below(s.stack) && Top(stack) == Top(s.stack).(point := point);
  }

  lemma PushIsSafe(s: State, floor: nat)
    requires Safe(s, floor) && floor < s.depth && Stacked(s.stack, floor, s.depth - 1) && |s.stack| < MAX_DEPTH
    ensures Safe(Pushed(s), floor)
  {
    var stack := Pushed(s).stack;
    assert Below(stack) == s.stack && Top(stack) == Open(Blank(), s.depth);
  }

  lemma AttachIsSafe(s: State, floor: nat, point: NavPoint)
    requires Stacked(s.stack, floor, s.depth) && Height(s.roots) <= MAX_DEPTH && Titled(s.roots)
    requires |s.stack| + 1 + Height(point.children) <= MAX_DEPTH && IsTitle(point.title) && Titled(point.children)
    ensures var after := Attach(s, point);
            Stacked(after.stack, floor, s.depth) && Height(after.roots) <= MAX_DEPTH && Titled(after.roots)
            && |after.stack| == |s.stack|
            && Nodes(after.roots) + Held(after.stack)
               == Nodes(s.roots) + Held(s.stack) + 1 + Nodes(point.children)
  {
    if s.stack == [] {
      MeasuresOfAttached(s.roots, point);
    } else {
      var stack := Attach(s, point).stack;
      MeasuresOfAttached(Top(s.stack).point.children, point);
      assert Below(stack) == Below(s.stack) && Top(stack).depth == Top(s.stack).depth;
    }
  }

  /** Closing leaves every open entry strictly above the level that is being left. */
  lemma PopIsSafe(s: State, floor: nat)
    requires Safe(s, floor)
    ensures Safe(PopAt(s), floor)
    ensures s.stack == [] || s.depth > 0
    ensures s.depth > 0 ==> Stacked(PopAt(s).stack, floor, s.depth - 1)
    ensures var after := PopAt(s); after.inside == s.inside && after.outerDepth == s.outerDepth && after.depth == s.depth
  {
    if s.stack != [] && Top(s.stack).depth == s.depth {
      var point, popped := Top(s.stack).point, s.(stack := Below(s.stack));
      StackedDeeper(popped.stack, floor, s.depth - 1, s.depth);
      if s.entries < MAX_ENTRIES && point.title != "" {
        AttachIsSafe(popped.(entries := s.entries + 1, depth := s.depth - 1), floor, point);
        AttachIsSafe(popped.(entries := s.entries + 1), floor, point);
      }
    }
  }

  lemma RiseIsSafe(s: State, floor: nat)
    requires Safe(s, floor)
    ensures Safe(Rise(PopAt(s)), floor)
  {
    PopIsSafe(s, floor);
  }

  // ----- The navigation document -----

  /** Outside the list nothing is open; inside it every open entry lies below the list's element. */
  ghost predicate NavSafe(s: State) {
    && (s.inside ==> s.outerDepth <= s.depth)
    && (!s.inside ==> s.stack == [])
    && Safe(s, if s.inside then s.outerDepth else 0)
  }

  function Deeper(s: State): State {
    s.(depth := s.depth + 1)
  }

  function FloorOf(s: State): nat {
    if s.inside then s.outerDepth else 0
  }

  lemma DeeperIsSafe(s: State)
    requires NavSafe(s)
    ensures NavSafe(Deeper(s))
  {
    StackedDeeper(s.stack, FloorOf(s), s.depth, s.depth + 1);
  }

  lemma EnterIsSafe(s: State)
    requires NavSafe(s) && !s.inside
    ensures NavSafe(Deeper(s).(inside := true, outerDepth := s.depth + 1))
  {
  }

  lemma ItemIsSafe(s: State)
    requires NavSafe(s) && s.inside && |s.stack| < MAX_DEPTH
    ensures NavSafe(Pushed(Deeper(s)))
  {
    DeeperIsSafe(s);
    PushIsSafe(Deeper(s), s.outerDepth);
  }

  lemma LabelIsSafe(s: State, point: NavPoint)
    requires NavSafe(s) && s.inside && s.stack != []
    requires point.children == Top(s.stack).point.children && Collapse(point.title) == point.title
    ensures NavSafe(s.(stack := WithTop(s.stack, point), inLabel := true, text := ""))
  {
    RelabelIsSafe(s, s.outerDepth, point);
  }

  lemma NavStartIsSafe(s: State, name: string, attrs: seq<Attr>, resolve: string -> string)
    requires NavSafe(s)
    ensures NavSafe(NavStart(Deeper(s), name, attrs, resolve))
  {
    DeeperIsSafe(s);
    if name == "nav" && !s.inside {
      EnterIsSafe(s);
    } else if name == "li" && s.inside {
      if |s.stack| < MAX_DEPTH {
        ItemIsSafe(s);
      }
    } else if s.inside && s.stack != [] {
      LabelIsSafe(Deeper(s), Top(s.stack).point.(href := resolve(Attribute(attrs, "href"))));
    }
  }

  lemma NavEndIsSafe(s: State, name: string)
    requires NavSafe(s)
    ensures NavSafe(Rise(PopAt(NavEndLabel(s, name))))
  {
    var floor := FloorOf(s);
    CollapseIsIdempotent(s.text);
    if s.stack != [] {
      RelabelIsSafe(s, floor, Top(s.stack).point.(title := Collapse(s.text)));
    }
    var labelled := NavEndLabel(s, name);
    PopIsSafe(labelled, floor);
    RiseIsSafe(labelled, floor);
  }

  lemma NavStepIsSafe(s: State, event: Event, resolve: string -> string)
    requires NavSafe(s)
    ensures NavSafe(NavStep(s, event, resolve))
  {
    match event {
      case Start(name, attrs) => NavStartIsSafe(s, name, attrs, resolve);
      case End(name) => NavEndIsSafe(s, name);
      case _ =>
    }
  }

  lemma {:induction false} NavRunIsSafe(events: seq<Event>, resolve: string -> string)
    ensures NavSafe(Run(NavDocument, Initial, events, resolve))
  {
    if events != [] {
      NavRunIsSafe(events[..|events| - 1], resolve);
      NavStepIsSafe(Run(NavDocument, Initial, events[..|events| - 1], resolve), events[|events| - 1], resolve);
    }
  }

  lemma {:induction false} DepthsIncrease(stack: seq<Open>, floor: nat, depth: nat)
    requires Stacked(stack, floor, depth)
    ensures |stack| <= MAX_DEPTH
    ensures forall i :: 0 <= i < |stack| ==> floor < stack[i].depth <= depth
    ensures forall i, j :: 0 <= i < j < |stack| ==> stack[i].depth < stack[j].depth
  {
    if stack != [] {
      DepthsIncrease(Below(stack), floor, Top(stack).depth - 1);
      forall i | 0 <= i < |stack| ensures floor < stack[i].depth <= depth && (i < |stack| - 1 ==> stack[i].depth < Top(stack).depth) {
        if i < |stack| - 1 {
          assert Below(stack)[i] == stack[i];
        }
      }
      forall i, j | 0 <= i < j < |stack| ensures stack[i].depth < stack[j].depth {
        if j < |stack| - 1 {
          assert Below(stack)[i] == stack[i] && Below(stack)[j] == stack[j];
        }
      }
    }
  }

  /**
   * On every event sequence, at every moment: the depths of the open entries strictly
   * increase and none exceeds the current depth, at most 32 are open, none is open outside
   * the table of contents, and each lies below the element that opened it.
   */
  lemma NavStackIsOrdered(events: seq<Event>, resolve: string -> string)
    ensures var s := Run(NavDocument, Initial, events, resolve);
            |s.stack| <= MAX_DEPTH
            && (forall i, j :: 0 <= i < j < |s.stack| ==> s.stack[i].depth < s.stack[j].depth)
            && (forall i :: 0 <= i < |s.stack| ==> s.outerDepth < s.stack[i].depth <= s.depth)
            && (!s.inside ==> s.stack == [])
            && s.entries <= MAX_ENTRIES
  {
    NavRunIsSafe(events, resolve);
    var s := Run(NavDocument, Initial, events, resolve);
    DepthsIncrease(s.stack, if s.inside then s.outerDepth else 0, s.depth);
  }

  lemma {:induction false} UnwindIsSafe(s: State, floor: nat)
    requires Stacked(s.stack, floor, s.depth) && Height(s.roots) <= MAX_DEPTH && Titled(s.roots)
    ensures var roots := Unwind(s).roots;
            Height(roots) <= MAX_DEPTH && Titled(roots)
            && Nodes(roots) <= Nodes(s.roots) + Held(s.stack) + |s.stack|
    decreases |s.stack|
  {
    if s.stack != [] {
      var point, popped := Top(s.stack).point, s.(stack := Below(s.stack));
      StackedDeeper(popped.stack, floor, Top(s.stack).depth - 1, s.depth);
      if point.title != "" {
        AttachIsSafe(popped, floor, point);
        UnwindIsSafe(Attach(popped, point), floor);
      } else {
        UnwindIsSafe(popped, floor);
      }
    }
  }

  /**
   * Whatever the events, a navigation document yields at most 32 levels and 5032 entries,
   * each with a collapsed label that is not empty and its distance from the top as its depth.
   */
  lemma NavTocIsSound(events: seq<Event>, resolve: string -> string)
    ensures var toc := NavToc(events, resolve);
            Height(toc) <= MAX_DEPTH && Nodes(toc) <= MAX_ENTRIES + MAX_DEPTH && Titled(toc) && Numbered(toc, 0)
  {
    NavRunIsSafe(events, resolve);
    var s := Run(NavDocument, Initial, events, resolve);
    var floor := if s.inside then s.outerDepth else 0;
    DepthsIncrease(s.stack, floor, s.depth);
    UnwindIsSafe(s, floor);
    RenumberKeepsShape(Unwind(s).roots, 0);
  }

  // ----- The NCX -----

  lemma NcxLinkIsSafe(s: State, attrs: seq<Attr>, resolve: string -> string)
    requires Safe(s, 0)
    ensures Safe(NcxLink(s, attrs, resolve), 0)
  {
    if s.stack != [] {
      RelabelIsSafe(s, 0, Top(s.stack).point.(href := resolve(Attribute(attrs, "src"))));
    }
  }

  lemma NcxStartIsSafe(s: State, name: string, attrs: seq<Attr>, resolve: string -> string)
    requires Safe(s, 0)
    ensures Safe(NcxStart(Deeper(s), name, attrs, resolve), 0)
  {
    var down := Deeper(s);
    StackedDeeper(s.stack, 0, s.depth, s.depth + 1);
    NcxLinkIsSafe(down, attrs, resolve);
    if |s.stack| < MAX_DEPTH {
      PushIsSafe(down, 0);
    }
  }

  lemma NcxEndIsSafe(s: State, name: string)
    requires Safe(s, 0)
    ensures Safe(Rise(PopAt(NcxEndLabel(s, name))), 0)
  {
    CollapseIsIdempotent(s.text);
    if s.stack != [] {
      RelabelIsSafe(s, 0, Top(s.stack).point.(title := Collapse(s.text)));
    }
    RiseIsSafe(NcxEndLabel(s, name), 0);
  }

  lemma NcxOpenIsSafe(s: State, name: string, attrs: seq<Attr>, resolve: string -> string)
    requires Safe(s, 0)
    ensures Safe(NcxStep(s, Start(name, attrs), resolve), 0)
  {
    NcxStartIsSafe(s, name, attrs, resolve);
    assert NcxStep(s, Start(name, attrs), resolve) == NcxStart(Deeper(s), name, attrs, resolve);
  }

  lemma NcxEmptyIsSafe(s: State, name: string, attrs: seq<Attr>, resolve: string -> string)
    requires Safe(s, 0)
    ensures Safe(NcxStep(s, Empty(name, attrs), resolve), 0)
  {
    NcxLinkIsSafe(s, attrs, resolve);
    assert NcxStep(s, Empty(name, attrs), resolve) == if name == "content" then NcxLink(s, attrs, resolve) else s;
  }

  lemma NcxCloseIsSafe(s: State, name: string, resolve: string -> string)
    requires Safe(s, 0)
    ensures Safe(NcxStep(s, End(name), resolve), 0)
  {
    NcxEndIsSafe(s, name);
    assert NcxStep(s, End(name), resolve) == Rise(PopAt(NcxEndLabel(s, name)));
  }

  lemma NcxStepIsSafe(s: State, event: Event, resolve: string -> string)
    requires Safe(s, 0)
    ensures Safe(NcxStep(s, event, resolve), 0)
  {
    match event {
      case Start(name, attrs) => NcxOpenIsSafe(s, name, attrs, resolve);
      case Empty(name, attrs) => NcxEmptyIsSafe(s, name, attrs, resolve);
      case End(name) => NcxCloseIsSafe(s, name, resolve);
      case Text(_) => assert NcxStep(s, event, resolve).stack == s.stack;
      case Other =>
    }
  }

  lemma {:induction false} NcxRunIsSafe(events: seq<Event>, resolve: string -> string)
    ensures Safe(Run(Ncx, Initial, events, resolve), 0)
  {
    if events != [] {
      NcxRunIsSafe(events[..|events| - 1], resolve);
      NcxStepIsSafe(Run(Ncx, Initial, events[..|events| - 1], resolve), events[|events| - 1], resolve);
    }
  }

  /** The same for an NCX, which drops what is still open at the end: at most 5000 entries. */
  lemma NcxTocIsSound(events: seq<Event>, resolve: string -> string)
    ensures var s := Run(Ncx, Initial, events, resolve);
            |s.stack| <= MAX_DEPTH
            && (forall i, j :: 0 <= i < j < |s.stack| ==> s.stack[i].depth < s.stack[j].depth)
            && (forall i :: 0 <= i < |s.stack| ==> 0 < s.stack[i].depth <= s.depth)
    ensures var toc := NcxToc(events, resolve);
            Height(toc) <= MAX_DEPTH && Nodes(toc) <= MAX_ENTRIES && Titled(toc) && Numbered(toc, 0)
  {
    NcxRunIsSafe(events, resolve);
    var s := Run(Ncx, Initial, events, resolve);
    DepthsIncrease(s.stack, 0, s.depth);
    RenumberKeepsShape(s.roots, 0);
  }

  // ----- Flattening -----

  lemma {:induction false} FlattenCounts(points: seq<NavPoint>)
    ensures |Flatten(points)| == Nodes(points)
  {
    if points != [] {
      FlattenCounts(points[0].children);
      FlattenCounts(points[1..]);
    }
  }

  /** At `at`, `flat` holds `point` and right behind it everything below. */
  predicate StandsAt(flat: seq<NavPoint>, at: nat, point: NavPoint, below: seq<NavPoint>) {
    at + 1 + |below| <= |flat| && flat[at] == point && flat[at + 1..at + 1 + |below|] == below
  }

  lemma StandsBehind(head: seq<NavPoint>, flat: seq<NavPoint>, at: nat, point: NavPoint, below: seq<NavPoint>)
    requires StandsAt(flat, at, point, below)
    ensures StandsAt(head + flat, |head| + at, point, below)
  {
  }

  lemma StandsFirst(point: NavPoint, below: seq<NavPoint>, rest: seq<NavPoint>)
    ensures StandsAt([point] + below + rest, 0, point, below)
  {
  }

  lemma NodesOfFront(points: seq<NavPoint>, i: nat)
    requires 0 < i <= |points|
    ensures Nodes(points[..i]) == 1 + Nodes(points[0].children) + Nodes(points[1..][..i - 1])
  {
    assert points[..i][1..] == points[1..][..i - 1];
  }

  /**
   * The flattened list is in preorder: an entry stands behind everything in the entries
   * before it, and right before everything below it.
   */
  lemma {:induction false} FlattenedInPreorder(points: seq<NavPoint>, i: nat)
    requires i < |points|
    ensures |Flatten(points)| == Nodes(points)
    ensures StandsAt(Flatten(points), Nodes(points[..i]), points[i], Flatten(points[i].children))
  {
    var first, rest := points[0], points[1..];
    FlattenCounts(points);
    if i == 0 {
      StandsFirst(first, Flatten(first.children), Flatten(rest));
    } else {
      FlattenedInPreorder(rest, i - 1);
      FlattenCounts(first.children);
      NodesOfFront(points, i);
      StandsBehind([first] + Flatten(first.children), Flatten(rest), Nodes(rest[..i - 1]), points[i], Flatten(points[i].children));
    }
  }

  // ----- Truncated documents -----

  /**
   * What the entries still open come to, the outermost first: one without a label is
   * dropped with all below it, and any other ends with what the one inside it comes to.
   */
  function Gathered(stack: seq<Open>): seq<NavPoint> {
    if stack == [] || stack[0].point.title == "" then []
    else [stack[0].point.(children := stack[0].point.children + Gathered(stack[1..]))]
  }

  /** The innermost entry given to the one around it, or dropped for want of a label. */
  function Folded(stack: seq<Open>): seq<Open>
    requires |stack| > 1
  {
    var point, below := Top(stack).point, Below(stack);
    if point.title == "" then below else WithTop(below, Top(below).point.(children := Top(below).point.children + [point]))
  }

  lemma BelowOfTheRest(stack: seq<Open>)
    requires |stack| > 1
    ensures Below(stack)[1..] == Below(stack[1..])
  {
    assert Below(stack) == stack[..|stack| - 1] && Below(stack[1..]) == stack[1..][..|stack| - 2];
    forall k | 0 <= k < |stack| - 2 ensures Below(stack)[1..][k] == Below(stack[1..])[k] {
      assert Below(stack)[1..][k] == stack[k + 1] && stack[1..][k] == stack[k + 1];
    }
  }

  lemma {:induction false} FoldedAlike(stack: seq<Open>)
    requires |stack| > 1
    ensures |Folded(stack)| == |stack| - 1 && Gathered(Folded(stack)) == Gathered(stack)
  {
    var folded := Folded(stack);
    if |stack| == 2 {
      assert stack[1..][1..] == [] && folded[1..] == [];
      assert Gathered(stack[1..]) == if stack[1].point.title == "" then [] else [stack[1].point.(children := stack[1].point.children + [])];
      assert stack[1].point.children + [] == stack[1].point.children;
      assert folded[0].point.children + [] == folded[0].point.children;
      assert stack[0].point.children + [] == stack[0].point.children;
    } else {
      FoldedAlike(stack[1..]);
      BelowOfTheRest(stack);
      assert folded[0] == stack[0] && folded[1..] == Folded(stack[1..]);
    }
  }

  lemma UnwindOne(s: State)
    requires |s.stack| > 1
    ensures Unwind(s) == Unwind(s.(stack := Folded(s.stack)))
  {
    assert Below(s.stack) != [];
  }

  /** At the end of a navigation document, the entries still open join the top level as one, nested as they were. */
  lemma {:induction false} OpenEntriesAreGathered(s: State)
    ensures Unwind(s).roots == s.roots + Gathered(s.stack)
    decreases |s.stack|
  {
    if |s.stack| == 0 {
      assert s.roots + [] == s.roots;
    } else if |s.stack| == 1 {
      var point := s.stack[0].point;
      assert s.stack[1..] == [] && Below(s.stack) == [];
      assert point.children + [] == point.children && s.roots + [] == s.roots;
      assert Unwind(s) == if point.title == "" then s.(stack := []) else s.(stack := [], roots := s.roots + [point]);
    } else {
      FoldedAlike(s.stack);
      UnwindOne(s);
      OpenEntriesAreGathered(s.(stack := Folded(s.stack)));
    }
  }

  /**
   * What a document that breaks off is read as: in a navigation document the finished
   * entries and those still open, and in an NCX the finished ones alone.
   */
  lemma TruncatedDocuments(events: seq<Event>, resolve: string -> string)
    ensures var nav, ncx := Run(NavDocument, Initial, events, resolve), Run(Ncx, Initial, events, resolve);
            && NavToc(events, resolve) == Renumber(nav.roots + Gathered(nav.stack), 0)
            && NcxToc(events, resolve) == Renumber(ncx.roots, 0)
  {
    OpenEntriesAreGathered(Run(NavDocument, Initial, events, resolve));
  }
}
