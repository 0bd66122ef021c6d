/** What holds of every Document, whatever the events and in whatever order they came. */
module DocumentTree {
  import opened Documents
  import opened FoldSpec
  import opened Integrity
  import opened Nav
  import opened NavTree
  import opened Outcomes
  import opened Text

  // ----- References are distinct -----

  lemma DecimalIsInjective(a: nat, b: nat)
    requires Decimal(a) == Decimal(b)
    ensures a == b
  {
    assert Value(Decimal(a)) == a;
  }

  lemma NameIsInjective(a: Ref, b: Ref)
    requires FoldSpec.Name(a) == FoldSpec.Name(b)
    ensures a == b
  {
    var name := FoldSpec.Name(a);
    assert GROUPS[2] != PICTURES[2];
    assert name[2] == if a.GroupRef? then GROUPS[2] else PICTURES[2];
    assert name[2] == if b.GroupRef? then GROUPS[2] else PICTURES[2];
    var prefix := if a.GroupRef? then GROUPS else PICTURES;
    assert name[|prefix|..] == Decimal(a.index) && name[|prefix|..] == Decimal(b.index);
    DecimalIsInjective(a.index, b.index);
  }

  lemma NameIsNoRoot(ref: Ref)
    ensures FoldSpec.Name(ref) != BODY && FoldSpec.Name(ref) != FURNITURE && FoldSpec.Name(ref) != ""
  {
    var name := FoldSpec.Name(ref);
    assert name[2] == if ref.GroupRef? then 'g' else 'p';
    assert BODY[2] == 'b' && FURNITURE[2] == 'f';
  }

  // ----- What is listed where -----

  predicate Unrepeated(refs: seq<Ref>) {
    forall i, j :: 0 <= i < j < |refs| ==> refs[i] != refs[j]
  }

  /** The reference of an item of the document, and whether the body is its parent. */
  predicate Exists(shape: Shape, ref: Ref) {
    match ref
    case GroupRef(k) => k < |shape.chapters|
    case PictureRef(k) => k < |shape.pictures|
  }

  function OwnerOf(shape: Shape, ref: Ref): Option<nat>
    requires Exists(shape, ref)
  {
    match ref
    case GroupRef(_) => None
    case PictureRef(k) => shape.pictures[k].owner
  }

  /** The body lists exactly the items that no chapter owns, each once, and only chapters that exist own any. */
  ghost predicate Placed(shape: Shape) {
    && Unrepeated(shape.body)
    && (forall ref :: ref in shape.body <==> Exists(shape, ref) && OwnerOf(shape, ref) == None)
    && (forall k :: 0 <= k < |shape.pictures| && shape.pictures[k].owner.Some? ==>
          shape.pictures[k].owner.value < |shape.chapters|)
  }

  lemma GrownIsPlaced(shape: Shape, event: Event, cover: string)
    requires Placed(shape)
    ensures Placed(Grown(shape, event, cover))
  {
    var after := Grown(shape, event, cover);
    forall ref ensures ref in after.body <==> Exists(after, ref) && OwnerOf(after, ref) == None {
      GrownLists(shape, event, cover, ref);
    }
    if after.body != shape.body {
      var last := after.body[|shape.body|];
      assert after.body == shape.body + [last] && !Exists(shape, last);
    }
  }

  lemma GrownLists(shape: Shape, event: Event, cover: string, ref: Ref)
    requires Placed(shape)
    ensures var after := Grown(shape, event, cover);
            ref in after.body <==> Exists(after, ref) && OwnerOf(after, ref) == None
  {
    var after := Grown(shape, event, cover);
    if Exists(shape, ref) {
      assert OwnerOf(after, ref) == OwnerOf(shape, ref);
    }
    if event.Chapter? {
      assert after.body == shape.body + [GroupRef(|shape.chapters|)];
    }
  }

  lemma {:induction false} ShapeIsPlaced(log: seq<Event>)
    ensures Placed(ShapeOf(log))
  {
    if log != [] {
      ShapeIsPlaced(log[..|log| - 1]);
      GrownIsPlaced(ShapeOf(log[..|log| - 1]), log[|log| - 1], CoverOf(log[..|log| - 1]));
    }
  }

  /** A chapter lists exactly the pictures it owns, each once. */
  lemma {:induction false} OwnedAreListed(pictures: seq<Pic>, k: nat)
    ensures Unrepeated(OwnedBy(pictures, k))
    ensures forall ref :: ref in OwnedBy(pictures, k)
              <==> ref.PictureRef? && ref.index < |pictures| && pictures[ref.index].owner == Some(k)
  {
    if pictures != [] {
      OwnedAreListed(pictures[..|pictures| - 1], k);
    }
  }

  // ----- The entries of a document -----

  /** Two roots, then the groups, then the pictures. */
  function Size(shape: Shape): nat {
    2 + |shape.chapters| + |shape.pictures|
  }

  function RefAt(shape: Shape, i: nat): Ref
    requires 2 <= i < Size(shape)
  {
    if i < 2 + |shape.chapters| then GroupRef(i - 2) else PictureRef(i - 2 - |shape.chapters|)
  }

  function PositionOf(shape: Shape, ref: Ref): (i: nat)
    requires Exists(shape, ref)
    ensures 2 <= i < Size(shape) && RefAt(shape, i) == ref
  {
    match ref
    case GroupRef(k) => 2 + k
    case PictureRef(k) => 2 + |shape.chapters| + k
  }

  /** What the entry at a position lists. */
  function ListedAt(shape: Shape, i: nat): seq<Ref>
    requires i < Size(shape)
  {
    if i == 0 then shape.body
    else if i == 1 || i >= 2 + |shape.chapters| then []
    else OwnedBy(shape.pictures, i - 2)
  }

  function EntryAt(shape: Shape, i: nat): Entry
    requires i < Size(shape)
  {
    var children := Names(ListedAt(shape, i));
    if i == 0 then Root(BODY, Some(Item(BODY, None, children)))
    else if i == 1 then Root(FURNITURE, Some(Item(FURNITURE, None, children)))
    else
      var ref := RefAt(shape, i);
      Arena(Some(Item(FoldSpec.Name(ref), Some(OwnerName(OwnerOf(shape, ref))), children)))
  }

  lemma EntryOfAGroup(log: seq<Event>, k: nat)
    requires k < |ShapeOf(log).chapters|
    ensures var groups := GroupEntries(Built(log).groups); k < |groups| && groups[k] == EntryAt(ShapeOf(log), 2 + k)
  {
    assert RefAt(ShapeOf(log), 2 + k) == GroupRef(k);
  }

  lemma EntryOfAPicture(log: seq<Event>, k: nat)
    requires k < |ShapeOf(log).pictures|
    ensures var pictures := PictureEntries(Built(log).pictures);
            k < |pictures| && pictures[k] == EntryAt(ShapeOf(log), 2 + |ShapeOf(log).chapters| + k)
  {
    var shape := ShapeOf(log);
    assert RefAt(shape, 2 + |shape.chapters| + k) == PictureRef(k);
    assert Names([]) == [];
  }

  lemma EntriesArePlaced(log: seq<Event>)
    ensures var document := Built(log);
            Entries(document) == Roots(document) + GroupEntries(document.groups) + PictureEntries(document.pictures)
  {
    var document := Built(log);
    assert TextEntries(document.texts) == [] && TableEntries(document.tables) == [];
  }

  lemma EntriesByPosition(log: seq<Event>)
    ensures var shape, entries := ShapeOf(log), Entries(Built(log));
            |entries| == Size(shape) && forall i :: 0 <= i < |entries| ==> entries[i] == EntryAt(shape, i)
  {
    var shape, document := ShapeOf(log), Built(log);
    EntriesArePlaced(log);
    assert Names([]) == [];
    var roots, groups, pictures := Roots(document), GroupEntries(document.groups), PictureEntries(document.pictures);
    forall i | 0 <= i < Size(shape) ensures (roots + groups + pictures)[i] == EntryAt(shape, i) {
      if 2 <= i < 2 + |shape.chapters| {
        EntryOfAGroup(log, i - 2);
      } else if 2 + |shape.chapters| <= i {
        EntryOfAPicture(log, i - 2 - |shape.chapters|);
      }
    }
  }

  // ----- The tree -----

  /** The entry at `i` has `name` as its child number `p`. */
  predicate ChildAt(entries: seq<Entry>, i: nat, p: nat, name: string) {
    i < |entries| && entries[i].found.Some? && p < |entries[i].found.value.children|
    && entries[i].found.value.children[p] == name
  }

  /** No name is listed twice anywhere in the document. */
  ghost predicate ListedOnce(entries: seq<Entry>) {
    forall i: nat, p: nat, j: nat, q: nat, name :: ChildAt(entries, i, p, name) && ChildAt(entries, j, q, name) ==> i == j && p == q
  }

  /** Every child is listed by its own parent. */
  ghost predicate ListedByParent(entries: seq<Entry>) {
    forall i: nat, p: nat, name :: ChildAt(entries, i, p, name) ==> Named(entries[i]) && Claims(entries, Integrity.Name(entries[i]), name)
  }

  /** Every item is a child of the body, or a child of such a child. */
  ghost predicate ReachedInTwo(document: Document, entries: seq<Entry>) {
    forall i :: 0 <= i < |entries| && IsItem(entries[i]) ==>
      document.body.Some?
      && (var reached := document.body.value.item.children;
          entries[i].found.value.selfRef in reached
          || exists parent :: parent in reached && Lists(entries, parent, entries[i].found.value.selfRef))
  }

  /** Where an item is listed: the position of its owner's entry. */
  function OwnerAt(shape: Shape, ref: Ref): nat
    requires Exists(shape, ref)
  {
    match OwnerOf(shape, ref)
    case None => 0
    case Some(k) => 2 + k
  }

  /** A reference is listed at exactly one position, and that is its owner's. */
  lemma ListedOnlyByOwner(shape: Shape, i: nat, ref: Ref)
    requires Placed(shape) && i < Size(shape)
    ensures Unrepeated(ListedAt(shape, i))
    ensures ref in ListedAt(shape, i) <==> Exists(shape, ref) && i == OwnerAt(shape, ref)
  {
    if 2 <= i < 2 + |shape.chapters| {
      OwnedAreListed(shape.pictures, i - 2);
    }
  }

  lemma ChildIsRef(shape: Shape, entries: seq<Entry>, i: nat, p: nat, name: string)
    requires |entries| == Size(shape) && forall i :: 0 <= i < |entries| ==> entries[i] == EntryAt(shape, i)
    requires Placed(shape) && ChildAt(entries, i, p, name)
    ensures p < |ListedAt(shape, i)|
    ensures var ref := ListedAt(shape, i)[p];
            FoldSpec.Name(ref) == name && Exists(shape, ref) && i == OwnerAt(shape, ref)
  {
    assert entries[i] == EntryAt(shape, i);
    ListedOnlyByOwner(shape, i, ListedAt(shape, i)[p]);
  }

  lemma DocumentListsOnce(shape: Shape, entries: seq<Entry>)
    requires |entries| == Size(shape) && forall i :: 0 <= i < |entries| ==> entries[i] == EntryAt(shape, i)
    requires Placed(shape)
    ensures ListedOnce(entries)
  {
    forall i: nat, p: nat, j: nat, q: nat, name | ChildAt(entries, i, p, name) && ChildAt(entries, j, q, name) ensures i == j && p == q {
      ChildIsRef(shape, entries, i, p, name);
      ChildIsRef(shape, entries, j, q, name);
      NameIsInjective(ListedAt(shape, i)[p], ListedAt(shape, j)[q]);
      ListedOnlyByOwner(shape, i, ListedAt(shape, i)[p]);
    }
  }

  /** The owner's entry is called what its items call their parent. */
  lemma OwnerIsNamed(shape: Shape, ref: Ref)
    requires Placed(shape) && Exists(shape, ref)
    ensures OwnerAt(shape, ref) < Size(shape)
    ensures var owner := EntryAt(shape, OwnerAt(shape, ref));
            Named(owner) && Integrity.Name(owner) == OwnerName(OwnerOf(shape, ref))
  {
    if OwnerOf(shape, ref).Some? {
      NameIsNoRoot(GroupRef(OwnerOf(shape, ref).value));
    }
  }

  lemma ItemIsClaimed(shape: Shape, entries: seq<Entry>, ref: Ref)
    requires |entries| == Size(shape) && forall i :: 0 <= i < |entries| ==> entries[i] == EntryAt(shape, i)
    requires Placed(shape) && Exists(shape, ref)
    ensures Claims(entries, OwnerName(OwnerOf(shape, ref)), FoldSpec.Name(ref))
    ensures Lists(entries, OwnerName(OwnerOf(shape, ref)), FoldSpec.Name(ref))
    ensures Refers(entries, FoldSpec.Name(ref))
  {
    var i, o := PositionOf(shape, ref), OwnerAt(shape, ref);
    NameIsNoRoot(ref);
    OwnerIsNamed(shape, ref);
    assert entries[i] == EntryAt(shape, i) && IsItem(entries[i]);
    assert entries[o] == EntryAt(shape, o);
    ListedOnlyByOwner(shape, o, ref);
    var p :| 0 <= p < |ListedAt(shape, o)| && ListedAt(shape, o)[p] == ref;
    assert entries[o].found.value.children[p] == FoldSpec.Name(ref);
  }

  lemma DocumentIsSound(shape: Shape, entries: seq<Entry>)
    requires |entries| == Size(shape) && forall i :: 0 <= i < |entries| ==> entries[i] == EntryAt(shape, i)
    requires Placed(shape)
    ensures Sound(entries) && ListedByParent(entries)
  {
    forall i | 0 <= i < |entries|
      ensures Named(entries[i]) && entries[i].found.value.selfRef == Integrity.Name(entries[i])
      ensures entries[i].Arena? ==>
                entries[i].found.value.parent.Some?
                && Lists(entries, entries[i].found.value.parent.value, entries[i].found.value.selfRef)
    {
      if i >= 2 {
        NameIsNoRoot(RefAt(shape, i));
        ItemIsClaimed(shape, entries, RefAt(shape, i));
      }
    }
    forall i, j | 0 <= i < j < |entries| ensures Integrity.Name(entries[i]) != Integrity.Name(entries[j]) {
      NamesAreDistinct(shape, i, j);
    }
    forall i: nat, p: nat, name | ChildAt(entries, i, p, name)
      ensures Named(entries[i]) && Claims(entries, Integrity.Name(entries[i]), name) && Refers(entries, name)
    {
      ChildIsRef(shape, entries, i, p, name);
      OwnerIsNamed(shape, ListedAt(shape, i)[p]);
      ItemIsClaimed(shape, entries, ListedAt(shape, i)[p]);
    }
    forall i, child | 0 <= i < |entries| && child in entries[i].found.value.children ensures Refers(entries, child) {
      var p :| 0 <= p < |entries[i].found.value.children| && entries[i].found.value.children[p] == child;
      assert ChildAt(entries, i, p, child);
    }
  }

  lemma NamesAreDistinct(shape: Shape, i: nat, j: nat)
    requires i < j < Size(shape)
    ensures var a, b := EntryAt(shape, i), EntryAt(shape, j);
            a.found.value.selfRef != b.found.value.selfRef
  {
    if j == 1 {
      assert BODY[2] != FURNITURE[2];
    } else if i < 2 {
      NameIsNoRoot(RefAt(shape, j));
    } else if FoldSpec.Name(RefAt(shape, i)) == FoldSpec.Name(RefAt(shape, j)) {
      NameIsInjective(RefAt(shape, i), RefAt(shape, j));
    }
  }

  lemma DocumentIsReached(log: seq<Event>, entries: seq<Entry>)
    requires entries == Entries(Built(log))
    ensures ReachedInTwo(Built(log), entries)
  {
    var shape := ShapeOf(log);
    ShapeIsPlaced(log);
    EntriesByPosition(log);
    var reached := Names(shape.body);
    forall i | 0 <= i < |entries| && IsItem(entries[i])
      ensures entries[i].found.value.selfRef in reached
              || exists parent :: parent in reached && Lists(entries, parent, entries[i].found.value.selfRef)
    {
      var ref := RefAt(shape, i);
      ItemIsClaimed(shape, entries, ref);
      match OwnerOf(shape, ref) {
        case None => IsReached(shape, ref);
        case Some(k) => IsReached(shape, GroupRef(k));
      }
    }
  }

  lemma IsReached(shape: Shape, ref: Ref)
    requires Placed(shape) && Exists(shape, ref) && OwnerOf(shape, ref) == None
    ensures FoldSpec.Name(ref) in Names(shape.body)
  {
    var p :| 0 <= p < |shape.body| && shape.body[p] == ref;
    assert Names(shape.body)[p] == FoldSpec.Name(ref);
  }

  /**
   * Whatever the events, in whatever order and however often: the references are
   * dense and distinct, every item is listed exactly once and by its own parent,
   * every item is reached from the body in at most two steps, and the check finds nothing.
   */
  lemma EveryDocumentIsATree(log: seq<Event>)
    ensures var document, entries := Built(log), Entries(Built(log));
            && (forall k :: 0 <= k < |document.groups| ==> document.groups[k].item.selfRef == FoldSpec.Name(GroupRef(k)))
            && (forall k :: 0 <= k < |document.pictures| ==> document.pictures[k].item.selfRef == FoldSpec.Name(PictureRef(k)))
            && Sound(entries) && ListedOnce(entries) && ListedByParent(entries) && ReachedInTwo(document, entries)
            && (forall defect :: !Wrong(document, defect))
  {
    var document, entries := Built(log), Entries(Built(log));
    ShapeIsPlaced(log);
    EntriesByPosition(log);
    DocumentListsOnce(ShapeOf(log), entries);
    DocumentIsSound(ShapeOf(log), entries);
    DocumentIsReached(log, entries);
    CleanExactlyWhenSound(document);
  }

  // ----- The outline -----

  predicate IsChapter(event: Event, path: string) {
    event.Chapter? && event.href == path
  }

  /** Some chapter of the run, at any moment, has this path. */
  ghost predicate HasChapter(log: seq<Event>, path: string) {
    exists i :: 0 <= i < |log| && IsChapter(log[i], path)
  }

  lemma {:induction false} ChaptersOf(log: seq<Event>, path: string)
    ensures path in ShapeOf(log).chapters <==> HasChapter(log, path)
  {
    if log != [] {
      var before, last := log[..|log| - 1], log[|log| - 1];
      ChaptersOf(before, path);
      assert log == before + [last];
      if HasChapter(before, path) {
        var i :| 0 <= i < |before| && IsChapter(before[i], path);
        assert IsChapter(log[i], path);
      }
    }
  }

  lemma BeforeHashHasNone(href: string)
    ensures '#' !in BeforeHash(href)
  {
  }

  /**
   * The outline is the depth-first walk of the last table of contents. An entry
   * points at an existing group whose name is the link cut at its fragment, the last
   * group of that name; and a link has no target exactly when it is empty or no
   * chapter of the run had that name, before or after the table of contents.
   */
  lemma OutlineIsProjection(log: seq<Event>, i: nat)
    requires i < |Flatten(TocOf(log))|
    ensures |Built(log).outline| == |Flatten(TocOf(log))|
    ensures var point, entry := Flatten(TocOf(log))[i], Built(log).outline[i];
            var groups, path := Built(log).groups, BeforeHash(point.href);
            && entry.title == point.title
            && entry.level == (if point.depth < 0x8000_0000 then point.depth else 0x7FFF_FFFF)
            && (entry.target.None? <==> point.href == "" || !HasChapter(log, path))
            && (entry.target.Some? ==>
                  exists k :: 0 <= k < |groups| && groups[k].item.selfRef == entry.target.value && groups[k].name == path
                              && forall j :: k < j < |groups| ==> groups[j].name != path)
  {
    var point := Flatten(TocOf(log))[i];
    var shape, path := ShapeOf(log), BeforeHash(point.href);
    ChaptersOf(log, path);
    match ChapterNamed(shape.chapters, path) {
      case None =>
      case Some(k) =>
        var groups := Built(log).groups;
        assert groups[k].name == path && groups[k].item.selfRef == FoldSpec.Name(GroupRef(k));
        forall j | k < j < |groups| ensures groups[j].name != path {
          assert groups[j].name == shape.chapters[j];
        }
    }
  }

  lemma CutChangesNothingExactlyWhen(href: string)
    ensures BeforeHash(href) == href <==> '#' !in href
  {
    if '#' in href {
      BeforeHashHasNone(href);
    }
  }

  /** Group `k` is the last one that a chapter of its name made. */
  ghost predicate LastOfItsName(groups: seq<Group>, k: nat)
    requires k < |groups|
  {
    forall j :: k < j < |groups| ==> groups[j].name != groups[k].name
  }

  lemma LastIsNamed(chapters: seq<string>, path: string, k: nat)
    requires k < |chapters|
    ensures ChapterNamed(chapters, path) == Some(k)
            <==> chapters[k] == path && forall j :: k < j < |chapters| ==> chapters[j] != path
  {
  }

  /** A link leads to a group exactly when, cut at its fragment, it is the group's name, and no later group has that name. */
  lemma TargetExactlyWhen(log: seq<Event>, href: string, k: nat)
    requires k < |Built(log).groups|
    ensures var groups := Built(log).groups;
            TargetOf(href, ShapeOf(log).chapters) == Some(groups[k].item.selfRef)
            <==> href != "" && BeforeHash(href) == groups[k].name && LastOfItsName(groups, k)
  {
    var chapters, groups, path := ShapeOf(log).chapters, Built(log).groups, BeforeHash(href);
    assert forall j :: 0 <= j < |groups| ==> groups[j].name == chapters[j];
    assert groups[k].item.selfRef == FoldSpec.Name(GroupRef(k));
    LastIsNamed(chapters, path, k);
    match ChapterNamed(chapters, path) {
      case Some(j) =>
        if FoldSpec.Name(GroupRef(j)) == FoldSpec.Name(GroupRef(k)) {
          NameIsInjective(GroupRef(j), GroupRef(k));
        }
      case None =>
    }
  }

  /**
   * Of the chapters, those that some link can lead to are exactly the ones whose path
   * holds no `#`, each as the last of its name.
   */
  lemma SomeLinkLeadsExactlyWhen(log: seq<Event>, k: nat)
    requires k < |Built(log).groups|
    ensures var groups := Built(log).groups;
            (exists href :: TargetOf(href, ShapeOf(log).chapters) == Some(groups[k].item.selfRef))
            <==> '#' !in groups[k].name && LastOfItsName(groups, k)
  {
    var chapters, groups := ShapeOf(log).chapters, Built(log).groups;
    var name := groups[k].name;
    if '#' !in name && LastOfItsName(groups, k) {
      var href := name + ['#'] + "";
      SplitOnceAt(name, '#', "");
      TargetExactlyWhen(log, href, k);
      assert TargetOf(href, chapters) == Some(groups[k].item.selfRef);
    }
    forall href | TargetOf(href, chapters) == Some(groups[k].item.selfRef) ensures '#' !in name && LastOfItsName(groups, k) {
      TargetExactlyWhen(log, href, k);
      BeforeHashHasNone(href);
    }
  }

  /** An entry whose link is a chapter's own path points at that chapter exactly when the path holds no `#`. */
  lemma OwnPathLeadsExactlyWhen(log: seq<Event>, i: nat, k: nat)
    requires i < |Flatten(TocOf(log))| && k < |Built(log).groups|
    requires var groups := Built(log).groups;
             groups[k].name != "" && Flatten(TocOf(log))[i].href == groups[k].name && LastOfItsName(groups, k)
    ensures |Built(log).outline| == |Flatten(TocOf(log))|
    ensures Built(log).outline[i].target == Some(Built(log).groups[k].item.selfRef) <==> '#' !in Built(log).groups[k].name
  {
    TargetExactlyWhen(log, Flatten(TocOf(log))[i].href, k);
    CutChangesNothingExactlyWhen(Flatten(TocOf(log))[i].href);
  }

  /** A chapter whose path has a fragment mark in it is never the target of an entry. */
  lemma MarkedChapterIsNoTarget(log: seq<Event>, i: nat, k: nat)
    requires i < |Built(log).outline| && k < |Built(log).groups| && '#' in Built(log).groups[k].name
    ensures Built(log).outline[i].target != Some(Built(log).groups[k].item.selfRef)
  {
    TargetExactlyWhen(log, Flatten(TocOf(log))[i].href, k);
    BeforeHashHasNone(Flatten(TocOf(log))[i].href);
  }

  // ----- From the reader to the outline -----

  const U32_MAX := 0xFFFF_FFFF

  function Clipped(point: NavPoint): NavPoint {
    point.(depth := if point.depth <= U32_MAX then point.depth else U32_MAX)
  }

  /** The tree as it is sent, with every depth in 32 bits. */
  function OnWire(points: seq<NavPoint>): seq<NavPoint> {
    if points == [] then []
    else [Clipped(points[0]).(children := OnWire(points[0].children))] + OnWire(points[1..])
  }

  /** One entry as it is sent, with all below it. */
  function Sent(point: NavPoint): NavPoint {
    Clipped(point).(children := OnWire(point.children))
  }

  function EachSent(points: seq<NavPoint>): (sent: seq<NavPoint>)
    ensures |sent| == |points| && forall i :: 0 <= i < |points| ==> sent[i] == Sent(points[i])
  {
    seq(|points|, i requires 0 <= i < |points| => Sent(points[i]))
  }

  lemma SentInParts(first: NavPoint, inner: seq<NavPoint>, rest: seq<NavPoint>)
    ensures EachSent([first] + inner + rest) == [Sent(first)] + EachSent(inner) + EachSent(rest)
  {
  }

  lemma FlattenFirst(first: NavPoint, rest: seq<NavPoint>)
    ensures Flatten([first] + rest) == [first] + Flatten(first.children) + Flatten(rest)
  {
    assert ([first] + rest)[1..] == rest;
  }

  /** Flattening what is sent gives each entry of the flattened tree as it is sent. */
  lemma {:induction false} FlattenOnWire(points: seq<NavPoint>)
    ensures Flatten(OnWire(points)) == EachSent(Flatten(points))
    decreases points
  {
    if points != [] {
      var first, rest := points[0], points[1..];
      FlattenOnWire(first.children);
      FlattenOnWire(rest);
      FlattenFirst(Sent(first), OnWire(rest));
      SentInParts(first, Flatten(first.children), Flatten(rest));
    }
  }

  /** The outline agrees entry by entry with the flattened navigation that was read, once it has been sent. */
  lemma OutlineAgreesWithFlatten(log: seq<Event>, read: seq<NavPoint>, i: nat)
    requires TocOf(log) == OnWire(read) && i < |Flatten(read)|
    ensures |Built(log).outline| == |Flatten(read)|
    ensures Built(log).outline[i] == Projected(Flatten(read)[i], ShapeOf(log).chapters)
  {
    FlattenOnWire(read);
  }
}
