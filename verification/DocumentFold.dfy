/**
 * The Document fold of src/document_fold.rs: items linked by reference strings
 * that are written when an item is made and parsed back when it gets a child.
 */
module DocumentFold {
  import opened Documents
  import opened FoldSpec
  import opened Nav
  import opened NavTree
  import opened Outcomes
  import opened Text

  const USIZE_MAX := 0xFFFF_FFFF_FFFF_FFFF

  // ----- Reading a reference back -----

  /** A machine-word decimal, with an optional plus sign. */
  function ParseIndex(s: string): Option<nat> {
    var digits := if s != "" && s[0] == '+' then s[1..] else s;
    if digits != "" && AllDigits(digits) && Value(digits) <= USIZE_MAX then Some(Value(digits)) else None
  }

  datatype Place = AtFurniture | AtGroup(index: nat) | AtBody

  /** The group a reference names, falling back to the body. */
  function Locate(count: nat, ref: string): (place: Place)
    ensures place.AtGroup? ==> place.index < count
  {
    if ref == FURNITURE then AtFurniture
    else if GROUPS <= ref then
      match ParseIndex(ref[|GROUPS|..])
      case Some(k) => if k < count then AtGroup(k) else AtBody
      case None => AtBody
    else AtBody
  }

  lemma NameIsLocated(count: nat, k: nat)
    requires k < count <= USIZE_MAX
    ensures Locate(count, Name(GroupRef(k))) == AtGroup(k)
  {
    var name := Name(GroupRef(k));
    assert name[|GROUPS|..] == Decimal(k);
    assert name[2] == 'g' && FURNITURE[2] == 'f';
    assert GROUPS <= name;
  }

  function Adopt(group: Group, child: string): Group {
    group.(item := group.item.(children := group.item.children + [child]))
  }

  function Fresh(name: string): Group {
    Group(Item(name, None, []), "", None)
  }

  /** The document with `child` listed by the group that `parent` names. */
  function Linked(document: Document, parent: string, child: string): Document {
    match Locate(|document.groups|, parent)
    case AtFurniture => document.(furniture := Some(Adopt(document.furniture.UnwrapOr(Fresh(FURNITURE)), child)))
    case AtGroup(k) => document.(groups := document.groups[k := Adopt(document.groups[k], child)])
    case AtBody => document.(body := Some(Adopt(document.body.UnwrapOr(Fresh(BODY)), child)))
  }

  // ----- By position and by reference -----

  lemma NamesPlus(refs: seq<Ref>, ref: Ref)
    ensures Names(refs + [ref]) == Names(refs) + [Name(ref)]
  {
  }

  /** Listing one more item in the body. */
  lemma LinkInBody(shape: Shape, document: Document, ref: Ref)
    requires document.body == RootGroup(BODY, shape.body)
    ensures Linked(document, BODY, Name(ref)) == document.(body := RootGroup(BODY, shape.body + [ref]))
  {
    NamesPlus(shape.body, ref);
    assert BODY[2] != FURNITURE[2];
    assert !(GROUPS <= BODY);
  }

  lemma OwnedByPlus(pictures: seq<Pic>, pic: Pic, k: nat)
    ensures OwnedBy(pictures + [pic], k)
            == OwnedBy(pictures, k) + if pic.owner == Some(k) then [PictureRef(|pictures|)] else []
  {
    assert (pictures + [pic])[..|pictures|] == pictures;
  }

  lemma {:induction false} OwnedByNone(pictures: seq<Pic>, k: nat)
    requires forall i :: 0 <= i < |pictures| ==> pictures[i].owner != Some(k)
    ensures OwnedBy(pictures, k) == []
  {
    if pictures != [] {
      OwnedByNone(pictures[..|pictures| - 1], k);
    }
  }

  /** Every owner is a chapter there is. */
  ghost predicate Owned(shape: Shape) {
    forall i :: 0 <= i < |shape.pictures| && shape.pictures[i].owner.Some? ==>
                  shape.pictures[i].owner.value < |shape.chapters|
  }

  lemma {:induction false} ShapeIsOwned(log: seq<Event>)
    ensures Owned(ShapeOf(log))
    ensures |ShapeOf(log).chapters| <= |log| && |ShapeOf(log).pictures| <= |log|
  {
    if log != [] {
      ShapeIsOwned(log[..|log| - 1]);
    }
  }

  /** The groups and pictures of a draft, as one more item is added. */
  lemma DraftPlusChapter(shape: Shape, href: string)
    requires Owned(shape)
    ensures var after := shape.(chapters := shape.chapters + [href]);
            Draft(after).groups == Draft(shape).groups + [Group(Item(Name(GroupRef(|shape.chapters|)), Some(BODY), []), href, None)]
            && Draft(after).pictures == Draft(shape).pictures
  {
    var after := shape.(chapters := shape.chapters + [href]);
    OwnedByNone(shape.pictures, |shape.chapters|);
    assert Names([]) == [];
    assert GroupAt(after, |shape.chapters|) == Group(Item(Name(GroupRef(|shape.chapters|)), Some(BODY), []), href, None);
    forall k | 0 <= k < |shape.chapters| ensures GroupAt(after, k) == GroupAt(shape, k) {
    }
  }

  lemma GroupPlusPicture(shape: Shape, pic: Pic, k: nat)
    requires k < |shape.chapters|
    ensures GroupAt(shape.(pictures := shape.pictures + [pic]), k)
            == if pic.owner == Some(k) then Adopt(GroupAt(shape, k), Name(PictureRef(|shape.pictures|))) else GroupAt(shape, k)
  {
    OwnedByPlus(shape.pictures, pic, k);
    NamesPlus(OwnedBy(shape.pictures, k), PictureRef(|shape.pictures|));
    assert OwnedBy(shape.pictures, k) + [] == OwnedBy(shape.pictures, k);
  }

  lemma DraftPlusPicture(shape: Shape, pic: Pic)
    ensures var n := |shape.pictures|;
            var item := Item(Name(PictureRef(n)), Some(OwnerName(pic.owner)), []);
            Draft(shape.(pictures := shape.pictures + [pic])).pictures
            == Draft(shape).pictures + [Picture(item, pic.href, pic.id, pic.mediaType, pic.cover)]
  {
  }

  lemma DraftPlusOwned(shape: Shape, pic: Pic)
    requires pic.owner.Some? ==> pic.owner.value < |shape.chapters|
    ensures var groups := Draft(shape).groups;
            Draft(shape.(pictures := shape.pictures + [pic])).groups
            == match pic.owner
               case None => groups
               case Some(k) => groups[k := Adopt(groups[k], Name(PictureRef(|shape.pictures|)))]
  {
    forall k | 0 <= k < |shape.chapters|
      ensures GroupAt(shape.(pictures := shape.pictures + [pic]), k)
              == if pic.owner == Some(k) then Adopt(GroupAt(shape, k), Name(PictureRef(|shape.pictures|))) else GroupAt(shape, k)
    {
      GroupPlusPicture(shape, pic, k);
    }
  }

  function Drawn(shape: Shape, pic: Pic): Document {
    var item := Item(Name(PictureRef(|shape.pictures|)), Some(OwnerName(pic.owner)), []);
    Draft(shape).(pictures := Draft(shape).pictures + [Picture(item, pic.href, pic.id, pic.mediaType, pic.cover)])
  }

  /** Linking a new picture by its owner's reference is listing it where its owner is. */
  lemma DrawnInBody(shape: Shape, pic: Pic)
    requires pic.owner.None?
    ensures Linked(Drawn(shape, pic), BODY, Name(PictureRef(|shape.pictures|)))
            == Draft(shape.(pictures := shape.pictures + [pic], body := shape.body + [PictureRef(|shape.pictures|)]))
  {
    DraftPlusPicture(shape, pic);
    DraftPlusOwned(shape, pic);
    LinkInBody(shape, Drawn(shape, pic), PictureRef(|shape.pictures|));
  }

  lemma DrawnInGroup(shape: Shape, pic: Pic)
    requires pic.owner.Some? && pic.owner.value < |shape.chapters| <= USIZE_MAX
    ensures Linked(Drawn(shape, pic), OwnerName(pic.owner), Name(PictureRef(|shape.pictures|)))
            == Draft(shape.(pictures := shape.pictures + [pic]))
  {
    DraftPlusPicture(shape, pic);
    DraftPlusOwned(shape, pic);
    NameIsLocated(|shape.chapters|, pic.owner.value);
  }

  // ----- The fold -----

  /** A chapter map holds the last chapter of every path. */
  ghost predicate Maps(refs: map<string, string>, chapters: seq<string>) {
    forall path :: match ChapterNamed(chapters, path)
                   case None => path !in refs
                   case Some(k) => path in refs && refs[path] == Name(GroupRef(k))
  }

  lemma MapsPlus(refs: map<string, string>, chapters: seq<string>, href: string)
    requires Maps(refs, chapters)
    ensures Maps(refs[href := Name(GroupRef(|chapters|))], chapters + [href])
  {
    assert (chapters + [href])[..|chapters|] == chapters;
  }

  function ChapterTarget(href: string, refs: map<string, string>): Option<string> {
    if href == "" then None
    else
      var path := BeforeHash(href);
      if path in refs then Some(refs[path]) else None
  }

  lemma OutlineOfOne(point: NavPoint, chapters: seq<string>)
    ensures forall entries :: entries + Outline([point], chapters)
                              == entries + [Projected(point, chapters)] + Outline(point.children, chapters)
  {
    assert Flatten([point]) == [point] + Flatten(point.children);
  }

  lemma TargetAgrees(href: string, refs: map<string, string>, chapters: seq<string>)
    requires Maps(refs, chapters)
    ensures ChapterTarget(href, refs) == TargetOf(href, chapters)
  {
  }

  lemma OutlinePlus(points: seq<NavPoint>, i: nat, chapters: seq<string>)
    requires i < |points|
    ensures forall entries :: entries + Outline(points[..i + 1], chapters)
                              == entries + Outline(points[..i], chapters) + Outline([points[i]], chapters)
  {
    FlattenPlus(points, i);
  }

  function Cued(groups: seq<Group>, overlay: Overlay, chapters: seq<string>): seq<Group>
    requires |groups| == |chapters|
  {
    match ChapterNamed(chapters, overlay.chapter)
    case None => groups
    case Some(k) => groups[k := groups[k].(cues := Some(overlay.cues))]
  }

  lemma CuesPlus(groups: seq<Group>, overlays: seq<Overlay>, i: nat, chapters: seq<string>)
    requires i < |overlays| && |groups| == |chapters|
    ensures WithCues(groups, overlays[..i + 1], chapters) == Cued(WithCues(groups, overlays[..i], chapters), overlays[i], chapters)
  {
    assert overlays[..i + 1][..i] == overlays[..i];
  }

  /** Folds the events of one book after another into one Document each. */
  class DocumentFold {
    var document: Document
    var coverHref: string
    var chapterRefs: map<string, string>
    var outline: seq<NavPoint>
    var overlays: seq<Overlay>
    /** The events since the last document was taken. */
    ghost var log: seq<Event>

    ghost predicate Valid()
      reads this
    {
      && document == Draft(ShapeOf(log))
      && coverHref == CoverOf(log)
      && Maps(chapterRefs, ShapeOf(log).chapters)
      && outline == TocOf(log)
      && overlays == OverlaysOf(log)
      && |log| <= USIZE_MAX
    }

    constructor ()
      ensures Valid() && log == []
    {
      document, coverHref, chapterRefs, outline, overlays, log := Draft(Shape([], [], [])), "", map[], [], [], [];
    }

    /** Enter `child` in the list of the item that it calls its parent. */
    method LinkChild(parent: string, child: string)
      modifies this`document
      ensures document == Linked(old(document), parent, child)
    {
      match Locate(|document.groups|, parent) {
        case AtFurniture =>
          var furniture := document.furniture.UnwrapOr(Fresh(FURNITURE));
          document := document.(furniture := Some(Adopt(furniture, child)));
        case AtGroup(k) =>
          document := document.(groups := document.groups[k := Adopt(document.groups[k], child)]);
        case AtBody =>
          var body := document.body.UnwrapOr(Fresh(BODY));
          document := document.(body := Some(Adopt(body, child)));
      }
    }

    /** One more picture, made of the file at `href` and owned by the group whose reference `parent` is. */
    method AddPicture(ghost shape: Shape, ghost owner: Option<nat>, parent: string, href: string, id: string, mediaType: string)
      requires document == Draft(shape) && parent == OwnerName(owner)
      requires owner.Some? ==> owner.value < |shape.chapters| <= USIZE_MAX
      modifies this`document
      ensures document == Draft(shape.(
                pictures := shape.pictures + [Pic(owner, href, id, mediaType, IsCover(coverHref, href))],
                body := if owner.None? then shape.body + [PictureRef(|shape.pictures|)] else shape.body))
    {
      ghost var pic := Pic(owner, href, id, mediaType, IsCover(coverHref, href));
      var selfRef := Name(PictureRef(|document.pictures|));
      var cover := coverHref != "" && href == coverHref;
      document := document.(pictures := document.pictures
                            + [Picture(Item(selfRef, Some(parent), []), href, id, mediaType, cover)]);
      assert document == Drawn(shape, pic);
      LinkChild(parent, selfRef);
      if owner.None? {
        DrawnInBody(shape, pic);
      } else {
        DrawnInGroup(shape, pic);
      }
    }

    /** Map one chapter to one chapter group under the body, holding a picture if the chapter is an image. */
    method AddChapter(href: string, idref: string, mediaType: string)
      requires Valid() && |log| < USIZE_MAX
      modifies this`document, this`chapterRefs
      ensures document == Draft(Grown(ShapeOf(log), Chapter(href, idref, mediaType), coverHref))
      ensures Maps(chapterRefs, ShapeOf(log).chapters + [href])
    {
      ghost var shape := ShapeOf(log);
      ghost var k := |shape.chapters|;
      ghost var listed := shape.(chapters := shape.chapters + [href]);
      ShapeIsOwned(log);
      DraftPlusChapter(shape, href);
      var selfRef := GROUPS + Decimal(|document.groups|);
      document := document.(groups := document.groups + [Group(Item(selfRef, Some(BODY), []), href, None)]);
      LinkInBody(shape, document, GroupRef(k));
      LinkChild(BODY, selfRef);
      ghost var linked := listed.(body := shape.body + [GroupRef(k)]);
      assert document == Draft(linked);
      if IsImage(mediaType) {
        AddPicture(linked, Some(k), selfRef, href, idref, mediaType);
      }
      MapsPlus(chapterRefs, shape.chapters, href);
      chapterRefs := chapterRefs[href := selfRef];
    }

    /** Fold one event in. */
    method Consume(event: Event)
      requires Valid() && |log| < USIZE_MAX
      modifies this
      ensures Valid() && log == old(log) + [event]
    {
      ghost var next := log + [event];
      assert next[..|log|] == log;
      ShapeIsOwned(log);
      match event {
        case Info(cover) => coverHref := cover;
        case Chapter(href, idref, mediaType) => AddChapter(href, idref, mediaType);
        case Resource(href, id, mediaType, image) =>
          if image {
            AddPicture(ShapeOf(log), None, BODY, href, id, mediaType);
          }
        case Navigation(toc) => outline := toc;
        case MediaOverlay(overlay) => overlays := overlays + [overlay];
        case Other =>
      }
      log := next;
    }

    /** Hand over what was built so far and start again from nothing. */
    method Take() returns (taken: Document)
      requires Valid()
      modifies this
      ensures taken == Built(old(log))
      ensures Valid() && log == []
    {
      ProjectOutline();
      ProjectOverlays();
      coverHref, chapterRefs := "", map[];
      taken := document;
      document, log := Draft(Shape([], [], [])), [];
    }

    /** Turn the held navigation entries into the document's outline. */
    method ProjectOutline()
      requires Valid()
      modifies this`document, this`outline
      ensures document == Draft(ShapeOf(log)).(outline := Outline(TocOf(log), ShapeOf(log).chapters))
      ensures outline == []
    {
      ghost var chapters := ShapeOf(log).chapters;
      var held, entries: seq<OutlineEntry> := outline, [];
      outline := [];
      for i := 0 to |held|
        invariant outline == [] && document == old(document)
        invariant entries == [] + Outline(held[..i], chapters)
      {
        entries := WalkOutline(held[i], chapterRefs, entries, chapters);
        OutlinePlus(held, i, chapters);
      }
      assert held[..|held|] == held;
      document := document.(outline := entries);
    }

    /** Put the cues of the held overlays on the groups of their chapters. */
    method ProjectOverlays()
      requires Maps(chapterRefs, ShapeOf(log).chapters) && |log| <= USIZE_MAX
      requires document.groups == Draft(ShapeOf(log)).groups
      modifies this`document, this`overlays
      ensures document == old(document).(groups := WithCues(old(document.groups), old(overlays), ShapeOf(log).chapters))
      ensures overlays == []
    {
      ghost var chapters, groups := ShapeOf(log).chapters, document.groups;
      ShapeIsOwned(log);
      var held := overlays;
      overlays := [];
      for i := 0 to |held|
        invariant overlays == []
        invariant document == old(document).(groups := WithCues(groups, held[..i], chapters))
      {
        AttachCues(held[i], chapters);
        CuesPlus(groups, held, i, chapters);
      }
      assert held[..|held|] == held;
    }

    method AttachCues(overlay: Overlay, ghost chapters: seq<string>)
      requires Maps(chapterRefs, chapters) && |document.groups| == |chapters| <= USIZE_MAX
      modifies this`document
      ensures document == old(document).(groups := Cued(old(document.groups), overlay, chapters))
    {
      if overlay.chapter in chapterRefs {
        NameIsLocated(|chapters|, ChapterNamed(chapters, overlay.chapter).value);
        match Locate(|document.groups|, chapterRefs[overlay.chapter]) {
          case AtGroup(k) =>
            document := document.(groups := document.groups[k := document.groups[k].(cues := Some(overlay.cues))]);
          case _ =>
        }
      }
    }
  }

  /** Append the entry and everything under it, depth-first in reading order. */
  method WalkOutline(point: NavPoint, refs: map<string, string>, entries: seq<OutlineEntry>, ghost chapters: seq<string>)
    returns (extended: seq<OutlineEntry>)
    requires Maps(refs, chapters)
    ensures extended == entries + Outline([point], chapters)
    decreases point
  {
    var level := if point.depth <= I32_MAX then point.depth else I32_MAX;
    TargetAgrees(point.href, refs, chapters);
    extended := entries + [OutlineEntry(point.title, level, ChapterTarget(point.href, refs))];
    ghost var start := extended;
    for i := 0 to |point.children|
      invariant extended == start + Outline(point.children[..i], chapters)
    {
      extended := WalkOutline(point.children[i], refs, extended, chapters);
      OutlinePlus(point.children, i, chapters);
    }
    assert point.children[..|point.children|] == point.children;
    OutlineOfOne(point, chapters);
  }

  // ----- Runs of a shared fold -----

  /** What may be asked of a fold, in any order and any number of times. */
  datatype Action = Feed(event: Event) | TakeOut

  /** The events since the last document was taken. */
  function Pending(script: seq<Action>): seq<Event> {
    if script == [] then []
    else
      match script[|script| - 1]
      case Feed(event) => Pending(script[..|script| - 1]) + [event]
      case TakeOut => []
  }

  /** The documents taken: each is built from the events since the one before, and from nothing else. */
  function Taken(script: seq<Action>): seq<Document> {
    if script == [] then []
    else
      var before := script[..|script| - 1];
      Taken(before) + if script[|script| - 1].TakeOut? then [Built(Pending(before))] else []
  }

  lemma {:induction false} PendingIsShort(script: seq<Action>)
    ensures |Pending(script)| <= |script|
  {
    if script != [] {
      PendingIsShort(script[..|script| - 1]);
    }
  }

  lemma NextAsked(script: seq<Action>, i: nat)
    requires i < |script|
    ensures Pending(script[..i + 1])
            == match script[i] case Feed(event) => Pending(script[..i]) + [event] case TakeOut => []
    ensures Taken(script[..i + 1]) == Taken(script[..i]) + if script[i].TakeOut? then [Built(Pending(script[..i]))] else []
  {
    assert script[..i + 1][..i] == script[..i];
  }

  /** Whatever is asked of a fold, every document taken from it is built from its own events. */
  method Play(script: seq<Action>) returns (taken: seq<Document>)
    requires |script| <= USIZE_MAX
    ensures taken == Taken(script)
  {
    var fold := new DocumentFold();
    taken := [];
    for i := 0 to |script|
      invariant fresh(fold) && fold.Valid() && fold.log == Pending(script[..i])
      invariant taken == Taken(script[..i])
    {
      NextAsked(script, i);
      PendingIsShort(script[..i]);
      match script[i] {
        case Feed(event) => fold.Consume(event);
        case TakeOut =>
          var document := fold.Take();
          taken := taken + [document];
      }
    }
    assert script[..|script|] == script;
  }
}
