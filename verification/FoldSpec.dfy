/**
 * What a Document fold builds from a run of events, by position: which items there
 * are, what owns them and how they are named, with no reference string ever read.
 */
module FoldSpec {
  import opened Documents
  import opened Nav
  import opened NavTree
  import opened Outcomes
  import opened Text

  datatype Overlay = Overlay(chapter: string, cues: string)

  datatype Event =
    | Info(cover: string)
    | Chapter(href: string, idref: string, mediaType: string)
    | Resource(href: string, id: string, mediaType: string, image: bool)
    | Navigation(toc: seq<NavPoint>)
    | MediaOverlay(overlay: Overlay)
    | Other

  // ----- References -----

  datatype Ref = GroupRef(index: nat) | PictureRef(index: nat)

  const GROUPS := "#/groups/"
  const PICTURES := "#/pictures/"

  function Name(ref: Ref): string {
    match ref
    case GroupRef(k) => GROUPS + Decimal(k)
    case PictureRef(k) => PICTURES + Decimal(k)
  }

  function Names(refs: seq<Ref>): seq<string> {
    seq(|refs|, i requires 0 <= i < |refs| => Name(refs[i]))
  }

  // ----- Items -----

  /** A picture, owned by a chapter group or by the body. */
  datatype Pic = Pic(owner: Option<nat>, href: string, id: string, mediaType: string, cover: bool)

  /** The chapters by archive path, the pictures, and what the body lists. */
  datatype Shape = Shape(chapters: seq<string>, pictures: seq<Pic>, body: seq<Ref>)

  function Lower(c: char): char {
    if 'A' <= c <= 'Z' then c - 'A' + 'a' else c
  }

  function Lowered(s: string): string {
    seq(|s|, i requires 0 <= i < |s| => Lower(s[i]))
  }

  /** The media types that make a chapter a picture of its own. */
  predicate IsImage(mediaType: string) {
    var trimmed := Trim(mediaType);
    |trimmed| >= 6 && Lowered(trimmed[..6]) == "image/"
  }

  /** The cover named by the last information event. */
  function CoverOf(log: seq<Event>): string {
    if log == [] then ""
    else
      var last := log[|log| - 1];
      if last.Info? then last.cover else CoverOf(log[..|log| - 1])
  }

  predicate IsCover(cover: string, href: string) {
    cover != "" && href == cover
  }

  function Grown(shape: Shape, event: Event, cover: string): Shape {
    match event
    case Chapter(href, id, mediaType) =>
      var k := |shape.chapters|;
      Shape(shape.chapters + [href],
            if IsImage(mediaType) then shape.pictures + [Pic(Some(k), href, id, mediaType, IsCover(cover, href))]
            else shape.pictures,
            shape.body + [GroupRef(k)])
    case Resource(href, id, mediaType, true) =>
      shape.(pictures := shape.pictures + [Pic(None, href, id, mediaType, IsCover(cover, href))],
             body := shape.body + [PictureRef(|shape.pictures|)])
    case _ => shape
  }

  function ShapeOf(log: seq<Event>): Shape {
    if log == [] then Shape([], [], [])
    else Grown(ShapeOf(log[..|log| - 1]), log[|log| - 1], CoverOf(log[..|log| - 1]))
  }

  // ----- What is held until the end -----

  /** The last navigation event's table of contents. */
  function TocOf(log: seq<Event>): seq<NavPoint> {
    if log == [] then []
    else
      var last := log[|log| - 1];
      if last.Navigation? then last.toc else TocOf(log[..|log| - 1])
  }

  function OverlaysOf(log: seq<Event>): seq<Overlay> {
    if log == [] then []
    else OverlaysOf(log[..|log| - 1]) + (if log[|log| - 1].MediaOverlay? then [log[|log| - 1].overlay] else [])
  }

  /** The last of the chapters with this path. */
  function ChapterNamed(chapters: seq<string>, path: string): (r: Option<nat>)
    ensures r.Some? ==> r.value < |chapters| && chapters[r.value] == path
                        && forall j :: r.value < j < |chapters| ==> chapters[j] != path
    ensures r.None? ==> path !in chapters
  {
    if chapters == [] then None
    else if chapters[|chapters| - 1] == path then Some(|chapters| - 1)
    else ChapterNamed(chapters[..|chapters| - 1], path)
  }

  // ----- The outline -----

  const I32_MAX := 0x7FFF_FFFF

  function BeforeHash(href: string): string {
    SplitOnce(href, '#').UnwrapOr((href, "")).0
  }

  /** The chapter group that a link points at. */
  function TargetOf(href: string, chapters: seq<string>): Option<string> {
    if href == "" then None
    else
      match ChapterNamed(chapters, BeforeHash(href))
      case None => None
      case Some(k) => Some(Name(GroupRef(k)))
  }

  function Projected(point: NavPoint, chapters: seq<string>): OutlineEntry {
    OutlineEntry(point.title, if point.depth <= I32_MAX then point.depth else I32_MAX, TargetOf(point.href, chapters))
  }

  /** The entries depth-first in reading order. */
  function Outline(points: seq<NavPoint>, chapters: seq<string>): seq<OutlineEntry> {
    var flat := Flatten(points);
    seq(|flat|, i requires 0 <= i < |flat| => Projected(flat[i], chapters))
  }

  /** The cues that end up on a chapter group: those of the last overlay of the chapter, if it is the last of its path. */
  function CuesFor(overlays: seq<Overlay>, chapters: seq<string>, k: nat): Option<string> {
    if overlays == [] then None
    else
      var last := overlays[|overlays| - 1];
      if ChapterNamed(chapters, last.chapter) == Some(k) then Some(last.cues)
      else CuesFor(overlays[..|overlays| - 1], chapters, k)
  }

  // ----- The document -----

  /** The pictures of one chapter group, in order. */
  function OwnedBy(pictures: seq<Pic>, k: nat): seq<Ref> {
    if pictures == [] then []
    else
      OwnedBy(pictures[..|pictures| - 1], k)
      + if pictures[|pictures| - 1].owner == Some(k) then [PictureRef(|pictures| - 1)] else []
  }

  function OwnerName(owner: Option<nat>): string {
    match owner
    case None => BODY
    case Some(k) => Name(GroupRef(k))
  }

  function GroupAt(shape: Shape, k: nat): Group
    requires k < |shape.chapters|
  {
    Group(Item(Name(GroupRef(k)), Some(BODY), Names(OwnedBy(shape.pictures, k))), shape.chapters[k], None)
  }

  function PictureAt(shape: Shape, k: nat): Picture
    requires k < |shape.pictures|
  {
    var pic := shape.pictures[k];
    Picture(Item(Name(PictureRef(k)), Some(OwnerName(pic.owner)), []), pic.href, pic.id, pic.mediaType, pic.cover)
  }

  function RootGroup(name: string, children: seq<Ref>): Option<Group> {
    Some(Group(Item(name, None, Names(children)), "", None))
  }

  /** The document before the outline and the overlays are added. */
  function Draft(shape: Shape): Document {
    Document(
      RootGroup(BODY, shape.body),
      RootGroup(FURNITURE, []),
      seq(|shape.chapters|, k requires 0 <= k < |shape.chapters| => GroupAt(shape, k)),
      [],
      seq(|shape.pictures|, k requires 0 <= k < |shape.pictures| => PictureAt(shape, k)),
      [], [])
  }

  function WithCues(groups: seq<Group>, overlays: seq<Overlay>, chapters: seq<string>): seq<Group> {
    seq(|groups|, k requires 0 <= k < |groups| => groups[k].(cues := CuesFor(overlays, chapters, k)))
  }

  /** The document built from a run of events. */
  function Built(log: seq<Event>): Document {
    var shape := ShapeOf(log);
    var draft := Draft(shape);
    draft.(outline := Outline(TocOf(log), shape.chapters),
           groups := WithCues(draft.groups, OverlaysOf(log), shape.chapters))
  }
}
