/**
 * What the fold makes of each event, told from the events alone: which of them become
 * groups and pictures, in what order, with which fields, owners and cues.
 */
module FoldMeaning {
  import opened Documents
  import opened FoldSpec
  import opened Nav
  import opened Outcomes
  import opened Text

  // ----- Media types -----

  /** A media type of images: `image/` in any case, with space around it at will. */
  ghost predicate NamesImage(mediaType: string) {
    exists before, kind, rest :: mediaType == before + kind + rest && AllSpace(before) && SpellsImage(kind)
  }

  predicate SpellsImage(kind: string) {
    |kind| == 6 && forall k :: 0 <= k < 6 ==> kind[k] == "image/"[k] || kind[k] == "IMAGE/"[k]
  }

  lemma LoweredKind(kind: string)
    requires |kind| == 6
    ensures Lowered(kind) == "image/" <==> SpellsImage(kind)
  {
    assert Lowered(kind) == "image/" <==> forall k :: 0 <= k < 6 ==> Lower(kind[k]) == "image/"[k];
  }

  /** Trimming a text that starts with a word keeps the word. */
  lemma TrimKeepsHead(before: string, kind: string, rest: string)
    requires AllSpace(before) && kind != "" && !IsSpace(kind[0]) && !IsSpace(kind[|kind| - 1])
    ensures kind <= Trim(before + kind + rest)
  {
    assert before + kind + rest == before + (kind + rest);
    TrimStartSkips(before, kind + rest);
    assert (kind + rest)[0] == kind[0];
    EndKeepsHead(kind, rest);
  }

  lemma {:induction false} EndKeepsHead(kind: string, rest: string)
    requires kind != "" && !IsSpace(kind[|kind| - 1])
    ensures kind <= TrimEnd(kind + rest)
    decreases |rest|
  {
    if rest == "" {
      assert kind + rest == kind;
    } else {
      assert (kind + rest)[..|kind + rest| - 1] == kind + rest[..|rest| - 1];
      EndKeepsHead(kind, rest[..|rest| - 1]);
    }
  }

  lemma ImageExactlyWhen(mediaType: string)
    ensures IsImage(mediaType) <==> NamesImage(mediaType)
  {
    if IsImage(mediaType) {
      var before, after := TrimIsPadding(mediaType);
      var trimmed := Trim(mediaType);
      LoweredKind(trimmed[..6]);
      assert mediaType == before + trimmed[..6] + (trimmed[6..] + after);
    }
    forall before, kind, rest | mediaType == before + kind + rest && AllSpace(before) && SpellsImage(kind)
      ensures IsImage(mediaType)
    {
      TrimKeepsHead(before, kind, rest);
      assert Trim(mediaType)[..6] == kind;
      LoweredKind(kind);
    }
  }

  // ----- Counting events -----

  /** An event that a picture is made of: an image resource, or a chapter that is an image. */
  ghost predicate IsDrawn(event: Event) {
    (event.Resource? && event.image) || (event.Chapter? && NamesImage(event.mediaType))
  }

  /** An event whose item the body lists: a chapter's group, or an image resource's picture. */
  predicate IsListed(event: Event) {
    event.Chapter? || (event.Resource? && event.image)
  }

  ghost function Drawn(log: seq<Event>, n: nat): nat
    requires n <= |log|
  {
    if n == 0 then 0 else Drawn(log, n - 1) + if IsDrawn(log[n - 1]) then 1 else 0
  }

  function Chapters(log: seq<Event>, n: nat): nat
    requires n <= |log|
  {
    if n == 0 then 0 else Chapters(log, n - 1) + if log[n - 1].Chapter? then 1 else 0
  }

  function Listed(log: seq<Event>, n: nat): nat
    requires n <= |log|
  {
    if n == 0 then 0 else Listed(log, n - 1) + if IsListed(log[n - 1]) then 1 else 0
  }

  /** The last information event before event `i` names this cover. */
  ghost predicate CoverNamed(log: seq<Event>, i: nat, href: string)
    requires i <= |log|
  {
    href != "" && exists j :: 0 <= j < i && log[j] == Info(href) && forall l :: j < l < i ==> !log[l].Info?
  }

  lemma {:induction false} CoverIsLast(log: seq<Event>, i: nat, href: string)
    requires i <= |log|
    ensures IsCover(CoverOf(log[..i]), href) <==> CoverNamed(log, i, href)
    decreases i
  {
    if i > 0 {
      assert log[..i][..i - 1] == log[..i - 1];
      CoverIsLast(log, i - 1, href);
      if log[i - 1].Info? {
        assert IsCover(CoverOf(log[..i]), href) <==> href != "" && log[i - 1] == Info(href);
      } else if CoverNamed(log, i - 1, href) {
        var j :| 0 <= j < i - 1 && log[j] == Info(href) && forall l :: j < l < i - 1 ==> !log[l].Info?;
        assert forall l :: j < l < i ==> !log[l].Info?;
      }
    }
  }

  // ----- One event more -----

  lemma ShapeNext(log: seq<Event>, i: nat)
    requires i < |log|
    ensures ShapeOf(log[..i + 1]) == Grown(ShapeOf(log[..i]), log[i], CoverOf(log[..i]))
  {
    assert log[..i + 1][..i] == log[..i];
  }

  lemma {:induction false} ShapeCounts(log: seq<Event>, i: nat)
    requires i <= |log|
    ensures var shape := ShapeOf(log[..i]);
            |shape.pictures| == Drawn(log, i) && |shape.chapters| == Chapters(log, i) && |shape.body| == Listed(log, i)
  {
    if i > 0 {
      ShapeCounts(log, i - 1);
      ShapeNext(log, i - 1);
      if log[i - 1].Chapter? {
        ImageExactlyWhen(log[i - 1].mediaType);
      }
    }
  }

  /** What is there once `i` events have been consumed stays, at its place. */
  lemma {:induction false} ShapeStays(log: seq<Event>, i: nat, n: nat)
    requires i <= n <= |log|
    ensures var before, shape := ShapeOf(log[..i]), ShapeOf(log[..n]);
            before.pictures <= shape.pictures && before.chapters <= shape.chapters && before.body <= shape.body
    decreases n
  {
    if i < n {
      ShapeStays(log, i, n - 1);
      ShapeNext(log, n - 1);
    }
  }

  /** The pictures, chapters and listed items that one event adds, in the shape of the whole run. */
  lemma AddedBy(log: seq<Event>, i: nat)
    requires i < |log|
    ensures var before, shape, event := ShapeOf(log[..i]), ShapeOf(log), log[i];
            var p, c, l := |before.pictures|, |before.chapters|, |before.body|;
            var cover := CoverOf(log[..i]);
            && (event.Resource? && event.image ==>
                  p < |shape.pictures| && shape.pictures[p] == Pic(None, event.href, event.id, event.mediaType, IsCover(cover, event.href))
                  && l < |shape.body| && shape.body[l] == PictureRef(p))
            && (event.Chapter? ==>
                  c < |shape.chapters| && shape.chapters[c] == event.href && l < |shape.body| && shape.body[l] == GroupRef(c))
            && (event.Chapter? && IsImage(event.mediaType) ==>
                  p < |shape.pictures|
                  && shape.pictures[p] == Pic(Some(c), event.href, event.idref, event.mediaType, IsCover(cover, event.href)))
  {
    ShapeNext(log, i);
    ShapeStays(log, i + 1, |log|);
    assert log[..|log|] == log;
  }

  // ----- Pictures -----

  /** The picture that an event is made into: its place, its file, its owner and whether it is the cover. */
  ghost predicate Depicts(log: seq<Event>, i: nat, picture: Picture)
    requires i < |log|
  {
    var event := log[i];
    && picture.item.selfRef == "#/pictures/" + Decimal(Drawn(log, i)) && picture.item.children == []
    && (event.Resource? ==>
          picture.href == event.href && picture.manifestId == event.id && picture.mediaType == event.mediaType
          && picture.item.parent == Some("#/body") && (picture.cover <==> CoverNamed(log, i, event.href)))
    && (event.Chapter? ==>
          picture.href == event.href && picture.manifestId == event.idref && picture.mediaType == event.mediaType
          && picture.item.parent == Some("#/groups/" + Decimal(Chapters(log, i))) && (picture.cover <==> CoverNamed(log, i, event.href)))
  }

  /**
   * The pictures of a document are, in order, one for each image resource and each chapter
   * that is an image, with that event's own fields, the body or its own chapter's group as
   * parent, and the cover where the last information event before it says so; no other
   * event makes one.
   */
  lemma PicturesAreDrawn(log: seq<Event>)
    ensures |Built(log).pictures| == Drawn(log, |log|)
    ensures forall i :: 0 <= i < |log| && IsDrawn(log[i]) ==>
              Drawn(log, i) < |Built(log).pictures| && Depicts(log, i, Built(log).pictures[Drawn(log, i)])
  {
    ShapeCounts(log, |log|);
    assert log[..|log|] == log;
    forall i | 0 <= i < |log| && IsDrawn(log[i])
      ensures Drawn(log, i) < |Built(log).pictures| && Depicts(log, i, Built(log).pictures[Drawn(log, i)])
    {
      PictureIsDrawn(log, i);
    }
  }

  lemma PictureIsDrawn(log: seq<Event>, i: nat)
    requires i < |log| && IsDrawn(log[i])
    ensures Drawn(log, i) < |Built(log).pictures| && Depicts(log, i, Built(log).pictures[Drawn(log, i)])
  {
    ShapeCounts(log, i);
    AddedBy(log, i);
    CoverIsLast(log, i, log[i].href);
    if log[i].Chapter? {
      ImageExactlyWhen(log[i].mediaType);
    }
  }

  // ----- Groups -----

  /** Chapter `i` is the last of the run with its path. */
  predicate LastOfPath(log: seq<Event>, i: nat)
    requires i < |log| && log[i].Chapter?
  {
    forall j :: i < j < |log| && log[j].Chapter? ==> log[j].href != log[i].href
  }

  /** The last overlay of the run for this path has these cues. */
  predicate LastCues(log: seq<Event>, j: nat, path: string, cues: string) {
    && j < |log| && log[j] == MediaOverlay(Overlay(path, cues))
    && forall l :: j < l < |log| && log[l].MediaOverlay? ==> log[l].overlay.chapter != path
  }

  /** The group that a chapter is made into. */
  ghost predicate Collects(log: seq<Event>, i: nat, group: Group)
    requires i < |log| && log[i].Chapter?
  {
    && group.name == log[i].href
    && group.item.selfRef == "#/groups/" + Decimal(Chapters(log, i)) && group.item.parent == Some("#/body")
    && group.item.children == (if NamesImage(log[i].mediaType) then ["#/pictures/" + Decimal(Drawn(log, i))] else [])
    && (!LastOfPath(log, i) || (forall j: nat, cues :: !LastCues(log, j, log[i].href, cues)) ==> group.cues == None)
    && (LastOfPath(log, i) ==> forall j: nat, cues :: LastCues(log, j, log[i].href, cues) ==> group.cues == Some(cues))
  }

  lemma OwnedAtFirst(log: seq<Event>, i: nat)
    requires i < |log| && log[i].Chapter?
    ensures OwnedBy(ShapeOf(log[..i + 1]).pictures, Chapters(log, i))
            == if NamesImage(log[i].mediaType) then [PictureRef(Drawn(log, i))] else []
  {
    ShapeNext(log, i);
    ShapeCounts(log, i);
    ImageExactlyWhen(log[i].mediaType);
    NotYetOwned(log, i, Chapters(log, i));
    OwnedNext(ShapeOf(log[..i]).pictures, ShapeOf(log[..i + 1]).pictures, Chapters(log, i));
  }

  /** No later event gives a group a picture. */
  lemma OwnedNoMore(log: seq<Event>, n: nat, k: nat)
    requires n < |log| && k < Chapters(log, n)
    ensures OwnedBy(ShapeOf(log[..n + 1]).pictures, k) == OwnedBy(ShapeOf(log[..n]).pictures, k)
  {
    ShapeNext(log, n);
    ShapeCounts(log, n);
    OwnedNext(ShapeOf(log[..n]).pictures, ShapeOf(log[..n + 1]).pictures, k);
  }

  lemma {:induction false} OwnedOnlyByItself(log: seq<Event>, i: nat, n: nat, pictures: seq<Pic>, k: nat, own: seq<Ref>)
    requires i < n <= |log| && log[i].Chapter? && pictures == ShapeOf(log[..n]).pictures && k == Chapters(log, i)
    requires own == if NamesImage(log[i].mediaType) then [PictureRef(Drawn(log, i))] else []
    ensures OwnedBy(pictures, k) == own
    decreases n
  {
    if n == i + 1 {
      OwnedAtFirst(log, i);
    } else {
      var before := ShapeOf(log[..n - 1]).pictures;
      OwnedOnlyByItself(log, i, n - 1, before, k, own);
      ChaptersGrow(log, i + 1, n - 1);
      OwnedNoMore(log, n - 1, k);
    }
  }

  lemma {:induction false} ChaptersGrow(log: seq<Event>, i: nat, n: nat)
    requires i <= n <= |log|
    ensures Chapters(log, i) <= Chapters(log, n)
    decreases n
  {
    if i < n {
      ChaptersGrow(log, i, n - 1);
    }
  }

  /** Before its chapter, nothing is owned by a group. */
  lemma {:induction false} NotYetOwned(log: seq<Event>, i: nat, k: nat)
    requires i <= |log| && k >= Chapters(log, i)
    ensures OwnedBy(ShapeOf(log[..i]).pictures, k) == []
  {
    if i > 0 {
      NotYetOwned(log, i - 1, k);
      ShapeNext(log, i - 1);
      ShapeCounts(log, i - 1);
      OwnedNext(ShapeOf(log[..i - 1]).pictures, ShapeOf(log[..i]).pictures, k);
    }
  }

  lemma OwnedNext(before: seq<Pic>, after: seq<Pic>, k: nat)
    requires before <= after && |after| <= |before| + 1
    ensures OwnedBy(after, k)
            == OwnedBy(before, k)
               + if |after| > |before| && after[|before|].owner == Some(k) then [PictureRef(|before|)] else []
  {
    if |after| > |before| {
      assert after[..|after| - 1] == before;
    } else {
      assert after == before && OwnedBy(before, k) + [] == OwnedBy(before, k);
    }
  }

  // ----- Cues -----

  lemma NamedPlus(chapters: seq<string>, href: string, path: string)
    ensures ChapterNamed(chapters + [href], path) == if href == path then Some(|chapters|) else ChapterNamed(chapters, path)
  {
    assert (chapters + [href])[..|chapters|] == chapters;
  }

  /** The chapter found under a path, once one more event has been consumed. */
  lemma NamedNext(log: seq<Event>, n: nat, path: string)
    requires n < |log|
    ensures ChapterNamed(ShapeOf(log[..n + 1]).chapters, path)
            == if log[n].Chapter? && log[n].href == path then Some(Chapters(log, n)) else ChapterNamed(ShapeOf(log[..n]).chapters, path)
  {
    ShapeNext(log, n);
    ShapeCounts(log, n);
    if log[n].Chapter? {
      NamedPlus(ShapeOf(log[..n]).chapters, log[n].href, path);
    }
  }

  /** Chapter `i` is the last with its path among the first `n` events. */
  predicate LastOfPathBefore(log: seq<Event>, i: nat, n: nat)
    requires i < n <= |log| && log[i].Chapter?
  {
    forall j :: i < j < n && log[j].Chapter? ==> log[j].href != log[i].href
  }

  lemma LastOfPathNext(log: seq<Event>, i: nat, n: nat)
    requires i < n < |log| && log[i].Chapter?
    ensures LastOfPathBefore(log, i, n + 1)
            <==> LastOfPathBefore(log, i, n) && !(log[n].Chapter? && log[n].href == log[i].href)
  {
  }

  lemma ChaptersPassed(log: seq<Event>, i: nat, n: nat)
    requires i < n <= |log| && log[i].Chapter?
    ensures Chapters(log, i) < Chapters(log, n)
  {
    ChaptersGrow(log, i + 1, n);
  }

  lemma {:induction false} ChapterIsLast(log: seq<Event>, i: nat, n: nat, found: Option<nat>)
    requires i < n <= |log| && log[i].Chapter? && found == ChapterNamed(ShapeOf(log[..n]).chapters, log[i].href)
    ensures found == Some(Chapters(log, i)) <==> LastOfPathBefore(log, i, n)
    decreases n
  {
    var path, last := log[i].href, n - 1;
    NamedNext(log, last, path);
    if last > i {
      ChaptersPassed(log, i, last);
      LastOfPathNext(log, i, last);
      ChapterIsLast(log, i, last, ChapterNamed(ShapeOf(log[..last]).chapters, path));
    }
  }

  /** The last overlay of a path among the first `n` events. */
  predicate LastCuesBefore(log: seq<Event>, n: nat, j: nat, path: string, cues: string)
    requires n <= |log|
  {
    && j < n && log[j] == MediaOverlay(Overlay(path, cues))
    && forall l :: j < l < n && log[l].MediaOverlay? ==> log[l].overlay.chapter != path
  }

  lemma NoCuesYet(log: seq<Event>, before: nat, n: nat, path: string)
    requires n == before + 1 <= |log| && (forall j: nat, cues :: !LastCuesBefore(log, n, j, path, cues))
    requires !(log[before].MediaOverlay? && log[before].overlay.chapter == path)
    ensures forall j: nat, cues :: !LastCuesBefore(log, before, j, path, cues)
  {
    if j: nat, cues :| LastCuesBefore(log, before, j, path, cues) {
      assert LastCuesBefore(log, n, j, path, cues);
    }
  }

  lemma {:induction false} CuesAreLast(log: seq<Event>, n: nat, chapters: seq<string>, path: string, k: nat)
    requires n <= |log| && k < |chapters| && chapters[k] == path
    ensures ChapterNamed(chapters, path) != Some(k) ==> CuesFor(OverlaysOf(log[..n]), chapters, k) == None
    ensures ChapterNamed(chapters, path) == Some(k) ==>
              (forall j: nat, cues :: LastCuesBefore(log, n, j, path, cues) ==> CuesFor(OverlaysOf(log[..n]), chapters, k) == Some(cues))
              && ((forall j: nat, cues :: !LastCuesBefore(log, n, j, path, cues)) ==> CuesFor(OverlaysOf(log[..n]), chapters, k) == None)
    decreases n
  {
    if n > 0 {
      CuesAreLast(log, n - 1, chapters, path, k);
      CuesNext(log, n, chapters, path, k);
      if log[n - 1].MediaOverlay? && log[n - 1].overlay.chapter == path {
        assert LastCuesBefore(log, n, n - 1, path, log[n - 1].overlay.cues);
      } else if forall j: nat, cues :: !LastCuesBefore(log, n, j, path, cues) {
        NoCuesYet(log, n - 1, n, path);
      }
    }
  }

  lemma CuesNext(log: seq<Event>, n: nat, chapters: seq<string>, path: string, k: nat)
    requires 0 < n <= |log| && k < |chapters| && chapters[k] == path
    ensures var last := log[n - 1];
            CuesFor(OverlaysOf(log[..n]), chapters, k)
            == if last.MediaOverlay? && last.overlay.chapter == path && ChapterNamed(chapters, path) == Some(k) then Some(last.overlay.cues)
               else CuesFor(OverlaysOf(log[..n - 1]), chapters, k)
    ensures forall j: nat, cues ::
              LastCuesBefore(log, n, j, path, cues)
              <==> if log[n - 1].MediaOverlay? && log[n - 1].overlay.chapter == path then j == n - 1 && cues == log[n - 1].overlay.cues
                   else LastCuesBefore(log, n - 1, j, path, cues)
  {
    var before, last := OverlaysOf(log[..n - 1]), log[n - 1];
    assert log[..n][..n - 1] == log[..n - 1];
    if last.MediaOverlay? {
      assert (before + [last.overlay])[..|before|] == before;
    } else {
      assert before + [] == before;
    }
  }

  // ----- The document -----

  lemma GroupIsCollected(log: seq<Event>, i: nat)
    requires i < |log| && log[i].Chapter?
    ensures Chapters(log, i) < |Built(log).groups| && Collects(log, i, Built(log).groups[Chapters(log, i)])
  {
    var chapters, k := ShapeOf(log).chapters, Chapters(log, i);
    assert log[..|log|] == log;
    ShapeCounts(log, i);
    AddedBy(log, i);
    OwnedOnlyByItself(log, i, |log|, ShapeOf(log).pictures, k, if NamesImage(log[i].mediaType) then [PictureRef(Drawn(log, i))] else []);
    ChapterIsLast(log, i, |log|, ChapterNamed(chapters, log[i].href));
    CuesAreLast(log, |log|, chapters, log[i].href, k);
    CuesBeforeTheEnd(log, log[i].href);
    NamesOfOne(OwnedBy(ShapeOf(log).pictures, k));
  }

  lemma CuesBeforeTheEnd(log: seq<Event>, path: string)
    ensures forall j: nat, cues :: LastCues(log, j, path, cues) <==> LastCuesBefore(log, |log|, j, path, cues)
  {
  }

  lemma NamesOfOne(refs: seq<Ref>)
    requires |refs| <= 1
    ensures Names(refs) == if refs == [] then [] else [Name(refs[0])]
  {
  }

  /**
   * The groups of a document are, in order, one for each chapter, named by its path, under
   * the body, with its own picture if it is an image, and with the cues of the last overlay
   * of its path if it is the last chapter of that path.
   */
  lemma GroupsAreChapters(log: seq<Event>)
    ensures |Built(log).groups| == Chapters(log, |log|)
    ensures forall i :: 0 <= i < |log| && log[i].Chapter? ==>
              Chapters(log, i) < |Built(log).groups| && Collects(log, i, Built(log).groups[Chapters(log, i)])
  {
    ShapeCounts(log, |log|);
    assert log[..|log|] == log;
    forall i | 0 <= i < |log| && log[i].Chapter?
      ensures Chapters(log, i) < |Built(log).groups| && Collects(log, i, Built(log).groups[Chapters(log, i)])
    {
      GroupIsCollected(log, i);
    }
  }

  /** The reference of the item that the body lists for an event. */
  ghost function ListedRef(log: seq<Event>, i: nat): string
    requires i < |log|
  {
    if log[i].Chapter? then "#/groups/" + Decimal(Chapters(log, i)) else "#/pictures/" + Decimal(Drawn(log, i))
  }

  lemma ListedInBody(log: seq<Event>, i: nat)
    requires i < |log| && IsListed(log[i])
    ensures Listed(log, i) < |ShapeOf(log).body| && Name(ShapeOf(log).body[Listed(log, i)]) == ListedRef(log, i)
  {
    ShapeCounts(log, i);
    AddedBy(log, i);
  }

  lemma BodyOf(log: seq<Event>)
    ensures Built(log).body == Some(Group(Item("#/body", None, Names(ShapeOf(log).body)), "", None))
    ensures Built(log).furniture == Some(Group(Item("#/furniture", None, []), "", None))
    ensures Built(log).texts == [] && Built(log).tables == []
  {
    assert Names([]) == [];
  }

  /**
   * The body lists, in the order of the events, each chapter's group and each image
   * resource's picture, and nothing else; no text or table is made, and nothing of the furniture.
   */
  lemma BodyIsInOrder(log: seq<Event>) returns (children: seq<string>)
    ensures Built(log).body == Some(Group(Item("#/body", None, children), "", None))
    ensures |children| == Listed(log, |log|)
    ensures forall i :: 0 <= i < |log| && IsListed(log[i]) ==>
              Listed(log, i) < |children| && children[Listed(log, i)] == ListedRef(log, i)
    ensures Built(log).furniture == Some(Group(Item("#/furniture", None, []), "", None))
    ensures Built(log).texts == [] && Built(log).tables == []
  {
    children := Names(ShapeOf(log).body);
    ShapeCounts(log, |log|);
    assert log[..|log|] == log;
    BodyOf(log);
    forall i | 0 <= i < |log| && IsListed(log[i])
      ensures Listed(log, i) < |children| && children[Listed(log, i)] == ListedRef(log, i)
    {
      ListedInBody(log, i);
    }
  }

  // ----- The outline -----

  /** Event `i` is the last table of contents of the run. */
  predicate LastToc(log: seq<Event>, i: nat) {
    i < |log| && log[i].Navigation? && forall j :: i < j < |log| ==> !log[j].Navigation?
  }

  lemma {:induction false} TocIsLast(log: seq<Event>, i: nat)
    ensures LastToc(log, i) ==> TocOf(log) == log[i].toc
    ensures (forall j :: 0 <= j < |log| ==> !log[j].Navigation?) ==> TocOf(log) == []
    decreases |log|
  {
    if log != [] {
      TocIsLast(log[..|log| - 1], i);
    }
  }

  /** The outline has an entry for each entry of the last table of contents, with its title, in preorder; without one it is empty. */
  lemma OutlineIsOfTheLast(log: seq<Event>, i: nat)
    ensures LastToc(log, i) ==>
              |Built(log).outline| == |Flatten(log[i].toc)|
              && forall k :: 0 <= k < |Flatten(log[i].toc)| ==> Built(log).outline[k].title == Flatten(log[i].toc)[k].title
    ensures (forall j :: 0 <= j < |log| ==> !log[j].Navigation?) ==> Built(log).outline == []
  {
    TocIsLast(log, i);
  }
}
