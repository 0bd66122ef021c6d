/** Books that a call reads twice over: the two ways in which a file is inflated more than once, with an input for each. */
module Rereading {
  import opened Archive
  import opened Manifest
  import opened Outcomes
  import opened Passes
  import opened ReadAhead

  // ----- A file named twice in the spine -----

  /** Two places of a sequence with one value. */
  lemma SeenTwice(s: seq<nat>, i: nat, j: nat)
    requires i < j < |s| && s[i] == s[j]
    ensures !NoRepeats(s)
  {
    CountOfPart(s, i, s[i]);
    assert s[i..][j - i] == s[j];
    CountFrom(s, i, s[i]);
    assert s[i + 1..][j - i - 1] == s[j];
    assert s[j] in s[i + 1..];
  }

  lemma CountOfPart(s: seq<nat>, i: nat, e: nat)
    requires i <= |s|
    ensures multiset(s)[e] >= multiset(s[i..])[e]
  {
    assert s == s[..i] + s[i..];
  }

  /** A book whose package names one idref twice is prepared, and its chapter is inflated twice, whatever the options. */
  lemma RepeatedIdrefIsReadTwice(
      archive: seq<Entry>, items: seq<Item>, idrefs: seq<string>, tocIdref: string, obfuscated: set<nat>, readers: Readers,
      b: Book, o: Options, i: nat, j: nat)
    requires ValidBook(b) && Prepared(archive, items, idrefs, tocIdref, obfuscated, readers, b)
    requires i < j < |idrefs| && idrefs[i] == idrefs[j]
    ensures !NoRepeats(Requests(b, o))
  {
    assert b.spine[i] == b.spine[j];
    SeenTwice(ChapterSeq(b), i, j);
    AtMostOnceExactlyWhen(b, o);
  }

  // ----- A navigation document that is an overlay too -----

  /**
   * A navigation document of a kind that is not selected, named by an overlay link:
   * the navigation pass and the overlay pass each inflate it, for neither keeps what
   * the walk will not send.
   */
  lemma UnsentNavigationIsReadTwice(b: Book, o: Options, k: nat)
    requires ValidBook(b) && o.parseNavigation && o.parseOverlays
    requires b.nav.Some? && b.nav.value.entry !in WillEmit(b)
    requires k < |b.links| && b.items[b.links[k].1].entry == Some(b.nav.value.entry)
    ensures !NoRepeats(Requests(b, o))
  {
    assert OverlaysAsked(b, o)[k] == Some(b.nav.value.entry);
    assert b.nav.value.entry in EntriesFrom(OverlaysAsked(b, o), 0);
    AtMostOnceExactlyWhen(b, o);
  }

  /** A navigation document in chapter markup is sent, unless it looks like an archive or is listed as obfuscated. */
  lemma MarkupNavigationIsSent(
      archive: seq<Entry>, items: seq<Item>, spine: seq<SpineSlot>, tocIdref: string, obfuscated: set<nat>, readers: Readers,
      b: Book)
    requires ValidSpine(items, spine) && b == BookOf(archive, items, spine, tocIdref, obfuscated, readers)
    requires ValidBook(b) && Classified(items) && b.nav.Some?
    requires var item := items[b.nav.value.position]; item.markup && !item.nested
    requires b.nav.value.entry !in obfuscated
    ensures b.nav.value.entry in WillEmit(b)
  {
    FatesOfOneFile(items, spine, obfuscated, b.nav.value.entry);
    assert items[b.nav.value.position].entry == Some(b.nav.value.entry);
    assert FateOf(items, spine, obfuscated, b.nav.value.position) != Skipped;
  }

  // ----- Inputs -----

  /** A chapter, and its overlay, a SMIL file that no option but that for everything selects and that has the navigation property. */
  function TheItems(): (items: seq<Item>)
    ensures Classified(items)
  {
    [Item("c", "c.xhtml", Some(0), false, false, true, false, true, false, "", "n"),
     Item("n", "n.smil", Some(1), false, false, false, false, false, true, "", "")]
  }

  lemma ChapterResolves()
    ensures ById(TheItems(), "c") == Some(0) && ById(TheItems(), "n") == Some(1) && ById(TheItems(), "") == None
    ensures ResolveRef(TheItems(), "c", {}) == Ok(SpineSlot(0, 0, "c"))
  {
    var items := TheItems();
    assert NextInChain(items, [0]) == None;
    assert Chain(items, [0]) == [0];
    assert Suits(items, 0, true);
    assert FirstSuited(items, [0], true) == Some(0);
  }

  lemma TheLinks()
    ensures NavigationSource(TheItems(), "") == Some(NavSource(1, 1, false))
    ensures OverlayLinks(TheItems(), 2) == [(0, 1)]
  {
    ChapterResolves();
    var items := TheItems();
    assert FirstNav(items) == Some(1);
    assert OverlayLinks(items, 0) == [];
    assert OverlayLinks(items, 1) == [(0, 1)];
  }

  lemma TheBookIsPrepared(archive: seq<Entry>, readers: Readers, n: nat) returns (b: Book)
    requires Indexed(archive, TheItems())
    ensures ValidBook(b) && Prepared(archive, TheItems(), seq(n, _ => "c"), "", {}, readers, b)
    ensures b.spine == seq(n, _ => SpineSlot(0, 0, "c"))
  {
    ChapterResolves();
    var spine := seq(n, _ => SpineSlot(0, 0, "c"));
    b := BookOf(archive, TheItems(), spine, "", {}, readers);
    BookIsValid(archive, TheItems(), spine, "", {}, readers);
  }

  /** A book that is prepared and names its one chapter twice. */
  lemma BookWithARepeat(archive: seq<Entry>, readers: Readers) returns (b: Book)
    requires Indexed(archive, TheItems())
    ensures Classified(TheItems())
    ensures ValidBook(b) && Prepared(archive, TheItems(), ["c", "c"], "", {}, readers, b)
    ensures forall o :: !NoRepeats(Requests(b, o))
  {
    b := TheBookIsPrepared(archive, readers, 2);
    assert seq(2, _ => "c") == ["c", "c"];
    forall o ensures !NoRepeats(Requests(b, o)) {
      RepeatedIdrefIsReadTwice(archive, TheItems(), ["c", "c"], "", {}, readers, b, o, 0, 1);
    }
  }

  /** A book that is prepared, names no file twice, and yet has its navigation document inflated twice. */
  lemma BookWithNarratedNavigation(archive: seq<Entry>, readers: Readers) returns (b: Book)
    requires Indexed(archive, TheItems())
    ensures Classified(TheItems())
    ensures ValidBook(b) && Prepared(archive, TheItems(), ["c"], "", {}, readers, b)
    ensures NoRepeats(ChapterSeq(b)) && !NoRepeats(Requests(b, Options(true, true)))
  {
    b := TheBookIsPrepared(archive, readers, 1);
    assert seq(1, _ => "c") == ["c"];
    assert b.spine == [SpineSlot(0, 0, "c")];
    NavigationIsUnsent(b);
    assert ChapterSeq(b) == [0];
    UnsentNavigationIsReadTwice(b, Options(true, true), 0);
  }

  lemma NavigationIsUnsent(b: Book)
    requires ValidBook(b) && b.spine == [SpineSlot(0, 0, "c")]
    requires b == BookOf(b.archive, TheItems(), b.spine, "", {}, b.readers)
    ensures b.nav.Some? && b.nav.value.entry == 1 && 1 !in WillEmit(b) && b.links == [(0, 1)]
  {
    TheLinks();
    NavigationIsNotSent(b.pending, b.spine);
  }

  lemma NavigationIsNotSent(pending: seq<Pending>, spine: seq<SpineSlot>)
    requires spine == [SpineSlot(0, 0, "c")] && pending == PlannedResources(TheItems(), spine, {})
    ensures forall q :: 0 <= q < |pending| ==> pending[q].entry != 1
    ensures ChapterEntries(TheItems(), spine) == {0}
  {
    PlanIsExact(TheItems(), spine, {});
    forall q | 0 <= q < |pending| ensures pending[q].entry != 1 {
      assert pending[q] in pending;
      assert FirstNaming(TheItems(), spine, {}, pending[q]);
    }
    assert ChapterEntries(TheItems(), spine) == {ChapterEntry(TheItems(), spine[0])};
  }
}
