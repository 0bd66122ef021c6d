/**
 * Refinements may come before or after what they refine: what a metadata block
 * means depends on the order of its entries, and on the order of the refinements
 * of each identifier, and on nothing else.
 */
module Refinements {
  import opened Outcomes
  import opened Package
  import opened Text
  import opened Xml

  // ----- Attaching -----

  /** The refinements of one identifier, in order. */
  function Naming(refinements: seq<(string, Refinement)>, id: string): seq<Refinement> {
    if refinements == [] then []
    else
      var last := refinements[|refinements| - 1];
      Naming(refinements[..|refinements| - 1], id) + (if last.0 == id then [last.1] else [])
  }

  /** What an entry is given: everything naming its identifier, unless an earlier entry has the same one. */
  function Given(entries: seq<MetaEntry>, refinements: seq<(string, Refinement)>, i: nat): seq<Refinement>
    requires i < |entries|
  {
    if FirstWithId(entries, entries[i].id) == Some(i) then Naming(refinements, entries[i].id) else []
  }

  ghost predicate SameIds(a: seq<MetaEntry>, b: seq<MetaEntry>) {
    |a| == |b| && forall i :: 0 <= i < |a| ==> a[i].id == b[i].id
  }

  lemma FirstByIdsAlone(a: seq<MetaEntry>, b: seq<MetaEntry>, id: string)
    requires SameIds(a, b)
    ensures FirstWithId(a, id) == FirstWithId(b, id)
  {
    var i, j := FirstWithId(a, id), FirstWithId(b, id);
    assert i.Some? ==> b[i.value].id == id;
    assert j.Some? ==> a[j.value].id == id;
  }

  /** Every entry ends with its own refinements followed by exactly those that name it, in order. */
  lemma {:induction false} AttachedByName(entries: seq<MetaEntry>, refinements: seq<(string, Refinement)>)
    ensures var attached := Attached(entries, refinements);
            SameIds(attached, entries)
            && forall i :: 0 <= i < |entries| ==>
                 attached[i] == entries[i].(refinements := entries[i].refinements + Given(entries, refinements, i))
  {
    if refinements == [] {
      forall i | 0 <= i < |entries| ensures entries[i].refinements + [] == entries[i].refinements {
      }
    } else {
      var before, last := refinements[..|refinements| - 1], refinements[|refinements| - 1];
      AttachedByName(entries, before);
      FirstByIdsAlone(Attached(entries, before), entries, last.0);
      forall i | 0 <= i < |entries|
        ensures Attached(entries, refinements)[i]
                == entries[i].(refinements := entries[i].refinements + Given(entries, refinements, i))
      {
        AttachedNext(entries, before, last, i);
      }
    }
  }

  lemma NamingNext(before: seq<(string, Refinement)>, last: (string, Refinement), id: string)
    ensures Naming(before + [last], id) == Naming(before, id) + if last.0 == id then [last.1] else []
  {
    assert (before + [last])[..|before|] == before;
  }

  lemma GivenNext(entries: seq<MetaEntry>, before: seq<(string, Refinement)>, last: (string, Refinement), i: nat)
    requires i < |entries|
    ensures Given(entries, before + [last], i)
            == Given(entries, before, i) + if FirstWithId(entries, last.0) == Some(i) then [last.1] else []
  {
    NamingNext(before, last, entries[i].id);
    assert Naming(before, entries[i].id) + [] == Naming(before, entries[i].id);
  }

  lemma AttachedNext(entries: seq<MetaEntry>, before: seq<(string, Refinement)>, last: (string, Refinement), i: nat)
    requires i < |entries|
    requires SameIds(Attached(entries, before), entries)
    requires Attached(entries, before)[i] == entries[i].(refinements := entries[i].refinements + Given(entries, before, i))
    requires FirstWithId(Attached(entries, before), last.0) == FirstWithId(entries, last.0)
    ensures AttachedOne(Attached(entries, before), last.0, last.1)[i]
            == entries[i].(refinements := entries[i].refinements + Given(entries, before + [last], i))
  {
    GivenNext(entries, before, last, i);
    Associate(entries[i].refinements, Given(entries, before, i), last.1);
  }

  lemma Associate(a: seq<Refinement>, b: seq<Refinement>, last: Refinement)
    ensures a + b + [last] == a + (b + [last]) && a + (b + []) == a + b
  {
  }

  /** The same refinements in the same order for every identifier that an entry has. */
  ghost predicate SameFor(entries: seq<MetaEntry>, a: seq<(string, Refinement)>, b: seq<(string, Refinement)>) {
    forall i :: 0 <= i < |entries| ==> Naming(a, entries[i].id) == Naming(b, entries[i].id)
  }

  /** Only the order of the refinements of each entry's identifier matters. */
  lemma OrderByNameIsAll(entries: seq<MetaEntry>, a: seq<(string, Refinement)>, b: seq<(string, Refinement)>)
    requires SameFor(entries, a, b)
    ensures Attached(entries, a) == Attached(entries, b)
  {
    AttachedByName(entries, a);
    AttachedByName(entries, b);
    forall i | 0 <= i < |entries| ensures Given(entries, a, i) == Given(entries, b, i) {
      assert Naming(a, entries[i].id) == Naming(b, entries[i].id);
    }
  }

  lemma {:induction false} NamingPlus(a: seq<(string, Refinement)>, b: seq<(string, Refinement)>, id: string)
    ensures Naming(a + b, id) == Naming(a, id) + Naming(b, id)
    decreases |b|
  {
    if b == [] {
      assert a + b == a && Naming(a, id) + [] == Naming(a, id);
    } else {
      var rest, last := b[..|b| - 1], b[|b| - 1];
      assert (a + b)[..|a + b| - 1] == a + rest;
      NamingPlus(a, rest, id);
      var own := if last.0 == id then [last.1] else [];
      assert Naming(a, id) + Naming(rest, id) + own == Naming(a, id) + (Naming(rest, id) + own);
    }
  }

  /** A refinement that names no entry changes nothing, wherever it stands. */
  lemma {:induction false} StrayRefinementChangesNothing(
      entries: seq<MetaEntry>, a: seq<(string, Refinement)>, stray: (string, Refinement), b: seq<(string, Refinement)>)
    requires forall i :: 0 <= i < |entries| ==> entries[i].id != stray.0
    ensures Attached(entries, a + [stray] + b) == Attached(entries, a + b)
  {
    AttachedByName(entries, a + [stray] + b);
    AttachedByName(entries, a + b);
    forall i | 0 <= i < |entries| ensures Given(entries, a + [stray] + b, i) == Given(entries, a + b, i) {
      var id := entries[i].id;
      NamingPlus(a + [stray], b, id);
      NamingPlus(a, [stray], id);
      NamingPlus(a, b, id);
      assert [stray][..0] == [];
      assert Naming([stray], id) == [];
    }
  }

  /** An EPUB 2 attribute is read before any refinement, so it wins. */
  lemma {:induction false} FirstRefinementWins(own: seq<Refinement>, more: seq<Refinement>, property: string)
    ensures (exists i :: 0 <= i < |own| && own[i].property == property) ==>
              Refined(own + more, property) == Refined(own, property)
    ensures !(exists i :: 0 <= i < |own| && own[i].property == property) ==>
              Refined(own + more, property) == Refined(more, property)
  {
    if own == [] {
      assert own + more == more;
    } else {
      assert (own + more)[1..] == own[1..] + more;
      assert forall i :: 1 <= i < |own| ==> own[i] == own[1..][i - 1];
      FirstRefinementWins(own[1..], more, property);
    }
  }

  // ----- A metadata block -----

  /** One element of a metadata block, with its text and the markup in it, and what stands between it and the next. */
  datatype Meta = Meta(name: string, attrs: seq<Attr>, inside: seq<Event>, empty: bool, gap: seq<Event>)

  predicate IsGap(events: seq<Event>) {
    forall i :: 0 <= i < |events| ==> events[i].Text? || events[i].Other?
  }

  /** A name that means nothing in the metadata, and is not the one of the element around it. */
  predicate IsMarkup(name: string, around: string) {
    !IsDublinCore(name) && name != "meta" && name != around
  }

  /** Text and balanced markup inside an element, of which `level` elements are still open at its end. */
  predicate IsInside(events: seq<Event>, around: string, level: nat) {
    if events == [] then level == 0
    else
      var before := events[..|events| - 1];
      match events[|events| - 1]
      case Start(name, _) => level > 0 && IsMarkup(name, around) && IsInside(before, around, level - 1)
      case Empty(name, _) => IsMarkup(name, around) && IsInside(before, around, level)
      case End(name) => IsMarkup(name, around) && IsInside(before, around, level + 1)
      case _ => IsInside(before, around, level)
  }

  predicate AreMetas(metas: seq<Meta>) {
    forall i :: 0 <= i < |metas| ==> IsGap(metas[i].gap) && IsInside(metas[i].inside, metas[i].name, 0)
  }

  /** All text among the events, markup or no markup around it. */
  function TextIn(events: seq<Event>): string {
    if events == [] then ""
    else TextIn(events[..|events| - 1]) + if events[|events| - 1].Text? then events[|events| - 1].text else ""
  }

  function Element(meta: Meta): seq<Event> {
    if meta.empty then [Empty(meta.name, meta.attrs)]
    else [Start(meta.name, meta.attrs)] + meta.inside + [End(meta.name)]
  }

  function Print(metas: seq<Meta>): seq<Event> {
    if metas == [] then []
    else Print(metas[..|metas| - 1]) + (Element(metas[|metas| - 1]) + metas[|metas| - 1].gap)
  }

  function ValueOf(meta: Meta): string {
    if meta.empty then "" else Trim(TextIn(meta.inside))
  }

  /** The entry that an element is, before any refinement, if it is one. */
  function EntryOf(meta: Meta): seq<MetaEntry> {
    match Read(meta.name, meta.attrs)
    case Collects(pending) => if pending.target == "" then [pending.entry.(value := ValueOf(meta))] else []
    case _ => []
  }

  /** The refinement that an element is, with what it names, if it is one. */
  function RefinementOf(meta: Meta): seq<(string, Refinement)> {
    match Read(meta.name, meta.attrs)
    case Collects(pending) =>
      if pending.target == "" then []
      else [(pending.target, Refinement(pending.entry.element, ValueOf(meta), pending.entry.scheme))]
    case _ => []
  }

  /** The first cover named counts. */
  function CoverWith(meta: Meta, known: string): string {
    match Read(meta.name, meta.attrs)
    case Cover(content) => if known == "" then content else known
    case _ => known
  }

  function EntriesOf(metas: seq<Meta>): seq<MetaEntry> {
    if metas == [] then [] else EntriesOf(metas[..|metas| - 1]) + EntryOf(metas[|metas| - 1])
  }

  function RefinementsOf(metas: seq<Meta>): seq<(string, Refinement)> {
    if metas == [] then [] else RefinementsOf(metas[..|metas| - 1]) + RefinementOf(metas[|metas| - 1])
  }

  function CoverOf(metas: seq<Meta>, known: string): string {
    if metas == [] then known else CoverWith(metas[|metas| - 1], CoverOf(metas[..|metas| - 1], known))
  }

  /** The state with more entries and refinements filed. */
  function Adding(s: State, entries: seq<MetaEntry>, refinements: seq<(string, Refinement)>, cover: string): State {
    s.(entries := s.entries + entries, refinements := s.refinements + refinements, coverId := cover)
  }

  function AddingAll(s: State, metas: seq<Meta>): State {
    Adding(s, EntriesOf(metas), RefinementsOf(metas), CoverOf(metas, s.coverId))
  }

  function AddingOne(s: State, meta: Meta): State {
    Adding(s, EntryOf(meta), RefinementOf(meta), CoverWith(meta, s.coverId))
  }

  lemma FiledTwice(
      s: State, e: seq<MetaEntry>, r: seq<(string, Refinement)>, c: string,
      e': seq<MetaEntry>, r': seq<(string, Refinement)>, c': string)
    ensures Adding(Adding(s, e, r, c), e', r', c') == Adding(s, e + e', r + r', c')
  {
    assert s.entries + e + e' == s.entries + (e + e');
    assert s.refinements + r + r' == s.refinements + (r + r');
  }

  lemma {:induction false} RunPlus(s: State, a: seq<Event>, b: seq<Event>)
    ensures Run(s, a + b) == match Run(s, a) case Err(error) => Err(error) case Ok(t) => Run(t, b)
    decreases |b|
  {
    if b == [] {
      assert a + b == a;
    } else {
      assert (a + b)[..|a + b| - 1] == a + b[..|b| - 1];
      RunPlus(s, a, b[..|b| - 1]);
    }
  }

  lemma RunOne(s: State, event: Event)
    ensures Run(s, [event]) == Step(s, event)
  {
    assert [event][..0] == [];
    assert Run(s, []) == Ok(s);
  }

  /** Inside the metadata, between two elements. */
  ghost predicate Between(s: State) {
    s.sawPackage && s.section == Metadata && s.sectionDepth <= s.depth && s.collecting == None && s.text == ""
  }

  lemma {:induction false} GapRun(s: State, gap: seq<Event>)
    requires s.collecting == None && IsGap(gap)
    ensures Run(s, gap) == Ok(s)
  {
    if gap != [] {
      GapRun(s, gap[..|gap| - 1]);
    }
  }

  /** Inside an element of the metadata, whether it is collected or not. */
  ghost predicate Within(s: State, around: string) {
    s.sawPackage && s.section == Metadata && s.sectionDepth < s.depth && (s.collecting.None? || s.collecting.value.local == around)
  }

  /** Some levels further down, with more text collected if any is. */
  function Deeper(s: State, level: nat, text: string): State {
    s.(depth := s.depth + level, text := if s.collecting.Some? then s.text + text else s.text)
  }

  lemma InsideStep(s: State, around: string, level: nat, text: string, event: Event)
    requires Within(s, around)
    ensures event.Start? && IsMarkup(event.name, around) ==>
              Step(Deeper(s, level, text), event) == Ok(Deeper(s, level + 1, text))
    ensures event.Empty? && IsMarkup(event.name, around) ==> Step(Deeper(s, level, text), event) == Ok(Deeper(s, level, text))
    ensures event.End? && level > 0 && IsMarkup(event.name, around) ==>
              Step(Deeper(s, level, text), event) == Ok(Deeper(s, level - 1, text))
    ensures event.Text? ==> Step(Deeper(s, level, text), event) == Ok(Deeper(s, level, text + event.text))
    ensures event.Other? ==> Step(Deeper(s, level, text), event) == Ok(Deeper(s, level, text))
  {
    if event.Text? {
      assert s.text + text + event.text == s.text + (text + event.text);
    }
  }

  /** Markup inside an element is looked through: what it encloses is text like any other. */
  lemma {:induction false} InsideRun(s: State, events: seq<Event>, around: string, level: nat)
    requires Within(s, around) && IsInside(events, around, level)
    ensures Run(s, events) == Ok(Deeper(s, level, TextIn(events)))
    decreases |events|
  {
    if events == [] {
      assert s.text + "" == s.text;
    } else {
      var before, last := events[..|events| - 1], events[|events| - 1];
      var above := if last.Start? then level - 1 else if last.End? then level + 1 else level;
      InsideRun(s, before, around, above);
      InsideStep(s, around, above, TextIn(before), last);
      assert TextIn(before) + "" == TextIn(before);
    }
  }

  lemma FiledNothing(s: State)
    ensures Adding(s, [], [], s.coverId) == s
  {
    assert s.entries + [] == s.entries && s.refinements + [] == s.refinements;
  }

  /** Opening an element that is not collected, or storing one that is, files what the element is. */
  lemma ReadingIsFiled(s: State, meta: Meta)
    ensures match Read(meta.name, meta.attrs)
            case Collects(pending) => Stored(s, pending, ValueOf(meta)) == AddingOne(s, meta)
            case _ => OpenedMetadata(s, meta.name, meta.attrs, meta.empty) == AddingOne(s, meta)
  {
    assert s.entries + [] == s.entries && s.refinements + [] == s.refinements;
  }

  lemma EmptyElementRun(s: State, meta: Meta)
    requires Between(s) && meta.empty
    ensures Run(s, Element(meta)) == Ok(AddingOne(s, meta))
  {
    RunOne(s, Empty(meta.name, meta.attrs));
    ReadingIsFiled(s, meta);
    assert s.(text := "") == s;
  }

  lemma KeptElementRun(s: State, meta: Meta)
    requires IsInside(meta.inside, meta.name, 0)
    requires Between(s) && !meta.empty && Read(meta.name, meta.attrs).Collects?
    ensures Run(s, Element(meta)) == Ok(AddingOne(s, meta))
  {
    var start, inside, end := Start(meta.name, meta.attrs), meta.inside, End(meta.name);
    var pending := Read(meta.name, meta.attrs).pending;
    var s1 := s.(depth := s.depth + 1, collecting := Some(pending));
    var s2 := s1.(text := TextIn(meta.inside));
    RunOne(s, start);
    assert Step(s, start) == Ok(s1);
    InsideRun(s1, inside, meta.name, 0);
    assert s1.text + TextIn(meta.inside) == TextIn(meta.inside);
    RunOne(s2, end);
    KeptIsStored(s, meta, s2);
    RunPlus(s, [start], inside);
    RunPlus(s, [start] + inside, [end]);
  }

  lemma CollectedIsFiled(s: State, meta: Meta, collected: State)
    requires Between(s) && !meta.empty && Read(meta.name, meta.attrs).Collects?
    requires collected == s.(depth := s.depth + 1, collecting := Some(Read(meta.name, meta.attrs).pending), text := TextIn(meta.inside))
    ensures Filed(collected, meta.name) == Stored(s.(depth := s.depth + 1), Read(meta.name, meta.attrs).pending, ValueOf(meta))
  {
    assert collected.(collecting := None, text := "") == s.(depth := s.depth + 1);
  }

  lemma StoredDeeper(s: State, pending: Pending, value: string, depth: nat)
    ensures Stored(s.(depth := depth), pending, value) == Stored(s, pending, value).(depth := depth)
  {
  }

  lemma ClosedInside(s: State, name: string)
    requires s.sectionDepth < s.depth
    ensures Closed(s, name) == Filed(s, name).(section := s.section, depth := s.depth - 1)
  {
  }

  lemma KeptIsStored(s: State, meta: Meta, collected: State)
    requires Between(s) && !meta.empty && Read(meta.name, meta.attrs).Collects?
    requires collected == s.(depth := s.depth + 1, collecting := Some(Read(meta.name, meta.attrs).pending), text := TextIn(meta.inside))
    ensures Step(collected, End(meta.name)) == Ok(AddingOne(s, meta))
  {
    CollectedIsFiled(s, meta, collected);
    StoredDeeper(s, Read(meta.name, meta.attrs).pending, ValueOf(meta), s.depth + 1);
    ClosedInside(collected, meta.name);
    ReadingIsFiled(s, meta);
  }

  lemma OtherElementRun(s: State, meta: Meta)
    requires IsInside(meta.inside, meta.name, 0)
    requires Between(s) && !meta.empty && !Read(meta.name, meta.attrs).Collects?
    ensures Run(s, Element(meta)) == Ok(AddingOne(s, meta))
  {
    var start, inside, end := Start(meta.name, meta.attrs), meta.inside, End(meta.name);
    var s1 := AddingOne(s.(depth := s.depth + 1), meta);
    OtherStarts(s, meta);
    RunOne(s, start);
    InsideRun(s1, inside, meta.name, 0);
    RunOne(s1, end);
    RunPlus(s, [start], inside);
    RunPlus(s, [start] + inside, [end]);
  }

  lemma OtherStarts(s: State, meta: Meta)
    requires Between(s) && !meta.empty && !Read(meta.name, meta.attrs).Collects?
    ensures var s1 := AddingOne(s.(depth := s.depth + 1), meta);
            s1.collecting == None && Step(s, Start(meta.name, meta.attrs)) == Ok(s1)
            && Step(s1, End(meta.name)) == Ok(AddingOne(s, meta))
  {
    ReadingIsFiled(s.(depth := s.depth + 1), meta);
  }

  lemma ElementRun(s: State, meta: Meta)
    requires Between(s) && IsGap(meta.gap) && IsInside(meta.inside, meta.name, 0)
    ensures Run(s, Element(meta) + meta.gap) == Ok(AddingOne(s, meta)) && Between(AddingOne(s, meta))
  {
    if meta.empty {
      EmptyElementRun(s, meta);
    } else if Read(meta.name, meta.attrs).Collects? {
      KeptElementRun(s, meta);
    } else {
      OtherElementRun(s, meta);
    }
    GapRun(AddingOne(s, meta), meta.gap);
    RunPlus(s, Element(meta), meta.gap);
  }

  /** A printed block files its entries and its refinements, each in order. */
  lemma {:induction false} PrintRun(s: State, metas: seq<Meta>)
    requires Between(s) && AreMetas(metas)
    ensures Run(s, Print(metas)) == Ok(AddingAll(s, metas)) && Between(AddingAll(s, metas))
  {
    if metas == [] {
      FiledNothing(s);
    } else {
      var before, last := metas[..|metas| - 1], metas[|metas| - 1];
      var t := AddingAll(s, before);
      PrintRun(s, before);
      ElementRun(t, last);
      RunPlus(s, Print(before), Element(last) + last.gap);
      FiledTwice(s, EntriesOf(before), RefinementsOf(before), CoverOf(before, s.coverId),
                 EntryOf(last), RefinementOf(last), CoverOf(metas, s.coverId));
    }
  }

  function Block(attrs: seq<Attr>, gap: seq<Event>, metas: seq<Meta>): seq<Event> {
    [Start("metadata", attrs)] + gap + Print(metas) + [End("metadata")]
  }

  /** Inside the package, outside any section. */
  ghost predicate Idle(s: State) {
    s.sawPackage && s.section == Outside && s.collecting == None && s.text == ""
  }

  /** A metadata block files its entries and its refinements, and nothing else is left of it. */
  lemma BlockRun(s: State, attrs: seq<Attr>, gap: seq<Event>, metas: seq<Meta>)
    requires Idle(s) && IsGap(gap) && AreMetas(metas)
    ensures Run(s, Block(attrs, gap, metas)) == Ok(AddingAll(s.(sectionDepth := s.depth + 1), metas))
  {
    var start, end := Start("metadata", attrs), End("metadata");
    var s1 := s.(depth := s.depth + 1, section := Metadata, sectionDepth := s.depth + 1);
    EnterBlock(s, attrs);
    RunOne(s, start);
    GapRun(s1, gap);
    RunPlus(s, [start], gap);
    PrintRun(s1, metas);
    RunPlus(s, [start] + gap, Print(metas));
    LeaveBlock(s, metas);
    RunOne(AddingAll(s1, metas), end);
    RunPlus(s, [start] + gap + Print(metas), [end]);
  }

  lemma EnterBlock(s: State, attrs: seq<Attr>)
    requires Idle(s)
    ensures Step(s, Start("metadata", attrs))
            == Ok(s.(depth := s.depth + 1, section := Metadata, sectionDepth := s.depth + 1))
  {
  }

  lemma LeaveBlock(s: State, metas: seq<Meta>)
    requires Idle(s)
    ensures Step(AddingAll(s.(depth := s.depth + 1, section := Metadata, sectionDepth := s.depth + 1), metas), End("metadata"))
            == Ok(AddingAll(s.(sectionDepth := s.depth + 1), metas))
  {
  }

  // ----- Order -----

  /** The state with other refinements held before its own. */
  function Holding(s: State, held: seq<(string, Refinement)>): State {
    s.(refinements := held + s.refinements)
  }

  lemma StoredIgnoresHeld(s: State, held: seq<(string, Refinement)>, pending: Pending, value: string)
    ensures Stored(Holding(s, held), pending, value) == Holding(Stored(s, pending, value), held)
  {
    var added := [(pending.target, Refinement(pending.entry.element, value, pending.entry.scheme))];
    assert held + s.refinements + added == held + (s.refinements + added);
  }

  lemma MetadataIgnoresHeld(s: State, held: seq<(string, Refinement)>, name: string, attrs: seq<Attr>, empty: bool)
    ensures OpenedMetadata(Holding(s, held), name, attrs, empty) == Holding(OpenedMetadata(s, name, attrs, empty), held)
  {
    if Read(name, attrs).Collects? {
      StoredIgnoresHeld(s.(text := ""), held, Read(name, attrs).pending, "");
    }
  }

  lemma OpenIgnoresHeld(s: State, held: seq<(string, Refinement)>, name: string, attrs: seq<Attr>, empty: bool)
    ensures match Opened(s, name, attrs, empty)
            case Err(error) => Opened(Holding(s, held), name, attrs, empty) == Err(error)
            case Ok(t) => Opened(Holding(s, held), name, attrs, empty) == Ok(Holding(t, held))
  {
    if s.sawPackage && s.section == Metadata {
      MetadataIgnoresHeld(if empty then s else s.(depth := s.depth + 1), held, name, attrs, empty);
    } else {
      OutsideIgnoresHeld(s, held, name, attrs, empty);
    }
  }

  lemma OutsideIgnoresHeld(s: State, held: seq<(string, Refinement)>, name: string, attrs: seq<Attr>, empty: bool)
    requires !s.sawPackage || s.section != Metadata
    ensures match Opened(s, name, attrs, empty)
            case Err(error) => Opened(Holding(s, held), name, attrs, empty) == Err(error)
            case Ok(t) => Opened(Holding(s, held), name, attrs, empty) == Ok(Holding(t, held))
  {
  }

  lemma CloseIgnoresHeld(s: State, held: seq<(string, Refinement)>, name: string)
    ensures Closed(Holding(s, held), name) == Holding(Closed(s, name), held)
  {
    if s.collecting.Some? {
      StoredIgnoresHeld(s.(collecting := None, text := ""), held, s.collecting.value, Trim(s.text));
    }
  }

  lemma StepIgnoresHeld(s: State, held: seq<(string, Refinement)>, event: Event)
    ensures match Step(s, event)
            case Err(error) => Step(Holding(s, held), event) == Err(error)
            case Ok(t) => Step(Holding(s, held), event) == Ok(Holding(t, held))
  {
    match event {
      case Start(name, attrs) => OpenIgnoresHeld(s, held, name, attrs, false);
      case Empty(name, attrs) => OpenIgnoresHeld(s, held, name, attrs, true);
      case End(name) => CloseIgnoresHeld(s, held, name);
      case _ =>
    }
  }

  /** Nothing in a run looks at the refinements held so far. */
  lemma {:induction false} RunIgnoresHeld(s: State, held: seq<(string, Refinement)>, events: seq<Event>)
    ensures match Run(s, events)
            case Err(error) => Run(Holding(s, held), events) == Err(error)
            case Ok(t) => Run(Holding(s, held), events) == Ok(Holding(t, held))
  {
    if events != [] {
      var before, last := events[..|events| - 1], events[|events| - 1];
      RunIgnoresHeld(s, held, before);
      if Run(s, before).Ok? {
        StepIgnoresHeld(Run(s, before).value, held, last);
      }
    }
  }

  /** What is made of a run's end depends on the refinements held only by name, and only on those that name an entry. */
  lemma HeldOnlyByName(u: State, a: seq<(string, Refinement)>, b: seq<(string, Refinement)>, after: seq<Event>)
    requires u.refinements == []
    requires var made := Finished(Run(Holding(u, a), after)); made.Ok? ==> SameFor(made.value.entries, a, b)
    ensures Finished(Run(Holding(u, a), after)) == Finished(Run(Holding(u, b), after))
  {
    RunIgnoresHeld(u, a, after);
    RunIgnoresHeld(u, b, after);
    if Run(u, after).Ok? && Finished(Run(Holding(u, a), after)).Ok? {
      var v := Run(u, after).value;
      AttachedByName(v.entries, a + v.refinements);
      forall i | 0 <= i < |v.entries|
        ensures Naming(a + v.refinements, v.entries[i].id) == Naming(b + v.refinements, v.entries[i].id)
      {
        NamingPlus(a, v.refinements, v.entries[i].id);
        NamingPlus(b, v.refinements, v.entries[i].id);
        assert Attached(v.entries, a + v.refinements)[i].id == v.entries[i].id;
      }
      OrderByNameIsAll(v.entries, a + v.refinements, b + v.refinements);
    }
  }

  /** What comes of a metadata block in its document, by way of the state without the refinements held. */
  lemma ParsedByBlock(before: seq<Event>, s: State, attrs: seq<Attr>, gap: seq<Event>, metas: seq<Meta>, after: seq<Event>, u: State)
    requires Run(Initial, before) == Ok(s) && Idle(s) && IsGap(gap) && AreMetas(metas)
    requires u == AddingAll(s.(sectionDepth := s.depth + 1), metas).(refinements := [])
    ensures Run(Initial, before + Block(attrs, gap, metas) + after)
            == Run(Holding(u, s.refinements + RefinementsOf(metas)), after)
  {
    BlockRun(s, attrs, gap, metas);
    RunPlus(Initial, before, Block(attrs, gap, metas));
    RunPlus(Initial, before + Block(attrs, gap, metas), after);
    var held := s.refinements + RefinementsOf(metas);
    assert held + [] == held;
  }

  /**
   * Two metadata blocks with the same entries in the same order, and for the identifier
   * of each entry the same refinements in the same order, interleaved in any two ways and
   * with whatever else that names no entry, give the same package: the same entries with
   * the same refinements, and the same typed fields.
   */
  lemma InterleavingDoesNotMatter(
      before: seq<Event>, s: State, attrs: seq<Attr>, gap: seq<Event>, metas: seq<Meta>,
      attrs': seq<Attr>, gap': seq<Event>, metas': seq<Meta>, after: seq<Event>)
    requires Run(Initial, before) == Ok(s) && Idle(s)
    requires IsGap(gap) && AreMetas(metas) && IsGap(gap') && AreMetas(metas')
    requires EntriesOf(metas) == EntriesOf(metas') && CoverOf(metas, s.coverId) == CoverOf(metas', s.coverId)
    requires var parsed := Parsed(before + Block(attrs, gap, metas) + after);
             parsed.Ok? ==> SameFor(parsed.value.entries, RefinementsOf(metas), RefinementsOf(metas'))
    ensures Parsed(before + Block(attrs, gap, metas) + after) == Parsed(before + Block(attrs', gap', metas') + after)
  {
    var u := AddingAll(s.(sectionDepth := s.depth + 1), metas).(refinements := []);
    ParsedByBlock(before, s, attrs, gap, metas, after, u);
    ParsedByBlock(before, s, attrs', gap', metas', after, u);
    var a, b := s.refinements + RefinementsOf(metas), s.refinements + RefinementsOf(metas');
    var parsed := Parsed(before + Block(attrs, gap, metas) + after);
    if parsed.Ok? {
      SameAfter(parsed.value.entries, s.refinements, RefinementsOf(metas), RefinementsOf(metas'));
    }
    HeldOnlyByName(u, a, b, after);
  }

  lemma SameAfter(
      entries: seq<MetaEntry>, held: seq<(string, Refinement)>, a: seq<(string, Refinement)>, b: seq<(string, Refinement)>)
    requires SameFor(entries, a, b)
    ensures SameFor(entries, held + a, held + b)
  {
    forall i | 0 <= i < |entries| ensures Naming(held + a, entries[i].id) == Naming(held + b, entries[i].id) {
      NamingPlus(held, a, entries[i].id);
      NamingPlus(held, b, entries[i].id);
    }
  }

  // ----- A refinement of nothing -----

  lemma LastMeta(front: seq<Meta>, last: Meta)
    ensures EntriesOf(front + [last]) == EntriesOf(front) + EntryOf(last)
    ensures RefinementsOf(front + [last]) == RefinementsOf(front) + RefinementOf(last)
  {
    assert (front + [last])[..|front|] == front;
  }

  lemma InThree<T>(whole: seq<T>, a: seq<T>, b: seq<T>, c: seq<T>)
    requires whole == (a + b) + c
    ensures whole == a + (b + c)
  {
  }

  lemma {:induction false} FiledInParts(a: seq<Meta>, b: seq<Meta>)
    ensures EntriesOf(a + b) == EntriesOf(a) + EntriesOf(b)
    ensures RefinementsOf(a + b) == RefinementsOf(a) + RefinementsOf(b)
    decreases |b|
  {
    if b == [] {
      assert a + b == a;
    } else {
      var front, last := b[..|b| - 1], b[|b| - 1];
      assert a + b == (a + front) + [last] && b == front + [last];
      FiledInParts(a, front);
      LastMeta(a + front, last);
      LastMeta(front, last);
      InThree(EntriesOf(a + b), EntriesOf(a), EntriesOf(front), EntryOf(last));
      InThree(RefinementsOf(a + b), RefinementsOf(a), RefinementsOf(front), RefinementOf(last));
    }
  }

  lemma {:induction false} CoverInParts(a: seq<Meta>, b: seq<Meta>, known: string)
    ensures CoverOf(a + b, known) == CoverOf(b, CoverOf(a, known))
    decreases |b|
  {
    if b == [] {
      assert a + b == a;
    } else {
      assert (a + b)[..|a + b| - 1] == a + b[..|b| - 1];
      CoverInParts(a, b[..|b| - 1], known);
    }
  }

  lemma BlockInParts(a: seq<Meta>, b: seq<Meta>, known: string)
    ensures EntriesOf(a + b) == EntriesOf(a) + EntriesOf(b)
    ensures RefinementsOf(a + b) == RefinementsOf(a) + RefinementsOf(b)
    ensures CoverOf(a + b, known) == CoverOf(b, CoverOf(a, known))
  {
    FiledInParts(a, b);
    CoverInParts(a, b, known);
  }

  lemma OneMeta(meta: Meta, known: string)
    ensures EntriesOf([meta]) == EntryOf(meta) && RefinementsOf([meta]) == RefinementOf(meta)
    ensures CoverOf([meta], known) == CoverWith(meta, known)
  {
    assert [meta][..0] == [];
  }

  /** A block with one more refining element files the same, and that refinement where the element stands. */
  lemma WithStray(metas: seq<Meta>, stray: Meta, more: seq<Meta>, known: string)
    requires RefinementOf(stray) != []
    ensures EntriesOf(metas + [stray] + more) == EntriesOf(metas + more)
    ensures CoverOf(metas + [stray] + more, known) == CoverOf(metas + more, known)
    ensures RefinementsOf(metas + [stray] + more) == RefinementsOf(metas) + RefinementOf(stray) + RefinementsOf(more)
    ensures RefinementsOf(metas + more) == RefinementsOf(metas) + RefinementsOf(more)
  {
    OneMeta(stray, CoverOf(metas, known));
    BlockInParts(metas, [stray], known);
    BlockInParts(metas + [stray], more, known);
    BlockInParts(metas, more, known);
    assert EntriesOf(metas) + [] == EntriesOf(metas);
  }

  lemma StrayIsNotNamed(a: seq<(string, Refinement)>, stray: (string, Refinement), b: seq<(string, Refinement)>, id: string)
    requires id != stray.0
    ensures Naming(a + [stray] + b, id) == Naming(a + b, id)
  {
    NamingPlus(a + [stray], b, id);
    NamingPlus(a, [stray], id);
    NamingPlus(a, b, id);
    assert [stray][..0] == [];
    assert Naming([stray], id) == [];
  }

  lemma StrayIsForNone(
      entries: seq<MetaEntry>, a: seq<(string, Refinement)>, stray: (string, Refinement), b: seq<(string, Refinement)>)
    requires forall i :: 0 <= i < |entries| ==> entries[i].id != stray.0
    ensures SameFor(entries, a + b, a + [stray] + b)
  {
    forall i | 0 <= i < |entries| ensures Naming(a + b, entries[i].id) == Naming(a + [stray] + b, entries[i].id) {
      StrayIsNotNamed(a, stray, b, entries[i].id);
    }
  }

  lemma StrayFiled(
      before: seq<Event>, s: State, attrs: seq<Attr>, gap: seq<Event>, metas: seq<Meta>, metas': seq<Meta>, after: seq<Event>,
      a: seq<(string, Refinement)>, stray: (string, Refinement), b: seq<(string, Refinement)>)
    requires Run(Initial, before) == Ok(s) && Idle(s) && IsGap(gap) && AreMetas(metas) && AreMetas(metas')
    requires EntriesOf(metas) == EntriesOf(metas') && CoverOf(metas, s.coverId) == CoverOf(metas', s.coverId)
    requires RefinementsOf(metas) == a + b && RefinementsOf(metas') == a + [stray] + b
    requires var parsed := Parsed(before + Block(attrs, gap, metas) + after);
             parsed.Ok? ==> forall i :: 0 <= i < |parsed.value.entries| ==> parsed.value.entries[i].id != stray.0
    ensures Parsed(before + Block(attrs, gap, metas') + after) == Parsed(before + Block(attrs, gap, metas) + after)
  {
    var parsed := Parsed(before + Block(attrs, gap, metas) + after);
    if parsed.Ok? {
      StrayIsForNone(parsed.value.entries, a, stray, b);
    }
    InterleavingDoesNotMatter(before, s, attrs, gap, metas, attrs, gap, metas', after);
  }

  /** A refining element that names no entry of the whole document changes nothing of the package, wherever it stands. */
  lemma StrayMetaChangesNothing(
      before: seq<Event>, s: State, attrs: seq<Attr>, gap: seq<Event>,
      front: seq<Meta>, stray: Meta, rest: seq<Meta>, metas: seq<Meta>, with: seq<Meta>, after: seq<Event>)
    requires Run(Initial, before) == Ok(s) && Idle(s) && IsGap(gap) && AreMetas(metas) && AreMetas(with)
    requires metas == front + rest && with == front + [stray] + rest && RefinementOf(stray) != []
    requires var parsed := Parsed(before + Block(attrs, gap, metas) + after);
             parsed.Ok? ==> forall i :: 0 <= i < |parsed.value.entries| ==> parsed.value.entries[i].id != RefinementOf(stray)[0].0
    ensures Parsed(before + Block(attrs, gap, with) + after) == Parsed(before + Block(attrs, gap, metas) + after)
  {
    var ref := RefinementOf(stray)[0];
    WithStray(front, stray, rest, s.coverId);
    assert RefinementOf(stray) == [ref];
    StrayFiled(before, s, attrs, gap, metas, with, after, RefinementsOf(front), ref, RefinementsOf(rest));
  }

  // ----- The attributes of an entry -----

  lemma StepGrows(s: State, event: Event)
    ensures Step(s, event).Ok? ==> s.entries <= Step(s, event).value.entries
  {
  }

  /** Entries stay where they were filed. */
  lemma {:induction false} RunGrows(s: State, events: seq<Event>)
    ensures Run(s, events).Ok? ==> s.entries <= Run(s, events).value.entries
  {
    if events != [] {
      RunGrows(s, events[..|events| - 1]);
      if Run(s, events[..|events| - 1]).Ok? {
        StepGrows(Run(s, events[..|events| - 1]).value, events[|events| - 1]);
      }
    }
  }

  /** What an attribute says is what its entry is refined by, whatever refinements follow. */
  lemma AttributeOutranks(attrs: seq<Attr>, more: seq<Refinement>)
    ensures var refinements := AttributeRefinements(attrs) + more;
            var role, fileAs := Attribute(attrs, "role"), Attribute(attrs, "file-as");
            && Refined(refinements, "role") == (if role != "" then role else Refined(more, "role"))
            && Refined(refinements, "file-as") == if fileAs != "" then fileAs else Refined(more, "file-as")
  {
    FirstRefinementWins(AttributeRefinements(attrs), more, "role");
    FirstRefinementWins(AttributeRefinements(attrs), more, "file-as");
    OwnRefinements(attrs);
  }

  lemma OwnRefinements(attrs: seq<Attr>)
    ensures var own, role, fileAs := AttributeRefinements(attrs), Attribute(attrs, "role"), Attribute(attrs, "file-as");
            && Refined(own, "role") == role && Refined(own, "file-as") == fileAs
            && ((exists i :: 0 <= i < |own| && own[i].property == "role") <==> role != "")
            && ((exists i :: 0 <= i < |own| && own[i].property == "file-as") <==> fileAs != "")
  {
    var own, role, fileAs := AttributeRefinements(attrs), Attribute(attrs, "role"), Attribute(attrs, "file-as");
    if role != "" {
      assert own[0].property == "role";
    }
    if fileAs != "" {
      assert own[|own| - 1].property == "file-as";
    }
  }

  /** The entry that an element is before any refinement. */
  function Plain(meta: Meta): MetaEntry {
    MetaEntry(meta.name, ValueOf(meta), Attribute(meta.attrs, "id"), Attribute(meta.attrs, "scheme"), AttributeRefinements(meta.attrs))
  }

  /** The entry at `k` is the one that an element is. */
  predicate FiledAs(meta: Meta, filed: seq<MetaEntry>, k: nat) {
    k < |filed| && filed[k] == Plain(meta)
  }

  lemma OneEntry(meta: Meta)
    requires IsDublinCore(meta.name)
    ensures EntryOf(meta) == [Plain(meta)]
  {
  }

  /** An element of the Dublin Core in a metadata block stands where the elements before it end. */
  lemma EntryInPlace(metas: seq<Meta>, front: seq<Meta>, meta: Meta, rest: seq<Meta>)
    requires metas == (front + [meta]) + rest && IsDublinCore(meta.name)
    ensures FiledAs(meta, EntriesOf(metas), |EntriesOf(front)|)
  {
    FiledInParts(front + [meta], rest);
    LastMeta(front, meta);
    OneEntry(meta);
  }

  /** The entries of a block come, in order, after those held before it, and stay there to the end of the document. */
  lemma FiledEntries(
      before: seq<Event>, s: State, attrs: seq<Attr>, gap: seq<Event>, metas: seq<Meta>, after: seq<Event>, end: State)
    requires Run(Initial, before) == Ok(s) && Idle(s) && IsGap(gap) && AreMetas(metas)
    requires Run(Initial, before + Block(attrs, gap, metas) + after) == Ok(end)
    ensures s.entries + EntriesOf(metas) <= end.entries
  {
    BlockRun(s, attrs, gap, metas);
    RunPlus(Initial, before, Block(attrs, gap, metas));
    RunPlus(Initial, before + Block(attrs, gap, metas), after);
    RunGrows(AddingAll(s.(sectionDepth := s.depth + 1), metas), after);
  }

  /** Whom an element credits: as its attributes say, and where they are silent, as what refines it says. */
  function CreditOf(meta: Meta, given: seq<Refinement>): Contributor {
    var role, fileAs := Attribute(meta.attrs, "role"), Attribute(meta.attrs, "file-as");
    Contributor(ValueOf(meta), if role != "" then role else Refined(given, "role"),
                if fileAs != "" then fileAs else Refined(given, "file-as"))
  }

  /** Whom a finished entry credits. */
  function Credit(entries: seq<MetaEntry>, k: nat): Option<Contributor> {
    if k < |entries| then
      Some(Contributor(entries[k].value, Refined(entries[k].refinements, "role"), Refined(entries[k].refinements, "file-as")))
    else None
  }

  function GivenTo(end: State, k: nat): seq<Refinement> {
    if k < |end.entries| then Given(end.entries, end.refinements, k) else []
  }

  lemma InPrefix<T>(a: seq<T>, b: seq<T>, whole: seq<T>, k: nat)
    requires a + b <= whole && k < |b|
    ensures |a| + k < |whole| && whole[|a| + k] == b[k]
  {
    assert (a + b)[|a| + k] == b[k];
  }

  lemma OutrankedAt(end: State, k: nat, meta: Meta)
    requires k < |end.entries| && end.entries[k] == Plain(meta)
    ensures Credit(Attached(end.entries, end.refinements), k) == Some(CreditOf(meta, GivenTo(end, k)))
  {
    AttachedByName(end.entries, end.refinements);
    AttributeOutranks(meta.attrs, Given(end.entries, end.refinements, k));
  }

  /** An entry that a run has filed is credited in the end as its attributes say, or else as its refinements do. */
  lemma FiledStays(end: State, held: seq<MetaEntry>, filed: seq<MetaEntry>, meta: Meta, at: nat, k: nat)
    requires held + filed <= end.entries && FiledAs(meta, filed, at) && k == |held| + at
    ensures Credit(Attached(end.entries, end.refinements), k) == Some(CreditOf(meta, GivenTo(end, k)))
  {
    InPrefix(held, filed, end.entries, at);
    OutrankedAt(end, k, meta);
  }

  lemma PackageEntries(events: seq<Event>, end: State, p: Package)
    requires Run(Initial, events) == Ok(end) && Parsed(events) == Ok(p)
    ensures p.entries == Attached(end.entries, end.refinements)
  {
  }

  lemma CreditInPackage(events: seq<Event>, end: State, p: Package, k: nat, credit: Option<Contributor>)
    requires Run(Initial, events) == Ok(end) && Parsed(events) == Ok(p)
    requires Credit(Attached(end.entries, end.refinements), k) == credit
    ensures Credit(p.entries, k) == credit
  {
    PackageEntries(events, end, p);
  }

  /** Where a run has filed an element of a metadata block. */
  lemma ElementIsFiled(
      events: seq<Event>, before: seq<Event>, s: State, attrs: seq<Attr>, gap: seq<Event>, metas: seq<Meta>, after: seq<Event>,
      front: seq<Meta>, meta: Meta, rest: seq<Meta>, end: State) returns (filed: seq<MetaEntry>, at: nat)
    requires Run(Initial, before) == Ok(s) && Idle(s) && IsGap(gap) && AreMetas(metas)
    requires events == before + Block(attrs, gap, metas) + after && Run(Initial, events) == Ok(end)
    requires metas == (front + [meta]) + rest && IsDublinCore(meta.name)
    ensures s.entries + filed <= end.entries && FiledAs(meta, filed, at) && at == |EntriesOf(front)|
  {
    filed, at := EntriesOf(metas), |EntriesOf(front)|;
    FiledEntries(before, s, attrs, gap, metas, after, end);
    EntryInPlace(metas, front, meta, rest);
  }

  lemma ElementIsCredited(
      events: seq<Event>, before: seq<Event>, s: State, attrs: seq<Attr>, gap: seq<Event>, metas: seq<Meta>, after: seq<Event>,
      front: seq<Meta>, meta: Meta, rest: seq<Meta>, end: State, k: nat)
    requires Run(Initial, before) == Ok(s) && Idle(s) && IsGap(gap) && AreMetas(metas)
    requires events == before + Block(attrs, gap, metas) + after && Run(Initial, events) == Ok(end)
    requires metas == (front + [meta]) + rest && IsDublinCore(meta.name) && k == |s.entries| + |EntriesOf(front)|
    ensures Credit(Attached(end.entries, end.refinements), k) == Some(CreditOf(meta, GivenTo(end, k)))
  {
    var filed, at := ElementIsFiled(events, before, s, attrs, gap, metas, after, front, meta, rest, end);
    FiledStays(end, s.entries, filed, meta, at, k);
  }

  /**
   * An EPUB 2 attribute of a metadata element outranks every refining element of the
   * same property, before it or after it: in the package of any document, whom an element
   * of a metadata block credits is as its attributes say, and only where it has no such
   * attribute as the refinements say that the whole document gives to its entry.
   */
  lemma AttributesOutrankRefiningElements(
      events: seq<Event>, before: seq<Event>, s: State, attrs: seq<Attr>, gap: seq<Event>, metas: seq<Meta>, after: seq<Event>,
      front: seq<Meta>, meta: Meta, rest: seq<Meta>, end: State, p: Package, k: nat)
    requires Run(Initial, before) == Ok(s) && Idle(s) && IsGap(gap) && AreMetas(metas)
    requires events == before + Block(attrs, gap, metas) + after && Run(Initial, events) == Ok(end) && Parsed(events) == Ok(p)
    requires metas == (front + [meta]) + rest && IsDublinCore(meta.name) && k == |s.entries| + |EntriesOf(front)|
    ensures Credit(p.entries, k) == Some(CreditOf(meta, GivenTo(end, k)))
  {
    ElementIsCredited(events, before, s, attrs, gap, metas, after, front, meta, rest, end, k);
    CreditInPackage(events, end, p, k, Some(CreditOf(meta, GivenTo(end, k))));
  }
}
