/**
 * Whole package documents: what is parsed of a printed one, told from what was printed.
 * Manifest and spine come out in document order, each field from its own attribute, and
 * elements that stand outside their section count for nothing.
 */
module PackageDocument {
  import opened Outcomes
  import opened Package
  import opened Refinements
  import opened Text
  import opened Whitespace
  import opened Xml

  // ----- Documents -----

  /** An element of any name, with what stands inside it and after it. */
  datatype Element = Element(name: string, attrs: seq<Attr>, empty: bool, inside: seq<Event>, gap: seq<Event>)

  /** What a package holds: metadata, manifests, spines, and other elements between them. */
  datatype Part =
    | MetadataPart(attrs: seq<Attr>, lead: seq<Event>, metas: seq<Meta>, gap: seq<Event>)
    | ManifestPart(attrs: seq<Attr>, lead: seq<Event>, elements: seq<Element>, gap: seq<Event>)
    | SpinePart(attrs: seq<Attr>, lead: seq<Event>, elements: seq<Element>, gap: seq<Event>)
    | OtherPart(element: Element)

  datatype Document = Document(prolog: seq<Event>, attrs: seq<Attr>, lead: seq<Event>, parts: seq<Part>)

  predicate IsSection(name: string) {
    name == "metadata" || name == "manifest" || name == "spine"
  }

  predicate Tidy(elements: seq<Element>) {
    forall i :: 0 <= i < |elements| ==> IsGap(elements[i].inside) && IsGap(elements[i].gap)
  }

  predicate IsPart(part: Part) {
    match part
    case MetadataPart(_, lead, metas, gap) => IsGap(lead) && AreMetas(metas) && IsGap(gap)
    case ManifestPart(_, lead, elements, gap) => IsGap(lead) && Tidy(elements) && IsGap(gap)
    case SpinePart(_, lead, elements, gap) => IsGap(lead) && Tidy(elements) && IsGap(gap)
    case OtherPart(element) =>
      (element.empty || !IsSection(element.name)) && IsGap(element.inside) && IsGap(element.gap)
  }

  predicate IsDocument(doc: Document) {
    IsGap(doc.prolog) && IsGap(doc.lead) && forall i :: 0 <= i < |doc.parts| ==> IsPart(doc.parts[i])
  }

  function PrintElement(element: Element): seq<Event> {
    (if element.empty then [Empty(element.name, element.attrs)]
     else [Start(element.name, element.attrs)] + element.inside + [End(element.name)])
    + element.gap
  }

  function PrintElements(elements: seq<Element>): seq<Event> {
    if elements == [] then [] else PrintElements(elements[..|elements| - 1]) + PrintElement(elements[|elements| - 1])
  }

  function PrintSection(name: string, attrs: seq<Attr>, lead: seq<Event>, elements: seq<Element>): seq<Event> {
    [Start(name, attrs)] + lead + PrintElements(elements) + [End(name)]
  }

  function PrintPart(part: Part): seq<Event> {
    match part
    case MetadataPart(attrs, lead, metas, gap) => Block(attrs, lead, metas) + gap
    case ManifestPart(attrs, lead, elements, gap) => PrintSection("manifest", attrs, lead, elements) + gap
    case SpinePart(attrs, lead, elements, gap) => PrintSection("spine", attrs, lead, elements) + gap
    case OtherPart(element) => PrintElement(element)
  }

  function PrintParts(parts: seq<Part>): seq<Event> {
    if parts == [] then [] else PrintParts(parts[..|parts| - 1]) + PrintPart(parts[|parts| - 1])
  }

  function PrintDocument(doc: Document): seq<Event> {
    doc.prolog + [Start("package", doc.attrs)] + doc.lead + PrintParts(doc.parts) + [End("package")]
  }

  // ----- What a document says -----

  /** The manifest item that an element named `item` is, each field from its own attribute. */
  function ItemIn(element: Element): seq<ManifestItem> {
    if element.name != "item" then []
    else
      [ManifestItem(Attribute(element.attrs, "id"), Attribute(element.attrs, "href"), Attribute(element.attrs, "media-type"),
                    Words(Attribute(element.attrs, "properties")), Attribute(element.attrs, "media-overlay"),
                    Attribute(element.attrs, "fallback"))]
  }

  /** The spine item that an element named `itemref` is, linear unless it says exactly `no`. */
  function ItemrefIn(element: Element): seq<SpineItem> {
    if element.name != "itemref" then []
    else [SpineItem(Attribute(element.attrs, "idref"), !(Attribute(element.attrs, "linear") == "no"))]
  }

  function ItemsAmong(elements: seq<Element>): seq<ManifestItem> {
    if elements == [] then [] else ItemsAmong(elements[..|elements| - 1]) + ItemIn(elements[|elements| - 1])
  }

  function ItemrefsAmong(elements: seq<Element>): seq<SpineItem> {
    if elements == [] then [] else ItemrefsAmong(elements[..|elements| - 1]) + ItemrefIn(elements[|elements| - 1])
  }

  function ManifestOf(parts: seq<Part>): seq<ManifestItem> {
    if parts == [] then []
    else
      ManifestOf(parts[..|parts| - 1])
      + (if parts[|parts| - 1].ManifestPart? then ItemsAmong(parts[|parts| - 1].elements) else [])
  }

  function SpineOf(parts: seq<Part>): seq<SpineItem> {
    if parts == [] then []
    else
      SpineOf(parts[..|parts| - 1])
      + (if parts[|parts| - 1].SpinePart? then ItemrefsAmong(parts[|parts| - 1].elements) else [])
  }

  /** The id of the NCX: the `toc` attribute of the last spine. */
  function TocIdOf(parts: seq<Part>): string {
    if parts == [] then ""
    else if parts[|parts| - 1].SpinePart? then Attribute(parts[|parts| - 1].attrs, "toc")
    else TocIdOf(parts[..|parts| - 1])
  }

  /** The entries of all metadata blocks, in order, before any refinement. */
  function EntriesIn(parts: seq<Part>): seq<MetaEntry> {
    if parts == [] then []
    else EntriesIn(parts[..|parts| - 1]) + (if parts[|parts| - 1].MetadataPart? then EntriesOf(parts[|parts| - 1].metas) else [])
  }

  function RefinementsIn(parts: seq<Part>): seq<(string, Refinement)> {
    if parts == [] then []
    else
      RefinementsIn(parts[..|parts| - 1])
      + (if parts[|parts| - 1].MetadataPart? then RefinementsOf(parts[|parts| - 1].metas) else [])
  }

  function CoverIn(parts: seq<Part>): string {
    if parts == [] then ""
    else if parts[|parts| - 1].MetadataPart? then CoverOf(parts[|parts| - 1].metas, CoverIn(parts[..|parts| - 1]))
    else CoverIn(parts[..|parts| - 1])
  }

  // ----- Elements in a section -----

  ghost predicate InSection(s: State, section: Section) {
    s.sawPackage && s.section == section && s.sectionDepth <= s.depth && s.collecting == None && s.text == ""
  }

  /** What an element adds in a section. */
  function WithElement(s: State, section: Section, element: Element): State {
    match section
    case Manifest => s.(manifest := s.manifest + ItemIn(element))
    case Spine => s.(spine := s.spine + ItemrefIn(element))
    case _ => s
  }

  lemma ElementOpens(s: State, section: Section, element: Element, empty: bool)
    requires InSection(s, section) && (section == Manifest || section == Spine)
    ensures Opened(s, element.name, element.attrs, empty)
            == Ok(WithElement(if empty then s else s.(depth := s.depth + 1), section, element))
  {
    assert s.manifest + [] == s.manifest && s.spine + [] == s.spine;
  }

  lemma ElementCloses(s: State, section: Section, name: string)
    requires InSection(s, section)
    ensures Step(s.(depth := s.depth + 1), End(name)) == Ok(s)
  {
  }

  /** Two runs, one after the other. */
  lemma RunThen(s: State, a: seq<Event>, t: State, b: seq<Event>, u: State)
    requires Run(s, a) == Ok(t) && Run(t, b) == Ok(u)
    ensures Run(s, a + b) == Ok(u)
  {
    RunPlus(s, a, b);
  }

  lemma GapAfter(s: State, events: seq<Event>, t: State, gap: seq<Event>)
    requires Run(s, events) == Ok(t) && t.collecting == None && IsGap(gap)
    ensures Run(s, events + gap) == Ok(t)
  {
    GapRun(t, gap);
    RunThen(s, events, t, gap, t);
  }

  lemma StartEnd(s: State, name: string, attrs: seq<Attr>, inside: seq<Event>, within: State, after: State)
    requires Step(s, Start(name, attrs)) == Ok(within) && Step(within, End(name)) == Ok(after)
    requires within.collecting == None && IsGap(inside)
    ensures Run(s, [Start(name, attrs)] + inside + [End(name)]) == Ok(after)
  {
    RunOne(s, Start(name, attrs));
    GapAfter(s, [Start(name, attrs)], within, inside);
    RunOne(within, End(name));
    RunThen(s, [Start(name, attrs)] + inside, within, [End(name)], after);
  }

  lemma FullElementRun(s: State, section: Section, element: Element)
    requires InSection(s, section) && (section == Manifest || section == Spine) && IsGap(element.inside) && !element.empty
    ensures Run(s, [Start(element.name, element.attrs)] + element.inside + [End(element.name)]) == Ok(WithElement(s, section, element))
  {
    ElementOpens(s, section, element, false);
    ElementCloses(WithElement(s, section, element), section, element.name);
    StartEnd(s, element.name, element.attrs, element.inside,
             WithElement(s.(depth := s.depth + 1), section, element), WithElement(s, section, element));
  }

  lemma SectionElementRun(s: State, section: Section, element: Element)
    requires InSection(s, section) && (section == Manifest || section == Spine) && IsGap(element.inside) && IsGap(element.gap)
    ensures Run(s, PrintElement(element)) == Ok(WithElement(s, section, element))
    ensures InSection(WithElement(s, section, element), section)
  {
    if element.empty {
      RunOne(s, Empty(element.name, element.attrs));
      ElementOpens(s, section, element, true);
      RunPlus(s, [Empty(element.name, element.attrs)], element.gap);
    } else {
      FullElementRun(s, section, element);
      RunPlus(s, [Start(element.name, element.attrs)] + element.inside + [End(element.name)], element.gap);
    }
    GapRun(WithElement(s, section, element), element.gap);
  }

  function WithElements(s: State, section: Section, elements: seq<Element>): State {
    match section
    case Manifest => s.(manifest := s.manifest + ItemsAmong(elements))
    case Spine => s.(spine := s.spine + ItemrefsAmong(elements))
    case _ => s
  }

  lemma ElementsNext(s: State, section: Section, front: seq<Element>, last: Element)
    ensures WithElements(s, section, front + [last]) == WithElement(WithElements(s, section, front), section, last)
  {
    assert (front + [last])[..|front|] == front;
    assert s.manifest + ItemsAmong(front) + ItemIn(last) == s.manifest + (ItemsAmong(front) + ItemIn(last));
    assert s.spine + ItemrefsAmong(front) + ItemrefIn(last) == s.spine + (ItemrefsAmong(front) + ItemrefIn(last));
  }

  lemma {:induction false} ElementsRun(s: State, section: Section, elements: seq<Element>)
    requires InSection(s, section) && (section == Manifest || section == Spine) && Tidy(elements)
    ensures Run(s, PrintElements(elements)) == Ok(WithElements(s, section, elements))
    ensures InSection(WithElements(s, section, elements), section)
  {
    if elements == [] {
      assert s.manifest + [] == s.manifest && s.spine + [] == s.spine;
    } else {
      var front, last := elements[..|elements| - 1], elements[|elements| - 1];
      assert elements == front + [last];
      ElementsRun(s, section, front);
      SectionElementRun(WithElements(s, section, front), section, last);
      RunPlus(s, PrintElements(front), PrintElement(last));
      ElementsNext(s, section, front, last);
    }
  }

  // ----- Parts -----

  /** A section that an element opens; a spine brings its `toc` along. */
  function Entering(s: State, section: Section, attrs: seq<Attr>): State {
    var down := s.(depth := s.depth + 1, section := section, sectionDepth := s.depth + 1);
    if section == Spine then down.(tocId := Attribute(attrs, "toc")) else down
  }

  function SectionName(section: Section): string
    requires section == Manifest || section == Spine
  {
    if section == Manifest then "manifest" else "spine"
  }

  /** After a whole section. */
  function AfterSection(s: State, section: Section, attrs: seq<Attr>, elements: seq<Element>): State {
    var done := WithElements(s, section, elements).(sectionDepth := s.depth + 1);
    if section == Spine then done.(tocId := Attribute(attrs, "toc")) else done
  }

  lemma SectionEnds(s: State, section: Section, attrs: seq<Attr>, elements: seq<Element>)
    requires Idle(s) && (section == Manifest || section == Spine)
    ensures Step(WithElements(Entering(s, section, attrs), section, elements), End(SectionName(section)))
            == Ok(AfterSection(s, section, attrs, elements))
  {
  }

  lemma SectionRun(s: State, section: Section, attrs: seq<Attr>, lead: seq<Event>, elements: seq<Element>)
    requires Idle(s) && (section == Manifest || section == Spine) && IsGap(lead) && Tidy(elements)
    ensures Run(s, PrintSection(SectionName(section), attrs, lead, elements)) == Ok(AfterSection(s, section, attrs, elements))
  {
    var start, inner, end := [Start(SectionName(section), attrs)], PrintElements(elements), [End(SectionName(section))];
    var entered := Entering(s, section, attrs);
    RunOne(s, start[0]);
    assert Step(s, start[0]) == Ok(entered);
    GapRun(entered, lead);
    RunPlus(s, start, lead);
    ElementsRun(entered, section, elements);
    RunPlus(s, start + lead, inner);
    SectionEnds(s, section, attrs, elements);
    RunOne(WithElements(entered, section, elements), end[0]);
    RunPlus(s, start + lead + inner, end);
  }

  lemma EmptyOtherRun(s: State, element: Element)
    requires Idle(s) && element.empty && IsGap(element.gap)
    ensures Run(s, PrintElement(element)) == Ok(s)
  {
    RunOne(s, Empty(element.name, element.attrs));
    GapAfter(s, [Empty(element.name, element.attrs)], s, element.gap);
  }

  lemma OtherOpens(s: State, name: string, attrs: seq<Attr>)
    requires Idle(s) && !IsSection(name)
    ensures Step(s, Start(name, attrs)) == Ok(s.(depth := s.depth + 1))
    ensures Step(s.(depth := s.depth + 1), End(name)) == Ok(s)
  {
  }

  lemma FullOtherRun(s: State, element: Element)
    requires Idle(s) && !element.empty && !IsSection(element.name) && IsGap(element.inside)
    ensures Run(s, [Start(element.name, element.attrs)] + element.inside + [End(element.name)]) == Ok(s)
  {
    OtherOpens(s, element.name, element.attrs);
    StartEnd(s, element.name, element.attrs, element.inside, s.(depth := s.depth + 1), s);
  }

  /** Beside the sections, an element changes nothing, whatever its name. */
  lemma OtherRun(s: State, element: Element)
    requires Idle(s) && (element.empty || !IsSection(element.name)) && IsGap(element.inside) && IsGap(element.gap)
    ensures Run(s, PrintElement(element)) == Ok(s)
  {
    if element.empty {
      EmptyOtherRun(s, element);
    } else {
      FullOtherRun(s, element);
      GapAfter(s, [Start(element.name, element.attrs)] + element.inside + [End(element.name)], s, element.gap);
    }
  }

  /** What one part adds. */
  function WithPart(s: State, part: Part): State {
    match part
    case MetadataPart(attrs, lead, metas, gap) => AddingAll(s, metas).(sectionDepth := s.depth + 1)
    case ManifestPart(attrs, lead, elements, gap) => AfterSection(s, Manifest, attrs, elements)
    case SpinePart(attrs, lead, elements, gap) => AfterSection(s, Spine, attrs, elements)
    case OtherPart(element) => s
  }

  lemma MetadataRun(s: State, part: Part)
    requires Idle(s) && IsPart(part) && part.MetadataPart?
    ensures Run(s, PrintPart(part)) == Ok(WithPart(s, part))
  {
    BlockRun(s, part.attrs, part.lead, part.metas);
    GapAfter(s, Block(part.attrs, part.lead, part.metas), WithPart(s, part), part.gap);
  }

  lemma ManifestRun(s: State, part: Part)
    requires Idle(s) && IsPart(part) && part.ManifestPart?
    ensures Run(s, PrintPart(part)) == Ok(WithPart(s, part))
  {
    SectionRun(s, Manifest, part.attrs, part.lead, part.elements);
    GapAfter(s, PrintSection("manifest", part.attrs, part.lead, part.elements), WithPart(s, part), part.gap);
  }

  lemma SpineRun(s: State, part: Part)
    requires Idle(s) && IsPart(part) && part.SpinePart?
    ensures Run(s, PrintPart(part)) == Ok(WithPart(s, part))
  {
    SectionRun(s, Spine, part.attrs, part.lead, part.elements);
    GapAfter(s, PrintSection("spine", part.attrs, part.lead, part.elements), WithPart(s, part), part.gap);
  }

  lemma PartRun(s: State, part: Part)
    requires Idle(s) && IsPart(part)
    ensures Run(s, PrintPart(part)) == Ok(WithPart(s, part))
  {
    if part.MetadataPart? {
      MetadataRun(s, part);
    } else if part.ManifestPart? {
      ManifestRun(s, part);
    } else if part.SpinePart? {
      SpineRun(s, part);
    } else {
      OtherRun(s, part.element);
    }
  }

  // ----- Documents -----

  function WithParts(s: State, parts: seq<Part>): State {
    if parts == [] then s else WithPart(WithParts(s, parts[..|parts| - 1]), parts[|parts| - 1])
  }

  lemma {:induction false} PartsRun(s: State, parts: seq<Part>)
    requires Idle(s) && forall i :: 0 <= i < |parts| ==> IsPart(parts[i])
    ensures Run(s, PrintParts(parts)) == Ok(WithParts(s, parts))
    ensures Idle(WithParts(s, parts)) && WithParts(s, parts).depth == s.depth
  {
    if parts != [] {
      var front, last := parts[..|parts| - 1], parts[|parts| - 1];
      PartsRun(s, front);
      PartRun(WithParts(s, front), last);
      RunPlus(s, PrintParts(front), PrintPart(last));
    }
  }

  lemma InThreeParts<T>(a: seq<T>, b: seq<T>, c: seq<T>)
    ensures a + b + c == a + (b + c) && a + [] == a
  {
  }

  lemma {:induction false} ItemsFiled(s: State, parts: seq<Part>)
    ensures WithParts(s, parts).manifest == s.manifest + ManifestOf(parts)
    ensures WithParts(s, parts).spine == s.spine + SpineOf(parts)
  {
    if parts == [] {
      InThreeParts(s.manifest, [], []);
      InThreeParts(s.spine, [], []);
    } else {
      var front, last := parts[..|parts| - 1], parts[|parts| - 1];
      ItemsFiled(s, front);
      InThreeParts(s.manifest, ManifestOf(front), if last.ManifestPart? then ItemsAmong(last.elements) else []);
      InThreeParts(s.spine, SpineOf(front), if last.SpinePart? then ItemrefsAmong(last.elements) else []);
    }
  }

  lemma {:induction false} AttributesFiled(s: State, parts: seq<Part>)
    requires s.tocId == ""
    ensures var t := WithParts(s, parts); t.tocId == TocIdOf(parts) && t.version == s.version && t.uniqueId == s.uniqueId
  {
    if parts != [] {
      AttributesFiled(s, parts[..|parts| - 1]);
    }
  }

  lemma MetadataAdds(s: State, part: Part)
    requires part.MetadataPart?
    ensures WithPart(s, part).entries == s.entries + EntriesOf(part.metas)
    ensures WithPart(s, part).refinements == s.refinements + RefinementsOf(part.metas)
    ensures WithPart(s, part).coverId == CoverOf(part.metas, s.coverId)
  {
  }

  lemma OtherAddsNoMetadata(s: State, part: Part)
    requires !part.MetadataPart?
    ensures WithPart(s, part).entries == s.entries && WithPart(s, part).refinements == s.refinements
    ensures WithPart(s, part).coverId == s.coverId
  {
  }

  lemma {:induction false} EntriesFiled(s: State, parts: seq<Part>)
    requires s.coverId == ""
    ensures WithParts(s, parts).entries == s.entries + EntriesIn(parts)
    ensures WithParts(s, parts).refinements == s.refinements + RefinementsIn(parts)
    ensures WithParts(s, parts).coverId == CoverIn(parts)
  {
    if parts == [] {
      InThreeParts(s.entries, [], []);
      InThreeParts(s.refinements, [], []);
    } else {
      var front, last := parts[..|parts| - 1], parts[|parts| - 1];
      EntriesFiled(s, front);
      if last.MetadataPart? {
        MetadataAdds(WithParts(s, front), last);
        InThreeParts(s.entries, EntriesIn(front), EntriesOf(last.metas));
        InThreeParts(s.refinements, RefinementsIn(front), RefinementsOf(last.metas));
      } else {
        OtherAddsNoMetadata(WithParts(s, front), last);
        InThreeParts(EntriesIn(front), [], []);
        InThreeParts(RefinementsIn(front), [], []);
      }
    }
  }

  /** The state when the package has begun. */
  function Begun(attrs: seq<Attr>): State {
    Initial.(sawPackage := true, depth := 1, version := Attribute(attrs, "version"), uniqueId := Attribute(attrs, "unique-identifier"))
  }

  lemma BeginningRun(doc: Document)
    requires IsDocument(doc)
    ensures Run(Initial, doc.prolog + [Start("package", doc.attrs)] + doc.lead) == Ok(Begun(doc.attrs))
  {
    GapRun(Initial, doc.prolog);
    RunOne(Initial, Start("package", doc.attrs));
    RunThen(Initial, doc.prolog, Initial, [Start("package", doc.attrs)], Begun(doc.attrs));
    GapAfter(Initial, doc.prolog + [Start("package", doc.attrs)], Begun(doc.attrs), doc.lead);
  }

  lemma PackageEnds(s: State)
    requires Idle(s) && s.depth == 1
    ensures Run(s, [End("package")]) == Ok(s.(depth := 0))
  {
    RunOne(s, End("package"));
  }

  lemma DocumentRun(doc: Document)
    requires IsDocument(doc)
    ensures Run(Initial, PrintDocument(doc)) == Ok(WithParts(Begun(doc.attrs), doc.parts).(depth := 0))
  {
    var begun, start := Begun(doc.attrs), doc.prolog + [Start("package", doc.attrs)] + doc.lead;
    var done := WithParts(begun, doc.parts);
    BeginningRun(doc);
    PartsRun(begun, doc.parts);
    PackageEnds(done);
    RunThen(Initial, start, begun, PrintParts(doc.parts), done);
    RunThen(Initial, start + PrintParts(doc.parts), done, [End("package")], done.(depth := 0));
  }

  /**
   * What is parsed of a printed document: its version and unique identifier, the manifest
   * items of its manifests and the itemrefs of its spines in document order, the `toc` of
   * its last spine, its cover, and the entries of its metadata, each with what the
   * refinements of the document give it; and a document without an itemref is refused.
   */
  lemma DocumentIsParsed(doc: Document, parsed: Result<Package, XmlError>)
    requires IsDocument(doc) && parsed == Parsed(PrintDocument(doc))
    ensures SpineOf(doc.parts) == [] ==> parsed == Err(EmptySpine)
    ensures SpineOf(doc.parts) != [] ==>
              && parsed.Ok?
              && parsed.value.state.manifest == ManifestOf(doc.parts) && parsed.value.state.spine == SpineOf(doc.parts)
              && parsed.value.state.tocId == TocIdOf(doc.parts) && parsed.value.state.coverId == CoverIn(doc.parts)
              && parsed.value.state.version == Attribute(doc.attrs, "version")
              && parsed.value.state.uniqueId == Attribute(doc.attrs, "unique-identifier")
              && parsed.value.entries == Attached(EntriesIn(doc.parts), RefinementsIn(doc.parts))
              && parsed.value.derived == Derive(parsed.value.entries)
  {
    var end := WithParts(Begun(doc.attrs), doc.parts);
    DocumentRun(doc);
    EndOfDocument(doc, end);
    FinishedAs(end.(depth := 0), parsed);
  }

  lemma EndOfDocument(doc: Document, end: State)
    requires end == WithParts(Begun(doc.attrs), doc.parts) && IsDocument(doc)
    ensures end.sawPackage && end.manifest == ManifestOf(doc.parts) && end.spine == SpineOf(doc.parts)
    ensures end.tocId == TocIdOf(doc.parts) && end.coverId == CoverIn(doc.parts)
    ensures end.version == Attribute(doc.attrs, "version") && end.uniqueId == Attribute(doc.attrs, "unique-identifier")
    ensures end.entries == EntriesIn(doc.parts) && end.refinements == RefinementsIn(doc.parts)
  {
    PartsRun(Begun(doc.attrs), doc.parts);
    ItemsFiled(Begun(doc.attrs), doc.parts);
    AttributesFiled(Begun(doc.attrs), doc.parts);
    EntriesFiled(Begun(doc.attrs), doc.parts);
    assert [] + ManifestOf(doc.parts) == ManifestOf(doc.parts) && [] + SpineOf(doc.parts) == SpineOf(doc.parts);
    assert [] + EntriesIn(doc.parts) == EntriesIn(doc.parts) && [] + RefinementsIn(doc.parts) == RefinementsIn(doc.parts);
  }

  lemma FinishedAs(end: State, parsed: Result<Package, XmlError>)
    requires end.sawPackage && parsed == Finished(Ok(end))
    ensures end.spine == [] ==> parsed == Err(EmptySpine)
    ensures end.spine != [] ==>
              parsed.Ok? && parsed.value.entries == Attached(end.entries, end.refinements)
              && parsed.value.state == end.(entries := parsed.value.entries, refinements := [])
              && parsed.value.derived == Derive(parsed.value.entries)
  {
  }

  /** A document whose first element is not the package is refused, whatever follows. */
  lemma RootMustBePackage(prolog: seq<Event>, root: Event, rest: seq<Event>)
    requires IsGap(prolog) && (root.Start? || root.Empty?) && root.name != "package"
    ensures Parsed(prolog + [root] + rest) == Err(NotAPackage)
  {
    GapRun(Initial, prolog);
    RunOne(Initial, root);
    RunPlus(Initial, prolog, [root]);
    RunPlus(Initial, prolog + [root], rest);
  }
}
