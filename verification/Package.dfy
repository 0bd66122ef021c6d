/** The package document parser of src/opf.rs, as a state that every event moves on. */
module Package {
  import opened Outcomes
  import opened Text
  import opened Whitespace
  import opened Xml

  datatype Refinement = Refinement(property: string, value: string, scheme: string)

  datatype MetaEntry = MetaEntry(element: string, value: string, id: string, scheme: string, refinements: seq<Refinement>)

  datatype ManifestItem = ManifestItem(
    id: string, href: string, mediaType: string, properties: seq<string>, overlay: string, fallback: string)

  datatype SpineItem = SpineItem(idref: string, linear: bool)

  datatype XmlError = NotAPackage | EmptySpine

  datatype Section = Outside | Metadata | Manifest | Spine

  /** A metadata element before its end tag; `target` names what it refines, if anything. */
  datatype Pending = Pending(local: string, entry: MetaEntry, target: string)

  datatype State = State(
    sawPackage: bool, version: string, uniqueId: string, tocId: string, coverId: string,
    section: Section, depth: nat, sectionDepth: nat,
    collecting: Option<Pending>, text: string,
    entries: seq<MetaEntry>, refinements: seq<(string, Refinement)>,
    manifest: seq<ManifestItem>, spine: seq<SpineItem>)

  const Initial := State(false, "", "", "", "", Outside, 0, 0, None, "", [], [], [], [])

  // ----- What a metadata element is -----

  predicate IsDublinCore(name: string) {
    name in ["title", "creator", "contributor", "language", "identifier", "publisher", "description", "date",
             "subject", "rights", "source", "type", "format", "coverage", "relation"]
  }

  function Lowered(s: string): string {
    seq(|s|, i requires 0 <= i < |s| => if 'A' <= s[i] <= 'Z' then s[i] - 'A' + 'a' else s[i])
  }

  function WithoutMarks(s: string): string {
    if s != "" && s[0] == '#' then WithoutMarks(s[1..]) else s
  }

  /** The EPUB 2 attributes that say what EPUB 3 says in refinements. */
  function AttributeRefinements(attrs: seq<Attr>): seq<Refinement> {
    var role, fileAs := Attribute(attrs, "role"), Attribute(attrs, "file-as");
    (if role != "" then [Refinement("role", role, "")] else [])
    + (if fileAs != "" then [Refinement("file-as", fileAs, "")] else [])
  }

  /** A start tag in the metadata: nothing to keep, the cover, or an element to collect. */
  datatype Reading = Ignored | Cover(content: string) | Collects(pending: Pending)

  function Read(name: string, attrs: seq<Attr>): Reading {
    if name == "meta" then
      if Lowered(Attribute(attrs, "name")) == "cover" then Cover(Attribute(attrs, "content"))
      else if Attribute(attrs, "property") == "" then Ignored
      else
        Collects(Pending(
          name, MetaEntry(Attribute(attrs, "property"), "", Attribute(attrs, "id"), Attribute(attrs, "scheme"), []),
          WithoutMarks(Attribute(attrs, "refines"))))
    else if IsDublinCore(name) then
      Collects(Pending(
        name, MetaEntry(name, "", Attribute(attrs, "id"), Attribute(attrs, "scheme"), AttributeRefinements(attrs)), ""))
    else Ignored
  }

  // ----- Steps -----

  /** An element that ended is an entry of its own, or waits as a refinement of the one it names. */
  function Stored(s: State, pending: Pending, value: string): State {
    if pending.target == "" then s.(entries := s.entries + [pending.entry.(value := value)])
    else
      s.(refinements := s.refinements
                        + [(pending.target, Refinement(pending.entry.element, value, pending.entry.scheme))])
  }

  function OpenedMetadata(s: State, name: string, attrs: seq<Attr>, empty: bool): State {
    match Read(name, attrs)
    case Ignored => s
    case Cover(content) => if content != "" && s.coverId == "" then s.(coverId := content) else s
    case Collects(pending) =>
      if empty then Stored(s.(text := ""), pending, "") else s.(text := "", collecting := Some(pending))
  }

  function Entered(s: State, section: Section): State {
    s.(section := section, sectionDepth := s.depth)
  }

  function ItemOf(attrs: seq<Attr>): ManifestItem {
    ManifestItem(Attribute(attrs, "id"), Attribute(attrs, "href"), Attribute(attrs, "media-type"),
                 Words(Attribute(attrs, "properties")), Attribute(attrs, "media-overlay"), Attribute(attrs, "fallback"))
  }

  function Opened(s: State, name: string, attrs: seq<Attr>, empty: bool): Result<State, XmlError> {
    var down := if empty then s else s.(depth := s.depth + 1);
    if !s.sawPackage then
      if name != "package" then Err(NotAPackage)
      else Ok(down.(sawPackage := true, version := Attribute(attrs, "version"), uniqueId := Attribute(attrs, "unique-identifier")))
    else
      Ok(match s.section
         case Outside =>
           if empty then down
           else if name == "metadata" then Entered(down, Metadata)
           else if name == "manifest" then Entered(down, Manifest)
           else if name == "spine" then Entered(down.(tocId := Attribute(attrs, "toc")), Spine)
           else down
         case Metadata => OpenedMetadata(down, name, attrs, empty)
         case Manifest => if name == "item" then down.(manifest := s.manifest + [ItemOf(attrs)]) else down
         case Spine =>
           if name == "itemref" then
             down.(spine := s.spine + [SpineItem(Attribute(attrs, "idref"), Attribute(attrs, "linear") != "no")])
           else down)
  }

  /** The element being collected is filed by its end tag. */
  function Filed(s: State, name: string): State {
    if s.collecting.Some? && s.collecting.value.local == name
    then Stored(s.(collecting := None, text := ""), s.collecting.value, Trim(s.text)) else s
  }

  function Closed(s: State, name: string): State {
    Filed(s, name).(section := if s.depth == s.sectionDepth then Outside else s.section,
           depth := if s.depth == 0 then 0 else s.depth - 1)
  }

  function Step(s: State, event: Event): Result<State, XmlError> {
    match event
    case Start(name, attrs) => Opened(s, name, attrs, false)
    case Empty(name, attrs) => Opened(s, name, attrs, true)
    case End(name) => Ok(Closed(s, name))
    case Text(text) => Ok(if s.collecting.Some? then s.(text := s.text + text) else s)
    case Other => Ok(s)
  }

  function Run(s: State, events: seq<Event>): Result<State, XmlError> {
    if events == [] then Ok(s)
    else
      match Run(s, events[..|events| - 1])
      case Err(error) => Err(error)
      case Ok(before) => Step(before, events[|events| - 1])
  }

  // ----- What is made of it at the end -----

  /** The first entry with this identifier. */
  function FirstWithId(entries: seq<MetaEntry>, id: string): (r: Option<nat>)
    ensures r.Some? ==> r.value < |entries| && entries[r.value].id == id
                        && forall j :: 0 <= j < r.value ==> entries[j].id != id
    ensures r.None? ==> forall j :: 0 <= j < |entries| ==> entries[j].id != id
  {
    if entries == [] then None
    else if entries[0].id == id then Some(0)
    else
      match FirstWithId(entries[1..], id)
      case None => None
      case Some(k) => Some(k + 1)
  }

  function Refine(entry: MetaEntry, refinement: Refinement): MetaEntry {
    entry.(refinements := entry.refinements + [refinement])
  }

  function AttachedOne(entries: seq<MetaEntry>, target: string, refinement: Refinement): seq<MetaEntry> {
    match FirstWithId(entries, target)
    case None => entries
    case Some(k) => entries[k := Refine(entries[k], refinement)]
  }

  /** Every refinement in turn given to the first entry with the identifier it names. */
  function Attached(entries: seq<MetaEntry>, refinements: seq<(string, Refinement)>): seq<MetaEntry> {
    if refinements == [] then entries
    else
      var last := refinements[|refinements| - 1];
      AttachedOne(Attached(entries, refinements[..|refinements| - 1]), last.0, last.1)
  }

  /** What the earliest refinement of this property says; nothing if there is none. */
  function Refined(refinements: seq<Refinement>, property: string): string {
    if refinements == [] then ""
    else if refinements[0].property == property then refinements[0].value
    else Refined(refinements[1..], property)
  }

  datatype Title = Title(value: string, titleType: string)

  datatype Contributor = Contributor(name: string, role: string, fileAs: string)

  datatype Identifier = Identifier(value: string, id: string, scheme: string)

  /** The typed fields; `singles` holds the ten elements of which only the first counts. */
  datatype Derived = Derived(
    titles: seq<Title>, title: string, creators: seq<Contributor>, contributors: seq<Contributor>,
    languages: seq<string>, language: string, subjects: seq<string>, identifiers: seq<Identifier>, singles: seq<string>)

  function Every(entries: seq<MetaEntry>, element: string): seq<MetaEntry> {
    if entries == [] then []
    else (if entries[0].element == element then [entries[0]] else []) + Every(entries[1..], element)
  }

  function First(entries: seq<MetaEntry>, element: string): string {
    var every := Every(entries, element);
    if every == [] then "" else every[0].value
  }

  function Map<T>(entries: seq<MetaEntry>, f: MetaEntry -> T): seq<T> {
    seq(|entries|, i requires 0 <= i < |entries| => f(entries[i]))
  }

  function MainTitle(titles: seq<Title>): Option<string> {
    if titles == [] then None
    else if titles[0].titleType == "main" then Some(titles[0].value)
    else MainTitle(titles[1..])
  }

  function Derive(entries: seq<MetaEntry>): Derived {
    var credit := (e: MetaEntry) => Contributor(e.value, Refined(e.refinements, "role"), Refined(e.refinements, "file-as"));
    var titles := Map(Every(entries, "title"), (e: MetaEntry) => Title(e.value, Refined(e.refinements, "title-type")));
    var languages := Map(Every(entries, "language"), (e: MetaEntry) => e.value);
    Derived(
      titles, MainTitle(titles).UnwrapOr(if titles == [] then "" else titles[0].value),
      Map(Every(entries, "creator"), credit), Map(Every(entries, "contributor"), credit),
      languages, if languages == [] then "" else languages[0],
      Map(Every(entries, "subject"), (e: MetaEntry) => e.value),
      Map(Every(entries, "identifier"), (e: MetaEntry) => Identifier(e.value, e.id, e.scheme)),
      [First(entries, "publisher"), First(entries, "description"), First(entries, "date"), First(entries, "dcterms:modified"),
       First(entries, "rights"), First(entries, "source"), First(entries, "type"), First(entries, "format"),
       First(entries, "coverage"), First(entries, "relation")])
  }

  datatype Package = Package(state: State, entries: seq<MetaEntry>, derived: Derived)

  /** What is made of a run at its end. */
  function Finished(r: Result<State, XmlError>): Result<Package, XmlError> {
    match r
    case Err(error) => Err(error)
    case Ok(s) =>
      if !s.sawPackage then Err(NotAPackage)
      else if s.spine == [] then Err(EmptySpine)
      else
        var entries := Attached(s.entries, s.refinements);
        Ok(Package(s.(entries := entries, refinements := []), entries, Derive(entries)))
  }

  /** The package that a document describes. */
  function Parsed(events: seq<Event>): Result<Package, XmlError> {
    Finished(Run(Initial, events))
  }
}
