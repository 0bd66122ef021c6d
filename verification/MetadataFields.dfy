/** What each metadata element says, and which typed fields are read out of the entries in the end. */
module MetadataFields {
  import opened Outcomes
  import opened Package
  import opened Refinements
  import opened Text
  import opened Xml

  // ----- Attributes -----

  /** Whether an attribute is read under a name: its key is the name, or the name behind its first colon. */
  predicate Reads(attr: Attr, name: string) {
    && !("xmlns" <= attr.key)
    && ((attr.key == name && ':' !in name)
        || exists k :: 0 <= k < |attr.key| && attr.key[k] == ':' && attr.key[k + 1..] == name && ':' !in attr.key[..k])
  }

  lemma LocalNameExactlyWhen(key: string, name: string)
    ensures LocalName(key) == name
            <==> (key == name && ':' !in name)
                 || exists k :: 0 <= k < |key| && key[k] == ':' && key[k + 1..] == name && ':' !in key[..k]
  {
    if ':' in key {
      var (head, tail) := SplitOnce(key, ':').value;
      assert key[|head|] == ':' && key[..|head|] == head && key[|head| + 1..] == tail;
      forall k | 0 <= k < |key| && key[k] == ':' && ':' !in key[..k] ensures k == |head| {
      }
    }
  }

  /** The value read is that of the first attribute of that name, or nothing when there is none. */
  lemma {:induction false} AttributeIsFirst(attrs: seq<Attr>, name: string, i: nat)
    ensures i < |attrs| && Reads(attrs[i], name) && (forall j :: 0 <= j < i ==> !Reads(attrs[j], name)) ==>
              Attribute(attrs, name) == attrs[i].value
    ensures (forall j :: 0 <= j < |attrs| ==> !Reads(attrs[j], name)) ==> Attribute(attrs, name) == ""
  {
    if attrs != [] {
      LocalNameExactlyWhen(attrs[0].key, name);
      if !Reads(attrs[0], name) {
        assert forall j :: 1 <= j < |attrs| ==> attrs[j] == attrs[1..][j - 1];
        AttributeIsFirst(attrs[1..], name, if i > 0 then i - 1 else 0);
      }
    }
  }

  // ----- Elements -----

  const DUBLIN_CORE := ["title", "creator", "contributor", "language", "identifier", "publisher", "description", "date",
                        "subject", "rights", "source", "type", "format", "coverage", "relation"]

  /** The cover of an EPUB 2 book is named so, in any case. */
  predicate SpellsCover(name: string) {
    |name| == 5 && forall k :: 0 <= k < 5 ==> name[k] == "cover"[k] || name[k] == "COVER"[k]
  }

  lemma LoweredCover(name: string)
    ensures Lowered(name) == "cover" <==> SpellsCover(name)
  {
    if |name| == 5 {
      assert Lowered(name) == "cover" <==> forall k :: 0 <= k < 5 ==> Lowered(name)[k] == "cover"[k];
    }
  }

  /** A name behind any number of fragment marks. */
  predicate Marked(raw: string, target: string) {
    && |raw| >= |target| && raw[|raw| - |target|..] == target
    && (forall k :: 0 <= k < |raw| - |target| ==> raw[k] == '#') && (target == "" || target[0] != '#')
  }

  lemma {:induction false} MarksAreCut(raw: string, target: string)
    requires Marked(raw, target)
    ensures WithoutMarks(raw) == target
  {
    if |raw| > |target| {
      assert raw[1..][|raw| - 1 - |target|..] == target;
      MarksAreCut(raw[1..], target);
    }
  }

  /**
   * What a metadata element says: one of the Dublin Core is an entry with its own
   * attributes; a `meta` that names the cover says only that; a `meta` with a property is
   * an entry of that name, or, if it names what it is about, a refinement of that; and
   * anything else says nothing.
   */
  lemma ElementSays(meta: Meta, target: string, known: string)
    requires Marked(Attribute(meta.attrs, "refines"), target)
    ensures meta.name in DUBLIN_CORE ==>
              EntryOf(meta) == [MetaEntry(meta.name, ValueOf(meta), Attribute(meta.attrs, "id"), Attribute(meta.attrs, "scheme"),
                                          AttributeRefinements(meta.attrs))]
              && RefinementOf(meta) == [] && CoverWith(meta, known) == known
    ensures meta.name == "meta" && SpellsCover(Attribute(meta.attrs, "name")) ==>
              EntryOf(meta) == [] && RefinementOf(meta) == []
              && CoverWith(meta, known) == if known == "" then Attribute(meta.attrs, "content") else known
    ensures meta.name == "meta" && !SpellsCover(Attribute(meta.attrs, "name")) ==>
              var property := Attribute(meta.attrs, "property");
              && CoverWith(meta, known) == known
              && EntryOf(meta) == (if property == "" || target != "" then []
                                   else [MetaEntry(property, ValueOf(meta), Attribute(meta.attrs, "id"),
                                                   Attribute(meta.attrs, "scheme"), [])])
              && RefinementOf(meta) == (if property == "" || target == "" then []
                                        else [(target, Refinement(property, ValueOf(meta), Attribute(meta.attrs, "scheme")))])
    ensures meta.name !in DUBLIN_CORE && meta.name != "meta" ==>
              EntryOf(meta) == [] && RefinementOf(meta) == [] && CoverWith(meta, known) == known
  {
    LoweredCover(Attribute(meta.attrs, "name"));
    MarksAreCut(Attribute(meta.attrs, "refines"), target);
    assert meta.name in DUBLIN_CORE <==> IsDublinCore(meta.name);
  }

  // ----- Typed fields -----

  /** How many of the first `n` entries are of this element. */
  function Before(entries: seq<MetaEntry>, element: string, n: nat): nat
    requires n <= |entries|
  {
    if n == 0 then 0 else Before(entries, element, n - 1) + if entries[n - 1].element == element then 1 else 0
  }

  lemma {:induction false} BeforeFirst(entries: seq<MetaEntry>, element: string, n: nat)
    requires 0 < n <= |entries|
    ensures Before(entries, element, n)
            == (if entries[0].element == element then 1 else 0) + Before(entries[1..], element, n - 1)
  {
    if n > 1 {
      BeforeFirst(entries, element, n - 1);
    }
  }

  lemma {:induction false} EveryInOrder(entries: seq<MetaEntry>, element: string)
    ensures |Every(entries, element)| == Before(entries, element, |entries|)
    ensures forall i :: 0 <= i < |entries| && entries[i].element == element ==>
              Before(entries, element, i) < |Every(entries, element)|
              && Every(entries, element)[Before(entries, element, i)] == entries[i]
  {
    if entries != [] {
      EveryInOrder(entries[1..], element);
      BeforeFirst(entries, element, |entries|);
      forall i | 0 <= i < |entries| && entries[i].element == element
        ensures Before(entries, element, i) < |Every(entries, element)|
        ensures Every(entries, element)[Before(entries, element, i)] == entries[i]
      {
        if i > 0 {
          BeforeFirst(entries, element, i);
          assert entries[i] == entries[1..][i - 1];
        }
      }
    }
  }

  /** The value of the first refinement of a property, or nothing when there is none. */
  predicate IsRefined(refinements: seq<Refinement>, property: string, value: string) {
    || (value == "" && forall j :: 0 <= j < |refinements| ==> refinements[j].property != property)
    || (exists i :: 0 <= i < |refinements| && refinements[i].property == property && refinements[i].value == value
                    && forall j :: 0 <= j < i ==> refinements[j].property != property)
  }

  lemma {:induction false} RefinedIsFirst(refinements: seq<Refinement>, property: string)
    ensures IsRefined(refinements, property, Refined(refinements, property))
  {
    if refinements != [] && refinements[0].property != property {
      RefinedIsFirst(refinements[1..], property);
      var value := Refined(refinements[1..], property);
      if i :| 0 <= i < |refinements[1..]| && refinements[1..][i].property == property && refinements[1..][i].value == value
              && forall j :: 0 <= j < i ==> refinements[1..][j].property != property {
        assert refinements[i + 1].property == property && refinements[i + 1].value == value;
        assert forall j :: 1 <= j < i + 1 ==> refinements[j] == refinements[1..][j - 1];
      } else {
        assert forall j :: 1 <= j < |refinements| ==> refinements[j] == refinements[1..][j - 1];
      }
    }
  }

  /** The first entry of an element, or nothing. */
  predicate IsFirst(entries: seq<MetaEntry>, element: string, value: string) {
    || (value == "" && forall j :: 0 <= j < |entries| ==> entries[j].element != element)
    || (exists i :: 0 <= i < |entries| && entries[i].element == element && entries[i].value == value
                    && forall j :: 0 <= j < i ==> entries[j].element != element)
  }

  lemma {:induction false} FirstIsFirst(entries: seq<MetaEntry>, element: string)
    ensures IsFirst(entries, element, First(entries, element))
  {
    if entries != [] && entries[0].element != element {
      FirstIsFirst(entries[1..], element);
      assert Every(entries, element) == Every(entries[1..], element);
      var value := First(entries[1..], element);
      if i :| 0 <= i < |entries[1..]| && entries[1..][i].element == element && entries[1..][i].value == value
              && forall j :: 0 <= j < i ==> entries[1..][j].element != element {
        assert entries[i + 1].element == element && entries[i + 1].value == value;
        assert forall j :: 1 <= j < i + 1 ==> entries[j] == entries[1..][j - 1];
      } else {
        assert forall j :: 1 <= j < |entries| ==> entries[j] == entries[1..][j - 1];
      }
    } else if entries != [] {
      assert Every(entries, element)[0] == entries[0];
    }
  }

  /** A list of values holds, in order, one for each entry of an element, made of that entry. */
  ghost predicate Lists<T(!new)>(entries: seq<MetaEntry>, element: string, values: seq<T>, made: (MetaEntry, T) -> bool) {
    && |values| == Before(entries, element, |entries|)
    && forall i :: 0 <= i < |entries| && entries[i].element == element ==>
         Before(entries, element, i) < |values| && made(entries[i], values[Before(entries, element, i)])
  }

  ghost predicate Credits(entry: MetaEntry, credited: Contributor) {
    && credited.name == entry.value
    && IsRefined(entry.refinements, "role", credited.role) && IsRefined(entry.refinements, "file-as", credited.fileAs)
  }

  ghost predicate Entitles(entry: MetaEntry, title: Title) {
    title.value == entry.value && IsRefined(entry.refinements, "title-type", title.titleType)
  }

  lemma Credited(entries: seq<MetaEntry>, element: string)
    ensures Lists(entries, element,
                  Map(Every(entries, element), (e: MetaEntry) =>
                    Contributor(e.value, Refined(e.refinements, "role"), Refined(e.refinements, "file-as"))),
                  (e, c) => Credits(e, c))
  {
    EveryInOrder(entries, element);
    forall i | 0 <= i < |entries|
      ensures IsRefined(entries[i].refinements, "role", Refined(entries[i].refinements, "role"))
      ensures IsRefined(entries[i].refinements, "file-as", Refined(entries[i].refinements, "file-as"))
    {
      RefinedIsFirst(entries[i].refinements, "role");
      RefinedIsFirst(entries[i].refinements, "file-as");
    }
  }

  /** The credited fields and the titles: every entry of the element, in order, with what refines it. */
  lemma CreditedFields(entries: seq<MetaEntry>)
    ensures var derived := Derive(entries);
            && Lists(entries, "creator", derived.creators, (e, c) => Credits(e, c))
            && Lists(entries, "contributor", derived.contributors, (e, c) => Credits(e, c))
  {
    Credited(entries, "creator");
    Credited(entries, "contributor");
  }

  lemma TitleFields(entries: seq<MetaEntry>)
    ensures Lists(entries, "title", Derive(entries).titles, (e, t) => Entitles(e, t))
  {
    EveryInOrder(entries, "title");
    forall i | 0 <= i < |entries|
      ensures IsRefined(entries[i].refinements, "title-type", Refined(entries[i].refinements, "title-type"))
    {
      RefinedIsFirst(entries[i].refinements, "title-type");
    }
  }

  /** The other repeatable fields: every entry of the element, in order. */
  lemma RepeatedFields(entries: seq<MetaEntry>)
    ensures var derived := Derive(entries);
            && Lists(entries, "language", derived.languages, (e: MetaEntry, v: string) => v == e.value)
            && Lists(entries, "subject", derived.subjects, (e: MetaEntry, v: string) => v == e.value)
            && Lists(entries, "identifier", derived.identifiers, (e: MetaEntry, v: Identifier) => v == Identifier(e.value, e.id, e.scheme))
  {
    EveryInOrder(entries, "language");
    EveryInOrder(entries, "subject");
    EveryInOrder(entries, "identifier");
  }

  /** The title of a book is the first that is marked as the main one, or else the first, or nothing. */
  lemma MainTitleIsChosen(entries: seq<MetaEntry>)
    ensures var derived := Derive(entries);
            var titles := derived.titles;
            || (titles == [] && derived.title == "")
            || (exists i :: 0 <= i < |titles| && titles[i].titleType == "main" && derived.title == titles[i].value
                            && forall j :: 0 <= j < i ==> titles[j].titleType != "main")
            || (titles != [] && derived.title == titles[0].value && forall j :: 0 <= j < |titles| ==> titles[j].titleType != "main")
  {
    FirstMain(Derive(entries).titles);
  }

  lemma {:induction false} FirstMain(titles: seq<Title>)
    ensures match MainTitle(titles)
            case None => forall j :: 0 <= j < |titles| ==> titles[j].titleType != "main"
            case Some(value) => exists i :: 0 <= i < |titles| && titles[i].titleType == "main" && value == titles[i].value
                                            && forall j :: 0 <= j < i ==> titles[j].titleType != "main"
  {
    if titles != [] && titles[0].titleType != "main" {
      FirstMain(titles[1..]);
      assert forall j :: 1 <= j < |titles| ==> titles[j] == titles[1..][j - 1];
      if MainTitle(titles[1..]).Some? {
        var value := MainTitle(titles[1..]).value;
        var i :| 0 <= i < |titles[1..]| && titles[1..][i].titleType == "main" && value == titles[1..][i].value
                 && forall j :: 0 <= j < i ==> titles[1..][j].titleType != "main";
        assert titles[i + 1].titleType == "main" && value == titles[i + 1].value;
      }
    }
  }

  const SINGLE := ["publisher", "description", "date", "dcterms:modified", "rights", "source", "type", "format", "coverage", "relation"]

  /** The ten single fields and the language: the first entry of the element. */
  lemma SingleFields(entries: seq<MetaEntry>)
    ensures |Derive(entries).singles| == |SINGLE|
    ensures forall k :: 0 <= k < |SINGLE| ==> IsFirst(entries, SINGLE[k], Derive(entries).singles[k])
    ensures IsFirst(entries, "language", Derive(entries).language)
  {
    forall k | 0 <= k < |SINGLE| ensures IsFirst(entries, SINGLE[k], Derive(entries).singles[k]) {
      FirstIsFirst(entries, SINGLE[k]);
    }
    FirstIsFirst(entries, "language");
    assert Derive(entries).language == First(entries, "language");
  }
}
