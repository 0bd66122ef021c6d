/** The parser object of src/opf.rs, which holds the state and is handed every event. */
module PackageParser {
  import opened Outcomes
  import opened Package
  import opened Text
  import opened Xml

  class PackageParser {
    var sawPackage: bool
    var version: string
    var uniqueId: string
    var tocId: string
    var coverId: string
    var section: Section
    var depth: nat
    var sectionDepth: nat
    var collecting: Option<Pending>
    var text: string
    var entries: seq<MetaEntry>
    var refinements: seq<(string, Refinement)>
    var manifest: seq<ManifestItem>
    var spine: seq<SpineItem>

    function View(): State
      reads this
    {
      State(sawPackage, version, uniqueId, tocId, coverId, section, depth, sectionDepth, collecting, text,
            entries, refinements, manifest, spine)
    }

    constructor ()
      ensures View() == Initial
    {
      sawPackage, version, uniqueId, tocId, coverId := false, "", "", "", "";
      section, depth, sectionDepth, collecting, text := Outside, 0, 0, None, "";
      entries, refinements, manifest, spine := [], [], [], [];
    }

    /** Handle one event. */
    method Handle(event: Event) returns (ok: bool)
      modifies this
      ensures ok <==> Step(old(View()), event).Ok?
      ensures ok ==> Step(old(View()), event) == Ok(View())
    {
      ok := true;
      match event {
        case Start(name, attrs) => ok := Open(name, attrs, false);
        case Empty(name, attrs) => ok := Open(name, attrs, true);
        case End(name) => Close(name);
        case Text(piece) =>
          if collecting.Some? {
            text := text + piece;
          }
        case Other =>
      }
    }

    /** An element begins, or begins and ends at once; the first of all has to be `package`. */
    method Open(name: string, attrs: seq<Attr>, empty: bool) returns (ok: bool)
      modifies this
      ensures ok <==> Opened(old(View()), name, attrs, empty).Ok?
      ensures ok ==> Opened(old(View()), name, attrs, empty) == Ok(View())
    {
      if !empty {
        depth := depth + 1;
      }
      if !sawPackage {
        if name != "package" {
          return false;
        }
        sawPackage := true;
        version, uniqueId := Attribute(attrs, "version"), Attribute(attrs, "unique-identifier");
        return true;
      }
      match section {
        case Outside =>
          if !empty {
            if name == "metadata" {
              Enter(Metadata);
            } else if name == "manifest" {
              Enter(Manifest);
            } else if name == "spine" {
              tocId := Attribute(attrs, "toc");
              Enter(Spine);
            }
          }
        case Metadata =>
          OpenMetadata(name, attrs, empty);
        case Manifest =>
          if name == "item" {
            manifest := manifest + [ItemOf(attrs)];
          }
        case Spine =>
          if name == "itemref" {
            spine := spine + [SpineItem(Attribute(attrs, "idref"), Attribute(attrs, "linear") != "no")];
          }
      }
      return true;
    }

    /** A section begins here, and ends where the depth is this again. */
    method Enter(entered: Section)
      modifies this`section, this`sectionDepth
      ensures View() == Entered(old(View()), entered)
    {
      section, sectionDepth := entered, depth;
    }

    /** Handle a start tag inside the metadata. */
    method OpenMetadata(name: string, attrs: seq<Attr>, empty: bool)
      modifies this`coverId, this`text, this`collecting, this`entries, this`refinements
      ensures View() == OpenedMetadata(old(View()), name, attrs, empty)
    {
      match Read(name, attrs) {
        case Ignored =>
        case Cover(content) =>
          if content != "" && coverId == "" {
            coverId := content;
          }
        case Collects(pending) =>
          text := "";
          if empty {
            Store(pending, "");
          } else {
            collecting := Some(pending);
          }
      }
    }

    /** An element ends, and with it what it collected or the section it began. */
    method Close(name: string)
      modifies this
      ensures View() == Closed(old(View()), name)
    {
      FinishCollecting(name);
      if section != Outside && depth == sectionDepth {
        section := Outside;
      }
      depth := if depth == 0 then 0 else depth - 1;
    }

    /** File the element being collected, if this is its end tag. */
    method FinishCollecting(name: string)
      modifies this`collecting, this`text, this`entries, this`refinements
      ensures View() == Filed(old(View()), name)
    {
      if collecting.Some? && collecting.value.local == name {
        var pending, value := collecting.value, Trim(text);
        collecting, text := None, "";
        Store(pending, value);
      }
    }

    /** An element that ended becomes an entry or joins the refinements that wait. */
    method Store(pending: Pending, value: string)
      modifies this`entries, this`refinements
      ensures View() == Stored(old(View()), pending, value)
    {
      if pending.target == "" {
        entries := entries + [pending.entry.(value := value)];
      } else {
        refinements := refinements + [(pending.target, Refinement(pending.entry.element, value, pending.entry.scheme))];
      }
    }

    /** Give every refinement that waits to the first entry with the identifier it names. */
    method FinishMetadata()
      modifies this`entries, this`refinements
      ensures entries == Attached(old(entries), old(refinements)) && refinements == []
    {
      var held := refinements;
      refinements := [];
      for i := 0 to |held|
        invariant entries == Attached(old(entries), held[..i]) && refinements == []
      {
        var k := Find(held[i].0);
        if k.Some? {
          entries := entries[k.value := entries[k.value].(refinements := entries[k.value].refinements + [held[i].1])];
        }
        assert held[..i + 1][..i] == held[..i];
      }
      assert held[..|held|] == held;
    }

    /** The first entry with this identifier. */
    method Find(id: string) returns (found: Option<nat>)
      ensures found == FirstWithId(entries, id)
    {
      var k := 0;
      while k < |entries|
        invariant k <= |entries| && forall j :: 0 <= j < k ==> entries[j].id != id
      {
        if entries[k].id == id {
          return Some(k);
        }
        k := k + 1;
      }
      return None;
    }
  }

  /** Parse a package document's events. */
  method ParsePackage(events: seq<Event>) returns (parsed: Result<Package, XmlError>)
    ensures parsed == Parsed(events)
  {
    var parser := new PackageParser();
    for i := 0 to |events|
      invariant fresh(parser)
      invariant Run(Initial, events[..i]) == Ok(parser.View())
    {
      RunNext(events, i);
      var ok := parser.Handle(events[i]);
      if !ok {
        FailedRun(events, i);
        return Err(NotAPackage);
      }
    }
    assert events[..|events|] == events;
    if !parser.sawPackage {
      return Err(NotAPackage);
    }
    if parser.spine == [] {
      return Err(EmptySpine);
    }
    parser.FinishMetadata();
    return Ok(Package(parser.View(), parser.entries, Derive(parser.entries)));
  }

  lemma RunNext(events: seq<Event>, i: nat)
    requires i < |events|
    ensures Run(Initial, events[..i + 1])
            == match Run(Initial, events[..i]) case Err(error) => Err(error) case Ok(before) => Step(before, events[i])
  {
    assert events[..i + 1][..i] == events[..i];
  }

  /** A run that has failed stays failed. */
  lemma {:induction false} FailedRun(events: seq<Event>, i: nat)
    requires i < |events| && Run(Initial, events[..i + 1]) == Err(NotAPackage)
    ensures Run(Initial, events) == Err(NotAPackage)
    decreases |events|
  {
    var shorter := events[..|events| - 1];
    if i < |shorter| {
      assert events[..i + 1] == shorter[..i + 1];
      FailedRun(shorter, i);
    } else {
      assert events[..i + 1] == events;
    }
  }
}
