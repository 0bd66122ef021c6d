/** The structural check of src/document_fold.rs, and what exactly it finds. */
module Integrity {
  import opened Documents
  import opened Outcomes

  /** One thing the check looks at: a root, which may be missing, or an arena item, which may be unset. */
  datatype Entry = Root(name: string, found: Option<Item>) | Arena(found: Option<Item>)

  datatype Defect =
    | MissingRoot(name: string)
    | MisnamedRoot(name: string, selfRef: string)
    | UnsetText
    | EmptyRef
    | Repeated(selfRef: string)
    | Orphan(selfRef: string)
    | ChildUnresolved(parent: string, child: string)
    | ParentUnresolved(parent: string, child: string)
    | Unlisted(parent: string, child: string)

  // ----- What a document says -----

  function RootItem(root: Option<Group>): Option<Item> {
    match root
    case None => None
    case Some(group) => Some(group.item)
  }

  function Roots(document: Document): seq<Entry> {
    [Root(BODY, RootItem(document.body)), Root(FURNITURE, RootItem(document.furniture))]
  }

  function GroupEntries(groups: seq<Group>): seq<Entry> {
    seq(|groups|, i requires 0 <= i < |groups| => Arena(Some(groups[i].item)))
  }

  function TextEntries(texts: seq<Option<Item>>): seq<Entry> {
    seq(|texts|, i requires 0 <= i < |texts| => Arena(texts[i]))
  }

  function PictureEntries(pictures: seq<Picture>): seq<Entry> {
    seq(|pictures|, i requires 0 <= i < |pictures| => Arena(Some(pictures[i].item)))
  }

  function TableEntries(tables: seq<Item>): seq<Entry> {
    seq(|tables|, i requires 0 <= i < |tables| => Arena(Some(tables[i])))
  }

  /** Everything in the order of the check. */
  function Entries(document: Document): seq<Entry> {
    Roots(document) + GroupEntries(document.groups) + TextEntries(document.texts)
    + PictureEntries(document.pictures) + TableEntries(document.tables)
  }

  /** The check looks at both roots and at every item of every arena, and at nothing else. */
  lemma EveryItemIsLookedAt(document: Document)
    ensures var entries := Entries(document);
            && (document.body.Some? ==> Root("#/body", Some(document.body.value.item)) in entries)
            && (document.body.None? ==> Root("#/body", None) in entries)
            && (document.furniture.Some? ==> Root("#/furniture", Some(document.furniture.value.item)) in entries)
            && (document.furniture.None? ==> Root("#/furniture", None) in entries)
            && (forall group :: group in document.groups ==> Arena(Some(group.item)) in entries)
            && (forall text :: text in document.texts ==> Arena(text) in entries)
            && (forall picture :: picture in document.pictures ==> Arena(Some(picture.item)) in entries)
            && (forall table :: table in document.tables ==> Arena(Some(table)) in entries)
            && |entries| == 2 + |document.groups| + |document.texts| + |document.pictures| + |document.tables|
  {
    var roots, groups, texts := Roots(document), GroupEntries(document.groups), TextEntries(document.texts);
    var pictures, tables := PictureEntries(document.pictures), TableEntries(document.tables);
    InFive(roots, groups, texts, pictures, tables);
    assert roots[0] in roots && roots[1] in roots;
    forall group | group in document.groups ensures Arena(Some(group.item)) in groups {
      var i :| 0 <= i < |document.groups| && document.groups[i] == group;
      assert groups[i] == Arena(Some(group.item));
    }
    forall text | text in document.texts ensures Arena(text) in texts {
      var i :| 0 <= i < |document.texts| && document.texts[i] == text;
      assert texts[i] == Arena(text);
    }
    forall picture | picture in document.pictures ensures Arena(Some(picture.item)) in pictures {
      var i :| 0 <= i < |document.pictures| && document.pictures[i] == picture;
      assert pictures[i] == Arena(Some(picture.item));
    }
    forall table | table in document.tables ensures Arena(Some(table)) in tables {
      var i :| 0 <= i < |document.tables| && document.tables[i] == table;
      assert tables[i] == Arena(Some(table));
    }
  }

  lemma InFive<T>(a: seq<T>, b: seq<T>, c: seq<T>, d: seq<T>, e: seq<T>)
    ensures forall x :: x in a || x in b || x in c || x in d || x in e <==> x in a + b + c + d + e
  {
  }

  /** Whether the entry can be referred to: a root that exists, whatever it calls itself, or an item with a reference. */
  predicate Named(e: Entry) {
    e.found.Some? && (e.Arena? ==> e.found.value.selfRef != "")
  }

  function Name(e: Entry): string
    requires Named(e)
  {
    if e.Root? then e.name else e.found.value.selfRef
  }

  ghost predicate Refers(entries: seq<Entry>, name: string) {
    exists i :: 0 <= i < |entries| && Named(entries[i]) && Name(entries[i]) == name
  }

  /** Some entry called `parent` has `child` among its children. */
  ghost predicate Lists(entries: seq<Entry>, parent: string, child: string) {
    exists i :: 0 <= i < |entries| && Named(entries[i]) && Name(entries[i]) == parent
                && child in entries[i].found.value.children
  }

  /** Some item called `child` names `parent` as its parent. */
  ghost predicate Claims(entries: seq<Entry>, parent: string, child: string) {
    exists i :: 0 <= i < |entries| && IsItem(entries[i]) && entries[i].found.value.selfRef == child
                && entries[i].found.value.parent == Some(parent)
  }

  predicate IsItem(e: Entry) {
    e.Arena? && Named(e)
  }

  /** Two entries share a name, of which the second is an item. */
  ghost predicate NamedTwice(entries: seq<Entry>, name: string) {
    exists i, j :: 0 <= i < j < |entries| && Named(entries[i]) && IsItem(entries[j])
                   && Name(entries[i]) == name && Name(entries[j]) == name
  }

  /** What is wrong with one entry by itself. */
  predicate Flawed(e: Entry, defect: Defect) {
    match defect
    case MissingRoot(name) => e == Root(name, None)
    case MisnamedRoot(name, selfRef) => e.Root? && e.name == name && e.found.Some? && e.found.value.selfRef == selfRef && selfRef != name
    case UnsetText => e == Arena(None)
    case EmptyRef => e.Arena? && e.found.Some? && e.found.value.selfRef == ""
    case Orphan(selfRef) => IsItem(e) && e.found.value.selfRef == selfRef && e.found.value.parent.None?
    case _ => false
  }

  /** What the entries seen so far show to be wrong, links aside. */
  ghost predicate Shown(entries: seq<Entry>, defect: Defect) {
    || (exists i :: 0 <= i < |entries| && Flawed(entries[i], defect))
    || (defect.Repeated? && NamedTwice(entries, defect.selfRef))
  }

  /** What is wrong with the links. */
  ghost predicate Dangling(entries: seq<Entry>, defect: Defect) {
    match defect
    case ChildUnresolved(parent, child) => Lists(entries, parent, child) && !Refers(entries, child)
    case ParentUnresolved(parent, child) => Claims(entries, parent, child) && !Refers(entries, parent)
    case Unlisted(parent, child) => Claims(entries, parent, child) && Refers(entries, parent) && !Lists(entries, parent, child)
    case _ => false
  }

  ghost predicate Wrong(document: Document, defect: Defect) {
    Shown(Entries(document), defect) || Dangling(Entries(document), defect)
  }

  // ----- One entry more -----

  lemma OneMoreName(entries: seq<Entry>, e: Entry, name: string)
    ensures Refers(entries + [e], name) <==> Refers(entries, name) || (Named(e) && Name(e) == name)
  {
    var all := entries + [e];
    assert all[|entries|] == e;
    if i :| 0 <= i < |entries| && Named(entries[i]) && Name(entries[i]) == name {
      assert all[i] == entries[i];
    }
  }

  lemma OneMoreList(entries: seq<Entry>, e: Entry, parent: string, child: string)
    ensures Lists(entries + [e], parent, child)
            <==> Lists(entries, parent, child) || (Named(e) && Name(e) == parent && child in e.found.value.children)
  {
    var all := entries + [e];
    assert all[|entries|] == e;
    if i :| 0 <= i < |entries| && Named(entries[i]) && Name(entries[i]) == parent && child in entries[i].found.value.children {
      assert all[i] == entries[i];
    }
  }

  lemma OneMoreClaim(entries: seq<Entry>, e: Entry, parent: string, child: string)
    ensures Claims(entries + [e], parent, child)
            <==> Claims(entries, parent, child)
                 || (IsItem(e) && e.found.value.selfRef == child && e.found.value.parent == Some(parent))
  {
    var all := entries + [e];
    assert all[|entries|] == e;
    if i :| 0 <= i < |entries| && IsItem(entries[i]) && entries[i].found.value.selfRef == child
            && entries[i].found.value.parent == Some(parent) {
      assert all[i] == entries[i];
    }
  }

  lemma OneMoreFlaw(entries: seq<Entry>, e: Entry, defect: Defect)
    ensures (exists i :: 0 <= i < |entries + [e]| && Flawed((entries + [e])[i], defect))
            <==> (exists i :: 0 <= i < |entries| && Flawed(entries[i], defect)) || Flawed(e, defect)
  {
    var all := entries + [e];
    assert all[|entries|] == e;
    if i :| 0 <= i < |entries| && Flawed(entries[i], defect) {
      assert all[i] == entries[i];
    }
  }

  lemma OneMoreNamedTwice(entries: seq<Entry>, e: Entry, name: string)
    ensures NamedTwice(entries + [e], name)
            <==> NamedTwice(entries, name) || (IsItem(e) && Name(e) == name && Refers(entries, name))
  {
    var all := entries + [e];
    assert all[|entries|] == e;
    if NamedTwice(entries, name) {
      var i, j :| 0 <= i < j < |entries| && Named(entries[i]) && IsItem(entries[j])
                  && Name(entries[i]) == name && Name(entries[j]) == name;
      assert all[i] == entries[i] && all[j] == entries[j];
    }
    if IsItem(e) && Name(e) == name && Refers(entries, name) {
      var i :| 0 <= i < |entries| && Named(entries[i]) && Name(entries[i]) == name;
      assert all[i] == entries[i] && i < |entries|;
    }
    if NamedTwice(all, name) {
      var i, j :| 0 <= i < j < |all| && Named(all[i]) && IsItem(all[j]) && Name(all[i]) == name && Name(all[j]) == name;
      assert all[i] == entries[i];
      if j < |entries| {
        assert all[j] == entries[j];
      }
    }
  }

  /** What one more entry shows to be wrong. */
  ghost predicate NewlyShown(entries: seq<Entry>, e: Entry, defect: Defect) {
    Flawed(e, defect) || (defect.Repeated? && IsItem(e) && Name(e) == defect.selfRef && Refers(entries, defect.selfRef))
  }

  lemma OneMoreShown(entries: seq<Entry>, e: Entry, defect: Defect)
    ensures Shown(entries + [e], defect) <==> Shown(entries, defect) || NewlyShown(entries, e, defect)
  {
    OneMoreFlaw(entries, e, defect);
    if defect.Repeated? {
      OneMoreNamedTwice(entries, e, defect.selfRef);
    }
  }

  // ----- The check -----

  /** What the check has collected. */
  class Inventory {
    var errors: seq<Defect>
    var refs: set<string>
    var down: seq<(string, string)>
    var up: seq<(string, string)>
    ghost var seen: seq<Entry>

    /** The collections hold what the entries seen say. */
    ghost predicate Valid()
      reads this
    {
      && (forall name :: name in refs <==> Refers(seen, name))
      && (forall parent, child :: (parent, child) in down <==> Lists(seen, parent, child))
      && (forall parent, child :: (child, parent) in up <==> Claims(seen, parent, child))
      && (forall defect :: defect in errors <==> Shown(seen, defect))
    }

    constructor ()
      ensures Valid() && seen == []
    {
      errors, refs, down, up, seen := [], {}, [], [], [];
    }

    /** The inventory takes in one more entry, given what is new about it. */
    ghost method See(e: Entry, was: seq<Entry>)
      requires seen == was
      requires forall name :: name in refs <==> Refers(was, name) || (Named(e) && Name(e) == name)
      requires forall parent, child :: (parent, child) in down
                 <==> Lists(was, parent, child) || (Named(e) && Name(e) == parent && child in e.found.value.children)
      requires forall parent, child :: (child, parent) in up
                 <==> Claims(was, parent, child)
                      || (IsItem(e) && e.found.value.selfRef == child && e.found.value.parent == Some(parent))
      requires forall defect :: defect in errors <==> Shown(was, defect) || NewlyShown(was, e, defect)
      modifies this`seen
      ensures Valid() && seen == was + [e]
    {
      forall name ensures Refers(was + [e], name) <==> name in refs {
        OneMoreName(was, e, name);
      }
      forall parent, child ensures Lists(was + [e], parent, child) <==> (parent, child) in down {
        OneMoreList(was, e, parent, child);
      }
      forall parent, child ensures Claims(was + [e], parent, child) <==> (child, parent) in up {
        OneMoreClaim(was, e, parent, child);
      }
      forall defect ensures Shown(was + [e], defect) <==> defect in errors {
        OneMoreShown(was, e, defect);
      }
      seen := was + [e];
    }

    /** Note every link from an item to what it lists. */
    method Edges(parent: string, children: seq<string>)
      modifies this`down
      ensures forall edge :: edge in down <==> edge in old(down) || (edge.0 == parent && edge.1 in children)
    {
      for i := 0 to |children|
        invariant forall edge :: edge in down <==> edge in old(down) || (edge.0 == parent && edge.1 in children[..i])
      {
        down := down + [(parent, children[i])];
      }
    }

    /** Record one of the two roots. */
    method RecordRoot(name: string, group: Option<Group>)
      requires Valid() && !Refers(seen, name)
      modifies this
      ensures Valid() && seen == old(seen) + [Root(name, RootItem(group))]
    {
      ghost var e := Root(name, RootItem(group));
      match group {
        case None =>
          errors := errors + [MissingRoot(name)];
        case Some(root) =>
          refs := refs + {name};
          if root.item.selfRef != name {
            errors := errors + [MisnamedRoot(name, root.item.selfRef)];
          }
          Edges(name, root.item.children);
      }
      See(e, seen);
    }

    /** Note an item of one of the arenas: its name, its links, and what is wrong with it alone. */
    method Record(item: Item)
      requires Valid()
      modifies this
      ensures Valid() && seen == old(seen) + [Arena(Some(item))]
    {
      ghost var e := Arena(Some(item));
      if item.selfRef == "" {
        errors := errors + [EmptyRef];
      } else {
        if item.selfRef in refs {
          errors := errors + [Repeated(item.selfRef)];
        }
        refs := refs + {item.selfRef};
        Edges(item.selfRef, item.children);
        match item.parent {
          case Some(parent) => up := up + [(item.selfRef, parent)];
          case None => errors := errors + [Orphan(item.selfRef)];
        }
      }
      See(e, seen);
    }

    method RecordUnset()
      requires Valid()
      modifies this
      ensures Valid() && seen == old(seen) + [Arena(None)]
    {
      errors := errors + [UnsetText];
      See(Arena(None), seen);
    }

    /** Resolve every link now that every reference is known. */
    method Finish() returns (found: seq<Defect>)
      requires Valid()
      ensures forall defect :: defect in found <==> Shown(seen, defect) || Dangling(seen, defect)
    {
      found := errors;
      for i := 0 to |down|
        invariant forall defect :: defect in found <==> defect in errors || DownDefect(down[..i], defect)
      {
        var (parent, child) := down[i];
        assert down[..i + 1] == down[..i] + [(parent, child)];
        if child !in refs {
          found := found + [ChildUnresolved(parent, child)];
        }
      }
      assert down[..|down|] == down;
      ghost var before := found;
      for i := 0 to |up|
        invariant forall defect :: defect in found <==> defect in before || UpDefect(up[..i], defect)
      {
        var (child, parent) := up[i];
        assert up[..i + 1] == up[..i] + [(child, parent)];
        if parent !in refs {
          found := found + [ParentUnresolved(parent, child)];
        } else if (parent, child) !in down {
          found := found + [Unlisted(parent, child)];
        }
      }
      assert up[..|up|] == up;
    }

    ghost predicate DownDefect(edges: seq<(string, string)>, defect: Defect)
      reads this
    {
      defect.ChildUnresolved? && (defect.parent, defect.child) in edges && defect.child !in refs
    }

    ghost predicate UpDefect(edges: seq<(string, string)>, defect: Defect)
      reads this
    {
      || (defect.ParentUnresolved? && (defect.child, defect.parent) in edges && defect.parent !in refs)
      || (defect.Unlisted? && (defect.child, defect.parent) in edges && defect.parent in refs
          && (defect.parent, defect.child) !in down)
    }

    method RecordGroups(groups: seq<Group>)
      requires Valid()
      modifies this
      ensures Valid() && seen == old(seen) + GroupEntries(groups)
    {
      assert seen == seen + GroupEntries(groups[..0]);
      for i := 0 to |groups|
        invariant Valid() && seen == old(seen) + GroupEntries(groups[..i])
      {
        assert GroupEntries(groups[..i + 1]) == GroupEntries(groups[..i]) + [Arena(Some(groups[i].item))];
        Record(groups[i].item);
      }
      assert groups[..|groups|] == groups;
    }

    method RecordTexts(texts: seq<Option<Item>>)
      requires Valid()
      modifies this
      ensures Valid() && seen == old(seen) + TextEntries(texts)
    {
      assert seen == seen + TextEntries(texts[..0]);
      for i := 0 to |texts|
        invariant Valid() && seen == old(seen) + TextEntries(texts[..i])
      {
        assert TextEntries(texts[..i + 1]) == TextEntries(texts[..i]) + [Arena(texts[i])];
        match texts[i] {
          case None => RecordUnset();
          case Some(item) => Record(item);
        }
      }
      assert texts[..|texts|] == texts;
    }

    method RecordPictures(pictures: seq<Picture>)
      requires Valid()
      modifies this
      ensures Valid() && seen == old(seen) + PictureEntries(pictures)
    {
      assert seen == seen + PictureEntries(pictures[..0]);
      for i := 0 to |pictures|
        invariant Valid() && seen == old(seen) + PictureEntries(pictures[..i])
      {
        assert PictureEntries(pictures[..i + 1]) == PictureEntries(pictures[..i]) + [Arena(Some(pictures[i].item))];
        Record(pictures[i].item);
      }
      assert pictures[..|pictures|] == pictures;
    }

    method RecordTables(tables: seq<Item>)
      requires Valid()
      modifies this
      ensures Valid() && seen == old(seen) + TableEntries(tables)
    {
      assert seen == seen + TableEntries(tables[..0]);
      for i := 0 to |tables|
        invariant Valid() && seen == old(seen) + TableEntries(tables[..i])
      {
        assert TableEntries(tables[..i + 1]) == TableEntries(tables[..i]) + [Arena(Some(tables[i]))];
        Record(tables[i]);
      }
      assert tables[..|tables|] == tables;
    }
  }

  /** Everything structurally wrong with a document. */
  method IntegrityErrors(document: Document) returns (found: seq<Defect>)
    ensures forall defect :: defect in found <==> Wrong(document, defect)
    ensures found == [] <==> Sound(Entries(document))
  {
    var inventory := new Inventory();
    inventory.RecordRoot(BODY, document.body);
    assert inventory.seen == [Root(BODY, RootItem(document.body))];
    inventory.RecordRoot(FURNITURE, document.furniture);
    assert inventory.seen == Roots(document);
    inventory.RecordGroups(document.groups);
    inventory.RecordTexts(document.texts);
    inventory.RecordPictures(document.pictures);
    inventory.RecordTables(document.tables);
    found := inventory.Finish();
    CleanExactlyWhenSound(document);
    if found != [] {
      assert found[0] in found;
    }
  }

  // ----- What a clean document is -----

  /**
   * Every entry is there under its own name, every name is used once, every child
   * resolves, and every item has a parent that lists it.
   */
  ghost predicate Sound(entries: seq<Entry>) {
    && (forall i :: 0 <= i < |entries| ==> Named(entries[i]) && entries[i].found.value.selfRef == Name(entries[i]))
    && (forall i, j :: 0 <= i < j < |entries| ==> Name(entries[i]) != Name(entries[j]))
    && (forall i, child :: 0 <= i < |entries| && child in entries[i].found.value.children ==> Refers(entries, child))
    && (forall i :: 0 <= i < |entries| && entries[i].Arena? ==>
          entries[i].found.value.parent.Some?
          && Lists(entries, entries[i].found.value.parent.value, entries[i].found.value.selfRef))
  }

  lemma SoundIsClean(document: Document, defect: Defect)
    requires Sound(Entries(document))
    ensures !Wrong(document, defect)
  {
  }

  lemma CleanIsSound(document: Document)
    requires forall defect :: !Wrong(document, defect)
    ensures Sound(Entries(document))
  {
    var entries := Entries(document);
    forall i | 0 <= i < |entries|
      ensures Named(entries[i]) && entries[i].found.value.selfRef == Name(entries[i])
    {
      EntryIsNamed(document, i);
    }
    forall i, j | 0 <= i < j < |entries| ensures Name(entries[i]) != Name(entries[j]) {
      NamesDiffer(document, i, j);
    }
    forall i, child | 0 <= i < |entries| && child in entries[i].found.value.children ensures Refers(entries, child) {
      assert Lists(entries, Name(entries[i]), child);
      assert !Wrong(document, ChildUnresolved(Name(entries[i]), child));
    }
    forall i | 0 <= i < |entries| && entries[i].Arena?
      ensures entries[i].found.value.parent.Some?
              && Lists(entries, entries[i].found.value.parent.value, entries[i].found.value.selfRef)
    {
      ParentLists(document, i);
    }
  }

  lemma NotFlawed(document: Document, i: nat, defect: Defect)
    requires i < |Entries(document)| && forall defect :: !Wrong(document, defect)
    ensures !Flawed(Entries(document)[i], defect)
  {
    assert !Wrong(document, defect);
  }

  lemma EntryIsNamed(document: Document, i: nat)
    requires i < |Entries(document)| && forall defect :: !Wrong(document, defect)
    ensures var e := Entries(document)[i]; Named(e) && e.found.value.selfRef == Name(e)
  {
    var e := Entries(document)[i];
    var name := if e.Root? then e.name else "";
    NotFlawed(document, i, MissingRoot(name));
    NotFlawed(document, i, UnsetText);
    NotFlawed(document, i, EmptyRef);
    NotFlawed(document, i, MisnamedRoot(name, e.found.value.selfRef));
  }

  lemma NamesDiffer(document: Document, i: nat, j: nat)
    requires i < j < |Entries(document)| && forall defect :: !Wrong(document, defect)
    ensures var entries := Entries(document);
            Named(entries[i]) && Named(entries[j]) && Name(entries[i]) != Name(entries[j])
  {
    var entries := Entries(document);
    EntryIsNamed(document, i);
    EntryIsNamed(document, j);
    if entries[j].Root? {
      assert i == 0 && j == 1;
      assert entries[0] == Roots(document)[0] && entries[1] == Roots(document)[1];
    } else {
      var name := Name(entries[i]);
      assert !Wrong(document, Repeated(name));
      assert !NamedTwice(entries, name);
    }
  }

  lemma ParentLists(document: Document, i: nat)
    requires i < |Entries(document)| && Entries(document)[i].Arena? && forall defect :: !Wrong(document, defect)
    ensures var entries := Entries(document);
            Named(entries[i]) && entries[i].found.value.parent.Some?
            && Lists(entries, entries[i].found.value.parent.value, entries[i].found.value.selfRef)
  {
    var entries := Entries(document);
    EntryIsNamed(document, i);
    var item := entries[i].found.value;
    NotFlawed(document, i, Orphan(item.selfRef));
    var parent := item.parent.value;
    assert Claims(entries, parent, item.selfRef);
    assert !Wrong(document, ParentUnresolved(parent, item.selfRef));
    assert !Wrong(document, Unlisted(parent, item.selfRef));
  }

  /** The check finds nothing in exactly the sound documents. */
  lemma CleanExactlyWhenSound(document: Document)
    ensures (forall defect :: !Wrong(document, defect)) <==> Sound(Entries(document))
  {
    if forall defect :: !Wrong(document, defect) {
      CleanIsSound(document);
    }
    if Sound(Entries(document)) {
      forall defect ensures !Wrong(document, defect) {
        SoundIsClean(document, defect);
      }
    }
  }

  lemma ListedTwiceIsSound(entries: seq<Entry>)
    requires entries == [Root(BODY, Some(Item(BODY, None, ["#/tables/0", "#/tables/1", "#/tables/0"]))),
                         Root(FURNITURE, Some(Item(FURNITURE, None, []))),
                         Arena(Some(Item("#/tables/0", Some(BODY), []))),
                         Arena(Some(Item("#/tables/1", Some(BODY), ["#/tables/0"])))]
    ensures Sound(entries)
  {
    forall i, child | 0 <= i < |entries| && child in entries[i].found.value.children ensures Refers(entries, child) {
      assert child == Name(entries[2]) || child == Name(entries[3]);
    }
    assert "#/tables/0"[9] != "#/tables/1"[9];
    assert Name(entries[0]) == BODY && "#/tables/0" in entries[0].found.value.children && "#/tables/1" in entries[0].found.value.children;
    assert Lists(entries, BODY, "#/tables/0") && Lists(entries, BODY, "#/tables/1");
  }

  /** A clean document need not be a tree: an item may be listed twice, and by an item that is not its parent. */
  lemma CleanNeedNotBeATree(document: Document)
    requires document == Document(
      Some(Group(Item(BODY, None, ["#/tables/0", "#/tables/1", "#/tables/0"]), "", None)),
      Some(Group(Item(FURNITURE, None, []), "", None)), [], [], [],
      [Item("#/tables/0", Some(BODY), []), Item("#/tables/1", Some(BODY), ["#/tables/0"])], [])
    ensures forall defect :: !Wrong(document, defect)
  {
    assert Entries(document) == [Root(BODY, Some(document.body.value.item)), Root(FURNITURE, Some(document.furniture.value.item)),
                                 Arena(Some(document.tables[0])), Arena(Some(document.tables[1]))];
    ListedTwiceIsSound(Entries(document));
    CleanExactlyWhenSound(document);
  }
}
