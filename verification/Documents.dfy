/** The Document that a parsed book becomes: flat arenas of items linked by reference strings. */
module Documents {
  import opened Outcomes

  /** What every item has: its own reference, its parent's, and those of its children. */
  datatype Item = Item(selfRef: string, parent: Option<string>, children: seq<string>)

  datatype Group = Group(item: Item, name: string, cues: Option<string>)

  datatype Picture = Picture(item: Item, href: string, manifestId: string, mediaType: string, cover: bool)

  /** A table-of-contents entry, and the reference of the chapter group it points at. */
  datatype OutlineEntry = OutlineEntry(title: string, level: nat, target: Option<string>)

  /** A text item may have no variant set; it then has none of the fields either. */
  datatype Document = Document(
    body: Option<Group>, furniture: Option<Group>, groups: seq<Group>, texts: seq<Option<Item>>,
    pictures: seq<Picture>, tables: seq<Item>, outline: seq<OutlineEntry>)

  const BODY := "#/body"
  const FURNITURE := "#/furniture"
}
