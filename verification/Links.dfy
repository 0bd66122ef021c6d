/** Where the links of a table of contents lead, fragment and all, told from the link as it is written. */
module Links {
  import opened DotSegments
  import opened Href
  import opened Nav
  import opened NavMarkup
  import opened NavRoundTrip
  import opened NavTree
  import opened Outcomes
  import opened Text

  /** A link that cannot be resolved to an archive path, its fragment aside. */
  predicate LeadsNowhere(source: string, path: string, lossy: string -> string) {
    || path == "" || |path| > 1024
    || IsAbsoluteUri(path)
    || Normalized(ParentDir(source), PercentDecoded(path, lossy)).Err?
  }

  lemma PathAlone(path: string)
    requires '#' !in path
    ensures SplitOnce(path, '#') == None && Split(path, '#') == [path]
  {
  }

  /** A link without a fragment is the path that it normalizes to, or nothing. */
  lemma LinkWithoutFragment(source: string, path: string, lossy: string -> string)
    requires '#' !in path
    ensures LeadsNowhere(source, path, lossy) ==> Resolver(source, lossy)(path) == ""
    ensures !LeadsNowhere(source, path, lossy) ==>
              Resolver(source, lossy)(path) == Normalized(ParentDir(source), PercentDecoded(path, lossy)).value
  {
    PathAlone(path);
  }

  /**
   * A fragment is cut off at the first mark, and put back behind the path that the rest
   * leads to; an empty one adds nothing, and one behind a link that leads nowhere is lost.
   */
  lemma FragmentIsPutBack(source: string, path: string, fragment: string, lossy: string -> string)
    requires '#' !in path
    ensures var link, bare := Resolver(source, lossy)(path + ['#'] + fragment), Resolver(source, lossy)(path);
            && (LeadsNowhere(source, path, lossy) ==> link == "")
            && (!LeadsNowhere(source, path, lossy) ==> link == if fragment == "" then bare else bare + ['#'] + fragment)
  {
    SplitOnceAt(path, '#', fragment);
    PathAlone(path);
  }

  /** A link that is only a fragment points into the table of contents itself, and leads nowhere. */
  lemma BareFragment(source: string, fragment: string, lossy: string -> string)
    ensures Resolver(source, lossy)("#" + fragment) == ""
  {
    FragmentIsPutBack(source, "", fragment, lossy);
    assert "" + ['#'] + fragment == "#" + fragment;
  }

  /** A link to a file beside the table of contents, in whatever directory that stands. */
  lemma FileBeside(source: string, name: string, fragment: string, lossy: string -> string)
    requires IsPlain(name) && |name| + |ParentDir(source)| + 1 <= 1024
    ensures Resolver(source, lossy)(name) == InDirectory(ParentDir(source), name)
    ensures Resolver(source, lossy)(name + ['#'] + fragment)
            == if fragment == "" then InDirectory(ParentDir(source), name)
               else InDirectory(ParentDir(source), name) + ['#'] + fragment
  {
    PlainLink(source, name, lossy);
    assert InDirectory(ParentDir(source), name) != "";
    FragmentIsPutBack(source, name, fragment, lossy);
  }

  /** The directory of `dir/file` is `dir`, so its links to a plain name lead to `dir/name`. */
  lemma FileInTheSameDirectory(dir: string, file: string, name: string, fragment: string, lossy: string -> string)
    requires dir != "" && '/' !in file && IsPlain(name) && fragment != "" && |name| + |dir| + 1 <= 1024
    ensures Resolver(dir + (['/'] + file), lossy)(name + ['#'] + fragment) == dir + (['/'] + name) + ['#'] + fragment
  {
    LastSlash(dir, file);
    FileBeside(dir + (['/'] + file), name, fragment, lossy);
  }

  function WithFragment(path: string, fragment: string): string {
    if fragment == "" then path else path + ['#'] + fragment
  }

  lemma Tail(path: string, fragment: string)
    ensures WithFragment(path, fragment)[|path|..] == if fragment == "" then "" else ['#'] + fragment
  {
  }

  lemma FragmentsDiffer(path: string, one: string, other: string)
    requires one != other
    ensures WithFragment(path, one) != WithFragment(path, other)
  {
    Tail(path, one);
    Tail(path, other);
    assert one != "" ==> (['#'] + one)[1..] == one;
    assert other != "" ==> (['#'] + other)[1..] == other;
  }

  /** Two links into one file that differ in their fragments are read differently. */
  lemma FragmentsTellApart(source: string, path: string, one: string, other: string, lossy: string -> string)
    requires '#' !in path && !LeadsNowhere(source, path, lossy) && one != other
    ensures Resolver(source, lossy)(path + ['#'] + one) != Resolver(source, lossy)(path + ['#'] + other)
  {
    FragmentIsPutBack(source, path, one, lossy);
    FragmentIsPutBack(source, path, other, lossy);
    FragmentsDiffer(Resolver(source, lossy)(path), one, other);
  }

  // ----- In a table of contents -----

  lemma {:induction false} TopEntries(items: seq<Item>, depth: nat, resolve: string -> string, i: nat)
    requires i < |items|
    ensures |Faithful(items, depth, resolve)| == |items|
    ensures Faithful(items, depth, resolve)[i].href == NavMarkup.Target(items[i], "", resolve)
    ensures Faithful(items, depth, resolve)[i].children == Faithful(items[i].children, depth + 1, resolve)
  {
    if i > 0 {
      TopEntries(items[1..], depth, resolve, i - 1);
    } else if |items| > 1 {
      TopEntries(items[1..], depth, resolve, 0);
    }
  }

  /** The entry that the positions of `path` lead to, from the top down. */
  function EntryAt(items: seq<Item>, path: seq<nat>): Option<Item> {
    if path == [] || path[0] >= |items| then None
    else if |path| == 1 then Some(items[path[0]])
    else EntryAt(items[path[0]].children, path[1..])
  }

  function PointAt(points: seq<NavPoint>, path: seq<nat>): Option<NavPoint> {
    if path == [] || path[0] >= |points| then None
    else if |path| == 1 then Some(points[path[0]])
    else PointAt(points[path[0]].children, path[1..])
  }

  lemma {:induction false} EntryIsFaithful(items: seq<Item>, depth: nat, resolve: string -> string, path: seq<nat>)
    requires EntryAt(items, path).Some?
    ensures PointAt(Faithful(items, depth, resolve), path).Some?
    ensures PointAt(Faithful(items, depth, resolve), path).value.href == NavMarkup.Target(EntryAt(items, path).value, "", resolve)
    decreases |path|
  {
    TopEntries(items, depth, resolve, path[0]);
    if |path| > 1 {
      EntryIsFaithful(items[path[0]].children, depth + 1, resolve, path[1..]);
    }
  }

  /**
   * In a table of contents of either dialect within the limits, at whatever path it
   * stands: an entry anywhere in it that links to a plain name and a fragment is read with
   * the file of that name in the same directory and the fragment behind it; without a
   * fragment it is that file; and an entry without a link has none.
   */
  lemma LinksAreReadWithTheirFragments(
      dialect: Dialect, doc: Document, source: string, lossy: string -> string, path: seq<nat>, name: string, fragment: string)
    requires IsDocument(dialect, doc) && Levels(doc.items) <= MAX_DEPTH && Count(doc.items) <= MAX_ENTRIES
    requires EntryAt(doc.items, path).Some? && IsPlain(name) && |name| + |ParentDir(source)| + 1 <= 1024
    ensures var read, link := PointAt(Toc(dialect, Print(dialect, doc), Resolver(source, lossy)), path), EntryAt(doc.items, path).value.link;
            && read.Some?
            && (link == None ==> read.value.href == "")
            && (link == Some(name) ==> read.value.href == InDirectory(ParentDir(source), name))
            && (link == Some(name + ['#'] + fragment) && fragment != "" ==>
                  read.value.href == InDirectory(ParentDir(source), name) + ['#'] + fragment)
  {
    BookIsReadBackExactlyWithinLimits(dialect, doc, source, lossy);
    EntryIsFaithful(doc.items, 0, Resolver(source, lossy), path);
    FileBeside(source, name, fragment, lossy);
  }
}
