/** The scan of src/archive.rs: every entry name checked, and no path claimed twice. */
module Scan {
  import opened Archive
  import DotSegments
  import opened Href
  import opened Outcomes
  import opened Text

  /** What the central directory says of an entry; the name may fail to decode. */
  datatype Header = Header(name: Result<string, Status>, encrypted: bool, supported: bool, size: nat, compressed: nat)

  datatype EntryInfo = EntryInfo(index: nat, name: string, declared: nat, stored: nat)

  datatype Found = Found(entries: seq<EntryInfo>, unusable: seq<(string, PathError)>)

  /** How a name is checked: a path, nothing for a directory entry, or why it can be no path. */
  type Check = string -> Result<Option<string>, PathError>

  // ----- What is wrong with an entry -----

  /** A problem of the entry by itself. */
  function Fault(h: Header): Option<Status> {
    if h.name.Err? then Some(h.name.error)
    else if h.encrypted || !h.supported then Some(Unimplemented)
    else None
  }

  /** The path that an entry claims; a directory or an unusable name claims none. */
  function Claim(check: Check, h: Header): Option<string> {
    if h.name.Err? then None
    else
      match check(h.name.value)
      case Ok(path) => path
      case Err(_) => None
  }

  /** Some entry before `k` claims `path`. */
  ghost predicate ClaimedBefore(check: Check, headers: seq<Header>, k: nat, path: string)
    requires k <= |headers|
  {
    exists j :: 0 <= j < k && Claim(check, headers[j]) == Some(path)
  }

  ghost function Problem(check: Check, headers: seq<Header>, k: nat): Option<Status>
    requires k < |headers|
  {
    if Fault(headers[k]).Some? then Fault(headers[k])
    else if Claim(check, headers[k]).Some? && ClaimedBefore(check, headers, k, Claim(check, headers[k]).value) then Some(InvalidArgument)
    else None
  }

  ghost predicate Clean(check: Check, headers: seq<Header>, n: nat)
    requires n <= |headers|
  {
    forall k :: 0 <= k < n ==> Problem(check, headers, k).None?
  }

  // ----- What is found -----

  function EntriesOf(check: Check, headers: seq<Header>, n: nat, ceiling: nat): seq<EntryInfo>
    requires n <= |headers|
  {
    if n == 0 then []
    else
      var h := headers[n - 1];
      EntriesOf(check, headers, n - 1, ceiling)
      + if Claim(check, h).None? then []
        else [EntryInfo(n - 1, Claim(check, h).value, h.size, if h.compressed < ceiling then h.compressed else ceiling)]
  }

  function UnusableOf(check: Check, headers: seq<Header>, n: nat): seq<(string, PathError)>
    requires n <= |headers|
  {
    if n == 0 then []
    else
      var h := headers[n - 1];
      UnusableOf(check, headers, n - 1)
      + if h.name.Ok? && check(h.name.value).Err? then [(h.name.value, check(h.name.value).error)] else []
  }

  /**
   * Check every entry, in order. The scan fails with the problem of the first entry
   * that has one, and otherwise finds every file under the path it claims.
   */
  method ScanEntries(check: Check, headers: seq<Header>, ceiling: nat) returns (r: Result<Found, Status>)
    ensures r.Ok? <==> Clean(check, headers, |headers|)
    ensures r.Ok? ==> r.value == Found(EntriesOf(check, headers, |headers|, ceiling), UnusableOf(check, headers, |headers|))
    ensures r.Err? ==> exists k :: 0 <= k < |headers| && Clean(check, headers, k) && Problem(check, headers, k) == Some(r.error)
  {
    var entries: seq<EntryInfo>, unusable: seq<(string, PathError)> := [], [];
    var claimed: map<string, string> := map[];
    for k := 0 to |headers|
      invariant Clean(check, headers, k)
      invariant entries == EntriesOf(check, headers, k, ceiling) && unusable == UnusableOf(check, headers, k)
      invariant forall path :: path in claimed <==> ClaimedBefore(check, headers, k, path)
    {
      var h := headers[k];
      ghost var problem := Problem(check, headers, k);
      if h.name.Err? {
        assert problem == Some(h.name.error);
        return Err(h.name.error);
      }
      var name := h.name.value;
      if h.encrypted || !h.supported {
        assert problem == Some(Unimplemented);
        return Err(Unimplemented);
      }
      match check(name) {
        case Ok(None) =>
        case Err(error) =>
          unusable := unusable + [(name, error)];
        case Ok(Some(path)) =>
          if path in claimed {
            assert problem == Some(InvalidArgument);
            return Err(InvalidArgument);
          }
          claimed := claimed[path := name];
          entries := entries + [EntryInfo(k, path, h.size, if h.compressed < ceiling then h.compressed else ceiling)];
      }
      ClaimedNext(check, headers, k);
    }
    return Ok(Found(entries, unusable));
  }

  lemma ClaimedNext(check: Check, headers: seq<Header>, k: nat)
    requires k < |headers|
    ensures forall path :: ClaimedBefore(check, headers, k + 1, path)
                           <==> ClaimedBefore(check, headers, k, path) || Claim(check, headers[k]) == Some(path)
  {
    forall path ensures ClaimedBefore(check, headers, k + 1, path)
                        <==> ClaimedBefore(check, headers, k, path) || Claim(check, headers[k]) == Some(path) {
      if Claim(check, headers[k]) == Some(path) {
        assert 0 <= k < k + 1;
      }
    }
  }

  // ----- What a successful scan guarantees -----

  ghost predicate IsFound(entries: seq<EntryInfo>, k: nat, path: string) {
    exists i :: 0 <= i < |entries| && entries[i].index == k && entries[i].name == path
  }

  /** A path is found exactly where it is claimed. */
  lemma {:induction false} FoundWhereClaimed(check: Check, headers: seq<Header>, n: nat, ceiling: nat, k: nat, path: string)
    requires n <= |headers|
    ensures IsFound(EntriesOf(check, headers, n, ceiling), k, path) <==> k < n && Claim(check, headers[k]) == Some(path)
  {
    if n > 0 {
      FoundWhereClaimed(check, headers, n - 1, ceiling, k, path);
      var before, entries := EntriesOf(check, headers, n - 1, ceiling), EntriesOf(check, headers, n, ceiling);
      assert before <= entries;
      if IsFound(before, k, path) {
        var i :| 0 <= i < |before| && before[i].index == k && before[i].name == path;
        assert entries[i] == before[i];
      }
      if k == n - 1 && Claim(check, headers[k]) == Some(path) {
        assert entries[|before|].index == k && entries[|before|].name == path;
      }
    }
  }

  /** The entries are in archive order, before position `n`, and none is stored in more than `ceiling` bytes. */
  ghost predicate InOrder(entries: seq<EntryInfo>, n: nat, ceiling: nat) {
    && (forall i :: 0 <= i < |entries| ==> entries[i].index < n && entries[i].stored <= ceiling)
    && (forall i, j :: 0 <= i < j < |entries| ==> entries[i].index < entries[j].index)
  }

  lemma {:induction false} FoundInOrder(check: Check, headers: seq<Header>, n: nat, ceiling: nat)
    requires n <= |headers|
    ensures InOrder(EntriesOf(check, headers, n, ceiling), n, ceiling)
  {
    if n > 0 {
      FoundInOrder(check, headers, n - 1, ceiling);
      var before := EntriesOf(check, headers, n - 1, ceiling);
      assert InOrder(before, n, ceiling);
      if Claim(check, headers[n - 1]).Some? {
        var h := headers[n - 1];
        var last := EntryInfo(n - 1, Claim(check, h).value, h.size, if h.compressed < ceiling then h.compressed else ceiling);
        InOrderPlus(before, last, n, ceiling);
      }
    }
  }

  lemma InOrderPlus(before: seq<EntryInfo>, last: EntryInfo, n: nat, ceiling: nat)
    requires n > 0 && InOrder(before, n - 1, ceiling) && last.index == n - 1 && last.stored <= ceiling
    ensures InOrder(before + [last], n, ceiling)
  {
  }

  /**
   * After a successful scan the files are in archive order, no two have the same
   * path, and none is stored in more bytes than precede the directory.
   */
  lemma ScannedPathsAreDistinct(check: Check, headers: seq<Header>, ceiling: nat)
    requires Clean(check, headers, |headers|)
    ensures var entries := EntriesOf(check, headers, |headers|, ceiling);
            forall i, j :: 0 <= i < j < |entries| ==>
              entries[i].index < entries[j].index && entries[i].name != entries[j].name
              && entries[i].stored <= ceiling
  {
    var entries := EntriesOf(check, headers, |headers|, ceiling);
    FoundInOrder(check, headers, |headers|, ceiling);
    forall i, j | 0 <= i < j < |entries| ensures entries[i].name != entries[j].name {
      var a, b := entries[i].index, entries[j].index;
      FoundWhereClaimed(check, headers, |headers|, ceiling, a, entries[i].name);
      FoundWhereClaimed(check, headers, |headers|, ceiling, b, entries[j].name);
      assert Problem(check, headers, b).None?;
      assert !ClaimedBefore(check, headers, b, entries[j].name);
    }
  }

  // ----- The archive's own check -----

  /** A path below the root: ordinary names between single slashes, with no way up and no other separator. */
  ghost predicate Rooted(path: string) {
    exists names: seq<string> :: names != [] && PlainNames(names) && path == Join(names, '/')
  }

  ghost predicate PlainNames(names: seq<string>) {
    DotSegments.AllOrdinary(names) && forall name :: name in names ==> '/' !in name && '\\' !in name && '\0' !in name
  }

  lemma CheckedNameIsRooted(name: string)
    requires CheckEntryName(name).Ok? && CheckEntryName(name).value.Some?
    ensures Rooted(CheckEntryName(name).value.value)
  {
    var names := DotSegments.NormalizedSegments("", name);
    assert PlainNames(names);
  }

  /** With entry names checked as the archive's are, every file found lies below the root. */
  lemma FoundIsRooted(headers: seq<Header>, ceiling: nat, i: nat)
    requires i < |EntriesOf(CheckEntryName, headers, |headers|, ceiling)|
    ensures Rooted(EntriesOf(CheckEntryName, headers, |headers|, ceiling)[i].name)
  {
    var found := EntriesOf(CheckEntryName, headers, |headers|, ceiling)[i];
    FoundInOrder(CheckEntryName, headers, |headers|, ceiling);
    FoundWhereClaimed(CheckEntryName, headers, |headers|, ceiling, found.index, found.name);
    CheckedNameIsRooted(headers[found.index].name.value);
  }

  /** The path of entry `k`: its name normalized, unless it names a directory or cannot be used. */
  predicate HasPath(headers: seq<Header>, k: nat, path: string) {
    && k < |headers| && headers[k].name.Ok?
    && Normalized("", headers[k].name.value) == Ok(path) && !EndsWithSlash(headers[k].name.value)
  }

  predicate EndsWithSlash(name: string) {
    name != "" && (name[|name| - 1] == '/' || name[|name| - 1] == '\\')
  }

  /** An entry with which an archive is refused: its name cannot be decoded, it is encrypted, or its method is not supported. */
  predicate Readable(h: Header) {
    h.name.Ok? && !h.encrypted && h.supported
  }

  /** No two entries lead to one path. */
  ghost predicate OnePathEach(headers: seq<Header>) {
    forall j: nat, k: nat, path :: j < k && HasPath(headers, j, path) ==> !HasPath(headers, k, path)
  }

  lemma ClaimIsPath(headers: seq<Header>, k: nat, path: string)
    requires k < |headers|
    ensures Claim(CheckEntryName, headers[k]) == Some(path) <==> HasPath(headers, k, path)
  {
  }

  lemma ClaimedIsPath(headers: seq<Header>, k: nat, path: string)
    requires k <= |headers|
    ensures ClaimedBefore(CheckEntryName, headers, k, path) <==> exists j: nat :: j < k && HasPath(headers, j, path)
  {
    if j: nat :| j < k && HasPath(headers, j, path) {
      ClaimIsPath(headers, j, path);
    }
    if ClaimedBefore(CheckEntryName, headers, k, path) {
      var j :| 0 <= j < k && Claim(CheckEntryName, headers[j]) == Some(path);
      ClaimIsPath(headers, j, path);
    }
  }

  lemma NoProblemExactlyWhen(headers: seq<Header>, k: nat)
    requires k < |headers|
    ensures Problem(CheckEntryName, headers, k).None?
            <==> Readable(headers[k]) && forall j: nat, path :: j < k && HasPath(headers, j, path) ==> !HasPath(headers, k, path)
  {
    if Readable(headers[k]) && Claim(CheckEntryName, headers[k]).Some? {
      var path := Claim(CheckEntryName, headers[k]).value;
      ClaimIsPath(headers, k, path);
      ClaimedIsPath(headers, k, path);
    }
    forall path | HasPath(headers, k, path) ensures Claim(CheckEntryName, headers[k]) == Some(path) {
      ClaimIsPath(headers, k, path);
    }
  }

  lemma CleanExactlyWhen(headers: seq<Header>)
    ensures Clean(CheckEntryName, headers, |headers|)
            <==> (forall k :: 0 <= k < |headers| ==> Readable(headers[k])) && OnePathEach(headers)
  {
    forall k | 0 <= k < |headers|
      ensures Problem(CheckEntryName, headers, k).None?
              <==> Readable(headers[k]) && forall j: nat, path :: j < k && HasPath(headers, j, path) ==> !HasPath(headers, k, path)
    {
      NoProblemExactlyWhen(headers, k);
    }
  }

  /** Entry `k` is the first with which something is wrong, and this is the error for it. */
  ghost predicate FailsFirst(headers: seq<Header>, k: nat, error: Status)
    requires k < |headers|
  {
    && (forall j :: 0 <= j < k ==> Readable(headers[j]))
    && (forall i: nat, j: nat, path :: i < j < k && HasPath(headers, i, path) ==> !HasPath(headers, j, path))
    && (headers[k].name.Err? ==> error == headers[k].name.error)
    && (headers[k].name.Ok? && !Readable(headers[k]) ==> error == Unimplemented)
    && (Readable(headers[k]) ==>
          error == InvalidArgument && exists j: nat, path :: j < k && HasPath(headers, j, path) && HasPath(headers, k, path))
  }

  lemma ProblemFails(headers: seq<Header>, k: nat, error: Status)
    requires k < |headers| && Clean(CheckEntryName, headers, k) && Problem(CheckEntryName, headers, k) == Some(error)
    ensures FailsFirst(headers, k, error)
  {
    forall j | 0 <= j < k
      ensures Readable(headers[j])
      ensures forall i: nat, path :: i < j && HasPath(headers, i, path) ==> !HasPath(headers, j, path)
    {
      NoProblemExactlyWhen(headers, j);
    }
    if Readable(headers[k]) {
      NoProblemExactlyWhen(headers, k);
    }
  }

  /** What is listed of an entry: its place, its path and its sizes, the stored one cut down to what precedes the directory. */
  predicate Tells(headers: seq<Header>, ceiling: nat, entry: EntryInfo) {
    && HasPath(headers, entry.index, entry.name) && entry.declared == headers[entry.index].size
    && entry.stored == if headers[entry.index].compressed < ceiling then headers[entry.index].compressed else ceiling
  }

  lemma {:induction false} EntriesTell(headers: seq<Header>, n: nat, ceiling: nat)
    requires n <= |headers|
    ensures forall i :: 0 <= i < |EntriesOf(CheckEntryName, headers, n, ceiling)| ==>
              Tells(headers, ceiling, EntriesOf(CheckEntryName, headers, n, ceiling)[i])
  {
    if n > 0 {
      EntriesTell(headers, n - 1, ceiling);
      var before, all := EntriesOf(CheckEntryName, headers, n - 1, ceiling), EntriesOf(CheckEntryName, headers, n, ceiling);
      if Claim(CheckEntryName, headers[n - 1]).Some? {
        ClaimIsPath(headers, n - 1, Claim(CheckEntryName, headers[n - 1]).value);
      }
      forall i | 0 <= i < |all| ensures Tells(headers, ceiling, all[i]) {
        assert i < |before| ==> all[i] == before[i];
      }
    }
  }

  /** The scan of an archive, whose names are checked as all its paths are: each file lies below the root, and no two at one path. */
  method ScanArchive(headers: seq<Header>, ceiling: nat) returns (r: Result<Found, Status>)
    ensures r.Ok? <==> (forall k :: 0 <= k < |headers| ==> Readable(headers[k])) && OnePathEach(headers)
    ensures r.Ok? ==> r.value == Found(EntriesOf(CheckEntryName, headers, |headers|, ceiling),
                                       UnusableOf(CheckEntryName, headers, |headers|))
    ensures r.Ok? ==> forall i :: 0 <= i < |r.value.entries| ==>
                        Tells(headers, ceiling, r.value.entries[i]) && Rooted(r.value.entries[i].name)
    ensures r.Ok? ==> forall i, j :: 0 <= i < j < |r.value.entries| ==>
                        r.value.entries[i].index < r.value.entries[j].index && r.value.entries[i].name != r.value.entries[j].name
    ensures r.Ok? ==> forall k: nat, path :: HasPath(headers, k, path) ==> IsFound(r.value.entries, k, path)
    ensures r.Err? ==> exists k: nat :: k < |headers| && FailsFirst(headers, k, r.error)
  {
    r := ScanEntries(CheckEntryName, headers, ceiling);
    CleanExactlyWhen(headers);
    if r.Err? {
      ghost var k :| 0 <= k < |headers| && Clean(CheckEntryName, headers, k) && Problem(CheckEntryName, headers, k) == Some(r.error);
      ProblemFails(headers, k, r.error);
    }
    if r.Ok? {
      ScannedPathsAreDistinct(CheckEntryName, headers, ceiling);
      EntriesTell(headers, |headers|, ceiling);
      forall i | 0 <= i < |r.value.entries| ensures Rooted(r.value.entries[i].name) {
        FoundIsRooted(headers, ceiling, i);
      }
      forall k: nat, path | HasPath(headers, k, path) ensures IsFound(r.value.entries, k, path) {
        ClaimIsPath(headers, k, path);
        FoundWhereClaimed(CheckEntryName, headers, |headers|, ceiling, k, path);
      }
    }
  }

  // ----- Names that cannot be used -----

  /** The entry's name can be no path. */
  predicate IsUnusable(headers: seq<Header>, k: nat, error: PathError) {
    k < |headers| && headers[k].name.Ok? && Normalized("", headers[k].name.value) == Err(error)
  }

  lemma StillAPrefix<T>(a: seq<T>, b: seq<T>, c: seq<T>, more: seq<T>)
    requires a <= b && c == b + more
    ensures a <= c
  {
  }

  lemma UnusableNext(headers: seq<Header>, k: nat, more: seq<(string, PathError)>)
    requires k < |headers|
    requires more == if headers[k].name.Ok? && Normalized("", headers[k].name.value).Err?
                     then [(headers[k].name.value, Normalized("", headers[k].name.value).error)] else []
    ensures UnusableOf(CheckEntryName, headers, k + 1) == UnusableOf(CheckEntryName, headers, k) + more
  {
  }

  /** Names that can be no path are put aside, in archive order, each with the reason. */
  lemma {:induction false} UnusableAreKept(
      headers: seq<Header>, n: nat, k: nat, error: PathError, before: seq<(string, PathError)>, unusable: seq<(string, PathError)>)
    requires n <= |headers| && k < n && IsUnusable(headers, k, error)
    requires before == UnusableOf(CheckEntryName, headers, k) && unusable == UnusableOf(CheckEntryName, headers, n)
    ensures before + [(headers[k].name.value, error)] <= unusable
    decreases n
  {
    var last := n - 1;
    var more := if headers[last].name.Ok? && Normalized("", headers[last].name.value).Err?
                then [(headers[last].name.value, Normalized("", headers[last].name.value).error)] else [];
    UnusableNext(headers, last, more);
    if last > k {
      var most := UnusableOf(CheckEntryName, headers, last);
      UnusableAreKept(headers, last, k, error, before, most);
      StillAPrefix(before + [(headers[k].name.value, error)], most, unusable, more);
    }
  }

  lemma {:induction false} OnlyUnusableAreKept(headers: seq<Header>, n: nat, pair: (string, PathError))
    requires n <= |headers| && pair in UnusableOf(CheckEntryName, headers, n)
    ensures exists k: nat :: k < n && IsUnusable(headers, k, pair.1) && headers[k].name.value == pair.0
  {
    if pair in UnusableOf(CheckEntryName, headers, n - 1) {
      OnlyUnusableAreKept(headers, n - 1, pair);
    } else {
      assert IsUnusable(headers, n - 1, pair.1);
    }
  }
}
