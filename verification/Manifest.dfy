/**
 * The plan of one extraction, made before anything is inflated: which manifest
 * item each chapter is read from, and which resources the walk will send.
 */
module Manifest {
  import opened Archive
  import opened Outcomes

  /**
   * An item of the manifest with the file it was found to name.  How its media type
   * classifies is given: whether it is chapter markup, another archive, or of
   * a kind the options select.
   */
  datatype Item = Item(
    id: string, path: string, entry: Option<nat>, remote: bool, unusable: bool,
    markup: bool, nested: bool, selected: bool, navigation: bool, fallback: string, mediaOverlay: string)

  /**
   * Whether items are as resolving and classifying a manifest leaves them: what is chapter
   * markup is a document, which is selected whatever the options, and a link that is
   * remote or unusable names no file.
   */
  predicate Classified(items: seq<Item>) {
    forall p :: 0 <= p < |items| ==>
      (items[p].markup ==> items[p].selected) && (items[p].remote || items[p].unusable ==> items[p].entry == None)
  }

  /** The first item with this id. */
  function ById(items: seq<Item>, id: string): (r: Option<nat>)
    ensures r.Some? ==> r.value < |items| && items[r.value].id == id && forall k :: 0 <= k < r.value ==> items[k].id != id
    ensures r.None? ==> forall k :: 0 <= k < |items| ==> items[k].id != id
  {
    if items == [] then None
    else if items[0].id == id then Some(0)
    else
      match ById(items[1..], id)
      case None => None
      case Some(k) => Some(k + 1)
  }

  // ----- Chapter sources -----

  const MAX_FALLBACK_CHAIN := 16

  /** The item a chain goes on to, unless it names none or one already in the chain. */
  function NextInChain(items: seq<Item>, chain: seq<nat>): (r: Option<nat>)
    requires chain != [] && chain[|chain| - 1] < |items|
    ensures r.Some? ==> r.value < |items| && r.value !in chain
  {
    var fallback := items[chain[|chain| - 1]].fallback;
    if fallback == "" then None
    else
      match ById(items, fallback)
      case None => None
      case Some(next) => if next in chain then None else Some(next)
  }

  predicate InManifest(items: seq<Item>, positions: seq<nat>) {
    forall k :: 0 <= k < |positions| ==> positions[k] < |items|
  }

  /** The fallback chain grown from `chain` as far as it goes. */
  function Chain(items: seq<Item>, chain: seq<nat>): (full: seq<nat>)
    requires chain != [] && InManifest(items, chain)
    ensures chain <= full && InManifest(items, full)
    decreases MAX_FALLBACK_CHAIN - |chain|
  {
    if |chain| >= MAX_FALLBACK_CHAIN then chain
    else
      match NextInChain(items, chain)
      case None => chain
      case Some(next) => Chain(items, chain + [next])
  }

  predicate Held(items: seq<Item>, position: nat)
    requires position < |items|
  {
    items[position].entry.Some?
  }

  /** Whether the archive holds an item, and it is markup when that is asked for. */
  predicate Suits(items: seq<Item>, position: nat, markup: bool)
    requires position < |items|
  {
    Held(items, position) && (markup ==> items[position].markup)
  }

  /** The first link of `chain` that suits. */
  function FirstSuited(items: seq<Item>, chain: seq<nat>, markup: bool): (r: Option<nat>)
    requires InManifest(items, chain)
    ensures r.Some? ==> r.value < |chain| && Suits(items, chain[r.value], markup)
    ensures r.Some? ==> forall k :: 0 <= k < r.value ==> !Suits(items, chain[k], markup)
    ensures r.None? ==> forall k :: 0 <= k < |chain| ==> !Suits(items, chain[k], markup)
  {
    if chain == [] then None
    else if Suits(items, chain[0], markup) then Some(0)
    else
      match FirstSuited(items, chain[1..], markup)
      case None => None
      case Some(k) => Some(k + 1)
  }

  /** The item that supplies the chapter of a spine item. */
  function SourceOf(items: seq<Item>, primary: nat): (r: Option<nat>)
    requires primary < |items|
    ensures r.Some? ==> r.value < |items| && Held(items, r.value)
  {
    var chain := Chain(items, [primary]);
    match FirstSuited(items, chain, true)
    case Some(k) => Some(chain[k])
    case None =>
      match FirstSuited(items, chain, false)
      case Some(k) => Some(chain[k])
      case None => None
  }

  method ChapterSource(items: seq<Item>, primary: nat) returns (r: Option<nat>)
    requires primary < |items|
    ensures r == SourceOf(items, primary)
  {
    var chain := [primary];
    while |chain| < MAX_FALLBACK_CHAIN
      invariant chain != [] && InManifest(items, chain)
      invariant Chain(items, chain) == Chain(items, [primary])
      decreases MAX_FALLBACK_CHAIN - |chain|
    {
      var fallback := items[chain[|chain| - 1]].fallback;
      if fallback == "" {
        break;
      }
      match ById(items, fallback) {
        case Some(next) =>
          if next in chain {
            break;
          }
          chain := chain + [next];
        case None =>
          break;
      }
    }
    var found := FirstSuited(items, chain, true);
    if found.None? {
      found := FirstSuited(items, chain, false);
    }
    return if found.Some? then Some(chain[found.value]) else None;
  }

  predicate Distinct(s: seq<nat>) {
    forall i, j :: 0 <= i < j < |s| ==> s[i] != s[j]
  }

  /** The last link has no fallback, or one that names no item or an earlier link. */
  predicate EndsChain(items: seq<Item>, chain: seq<nat>)
    requires chain != [] && InManifest(items, chain)
  {
    var fallback := items[chain[|chain| - 1]].fallback;
    fallback == "" || ById(items, fallback) == None || ById(items, fallback).value in chain
  }

  lemma {:induction false} ChainFollows(items: seq<Item>, chain: seq<nat>)
    requires chain != [] && InManifest(items, chain) && Distinct(chain) && |chain| <= MAX_FALLBACK_CHAIN
    ensures var full := Chain(items, chain);
            && Distinct(full) && |full| <= MAX_FALLBACK_CHAIN
            && forall k :: |chain| <= k < |full| ==> ById(items, items[full[k - 1]].fallback) == Some(full[k])
    decreases MAX_FALLBACK_CHAIN - |chain|
  {
    if |chain| < MAX_FALLBACK_CHAIN && NextInChain(items, chain).Some? {
      var longer := chain + [NextInChain(items, chain).value];
      ChainFollows(items, longer);
      assert Chain(items, longer)[..|longer|] == longer;
      assert Chain(items, chain)[|chain|] == longer[|chain|] && Chain(items, chain)[|chain| - 1] == longer[|chain| - 1];
    }
  }

  lemma {:induction false} ChainEnds(items: seq<Item>, chain: seq<nat>)
    requires chain != [] && InManifest(items, chain) && |chain| <= MAX_FALLBACK_CHAIN
    ensures |Chain(items, chain)| == MAX_FALLBACK_CHAIN || EndsChain(items, Chain(items, chain))
    decreases MAX_FALLBACK_CHAIN - |chain|
  {
    if |chain| < MAX_FALLBACK_CHAIN && NextInChain(items, chain).Some? {
      ChainEnds(items, chain + [NextInChain(items, chain).value]);
    }
  }

  /** A fallback chain starts at its item, repeats none, follows the fallbacks as declared, and ends at sixteen links or where they do. */
  lemma ChainIsSimple(items: seq<Item>, primary: nat)
    requires primary < |items|
    ensures var full := Chain(items, [primary]);
            && full != [] && full[0] == primary && Distinct(full) && |full| <= 16
            && (forall k :: 1 <= k < |full| ==> ById(items, items[full[k - 1]].fallback) == Some(full[k]))
            && (|full| == 16 || EndsChain(items, full))
  {
    ChainFollows(items, [primary]);
    ChainEnds(items, [primary]);
  }

  /**
   * A chapter is read from the first markup of the chain that the archive
   * holds; failing that, from the first link it holds; and there is none only
   * when it holds no link at all.
   */
  lemma SourcePrefersMarkup(items: seq<Item>, primary: nat)
    requires primary < |items|
    ensures SourceOf(items, primary).None? ==>
              forall k :: 0 <= k < |Chain(items, [primary])| ==> !Held(items, Chain(items, [primary])[k])
    ensures SourceOf(items, primary).Some? ==>
              exists k :: 0 <= k < |Chain(items, [primary])| && FirstSuitable(items, Chain(items, [primary]), k)
                          && Chain(items, [primary])[k] == SourceOf(items, primary).value
  {
    var chain := Chain(items, [primary]);
    var markup, any := FirstSuited(items, chain, true), FirstSuited(items, chain, false);
    if markup.Some? {
      assert FirstSuitable(items, chain, markup.value);
    } else if any.Some? {
      assert Suits(items, chain[any.value], false) && !Suits(items, chain[any.value], true);
      assert FirstSuitable(items, chain, any.value);
    } else {
      assert forall k :: 0 <= k < |chain| ==> !Suits(items, chain[k], false);
    }
  }

  /** The link the search is for: held, and nothing better before it or, for markup, anywhere. */
  ghost predicate FirstSuitable(items: seq<Item>, chain: seq<nat>, k: nat)
    requires InManifest(items, chain) && k < |chain|
  {
    && Held(items, chain[k])
    && (items[chain[k]].markup ==> forall j :: 0 <= j < k ==> !Suits(items, chain[j], true))
    && (!items[chain[k]].markup ==>
          && (forall j :: 0 <= j < |chain| ==> !Suits(items, chain[j], true))
          && (forall j :: 0 <= j < k ==> !Suits(items, chain[j], false)))
  }

  // ----- The spine -----

  /** One chapter: the spine item, the item it is read from, and the idref that named it. */
  datatype SpineSlot = SpineSlot(primary: nat, source: nat, idref: string)

  predicate ValidSpine(items: seq<Item>, spine: seq<SpineSlot>) {
    forall k :: 0 <= k < |spine| ==> spine[k].primary < |items| && spine[k].source < |items| && Held(items, spine[k].source)
  }

  function ResolveRef(items: seq<Item>, idref: string, obfuscated: set<nat>): Result<SpineSlot, Status> {
    match ById(items, idref)
    case None => Err(InvalidArgument)
    case Some(position) =>
      match SourceOf(items, position)
      case None => Err(InvalidArgument)
      case Some(source) =>
        if items[source].entry.value in obfuscated then Err(Unimplemented)
        else Ok(SpineSlot(position, source, idref))
  }

  /** Resolve the itemrefs in reading order, failing at the first that cannot be a chapter. */
  method ResolveSpine(items: seq<Item>, idrefs: seq<string>, obfuscated: set<nat>)
    returns (r: Result<seq<SpineSlot>, Status>)
    ensures r.Ok? ==> ValidSpine(items, r.value) && |r.value| == |idrefs|
    ensures r.Ok? ==> forall k :: 0 <= k < |idrefs| ==> ResolveRef(items, idrefs[k], obfuscated) == Ok(r.value[k])
    ensures r.Err? ==>
              exists k :: 0 <= k < |idrefs| && ResolveRef(items, idrefs[k], obfuscated) == Err(r.error)
                          && forall j :: 0 <= j < k ==> ResolveRef(items, idrefs[j], obfuscated).Ok?
  {
    var spine := [];
    for k := 0 to |idrefs|
      invariant |spine| == k && ValidSpine(items, spine)
      invariant forall j :: 0 <= j < k ==> ResolveRef(items, idrefs[j], obfuscated) == Ok(spine[j])
    {
      var position := ById(items, idrefs[k]);
      if position.None? {
        return Err(InvalidArgument);
      }
      var source := ChapterSource(items, position.value);
      if source.None? {
        return Err(InvalidArgument);
      }
      if items[source.value].entry.value in obfuscated {
        return Err(Unimplemented);
      }
      spine := spine + [SpineSlot(position.value, source.value, idrefs[k])];
    }
    return Ok(spine);
  }

  // ----- The resources -----

  /** A resource the walk will send: its archive entry and its manifest position. */
  datatype Pending = Pending(entry: nat, position: nat)

  /** What becomes of a manifest item. */
  datatype Fate = SentAsChapter | Skipped | SameFileAsChapter | Planned(entry: nat)

  function Sources(spine: seq<SpineSlot>): set<nat> {
    set k | 0 <= k < |spine| :: spine[k].source
  }

  function ChapterEntry(items: seq<Item>, slot: SpineSlot): nat
    requires slot.source < |items| && Held(items, slot.source)
  {
    items[slot.source].entry.value
  }

  function ChapterEntries(items: seq<Item>, spine: seq<SpineSlot>): set<nat>
    requires ValidSpine(items, spine)
  {
    set k | 0 <= k < |spine| :: ChapterEntry(items, spine[k])
  }

  function FateOf(items: seq<Item>, spine: seq<SpineSlot>, obfuscated: set<nat>, position: nat): Fate
    requires ValidSpine(items, spine) && position < |items|
  {
    var item := items[position];
    if position in Sources(spine) then SentAsChapter
    else if item.unusable || item.remote || item.entry.None? then Skipped
    else if item.entry.value in ChapterEntries(items, spine) then SameFileAsChapter
    else if item.nested || !item.selected || item.entry.value in obfuscated then Skipped
    else Planned(item.entry.value)
  }

  predicate Precedes(a: Pending, b: Pending) {
    a.entry < b.entry || (a.entry == b.entry && a.position <= b.position)
  }

  predicate Sorted(s: seq<Pending>) {
    forall i, j :: 0 <= i < j < |s| ==> Precedes(s[i], s[j])
  }

  function Insert(x: Pending, s: seq<Pending>): seq<Pending> {
    if s == [] || Precedes(x, s[0]) then [x] + s else [s[0]] + Insert(x, s[1..])
  }

  /** The standard library's sort. */
  function Sort(s: seq<Pending>): seq<Pending> {
    if s == [] then [] else Insert(s[0], Sort(s[1..]))
  }

  lemma {:induction false} InsertMembers(x: Pending, s: seq<Pending>, y: Pending)
    ensures y in Insert(x, s) <==> y == x || y in s
  {
    if s != [] && !Precedes(x, s[0]) {
      InsertMembers(x, s[1..], y);
      assert y in s <==> y == s[0] || y in s[1..];
    }
  }

  lemma {:induction false} InsertSorted(x: Pending, s: seq<Pending>)
    requires Sorted(s)
    ensures Sorted(Insert(x, s))
  {
    if s != [] && !Precedes(x, s[0]) {
      InsertSorted(x, s[1..]);
      var rest := Insert(x, s[1..]);
      forall k | 0 <= k < |rest| ensures Precedes(s[0], rest[k]) {
        InsertMembers(x, s[1..], rest[k]);
      }
    }
  }

  /** The sort puts what it was given in order and nothing else. */
  lemma {:induction false} SortSorts(s: seq<Pending>)
    ensures Sorted(Sort(s)) && forall y :: y in Sort(s) <==> y in s
  {
    if s != [] {
      SortSorts(s[1..]);
      InsertSorted(s[0], Sort(s[1..]));
      forall y ensures y in Sort(s) <==> y in s {
        InsertMembers(s[0], Sort(s[1..]), y);
        assert y in s <==> y == s[0] || y in s[1..];
      }
    }
  }

  /** The standard library's removal of neighbours with one key: the first of each run stays. */
  function Dedup(s: seq<Pending>): seq<Pending> {
    if |s| <= 1 then s
    else
      var kept := Dedup(s[..|s| - 1]);
      if s[|s| - 1].entry == s[|s| - 2].entry then kept else kept + [s[|s| - 1]]
  }

  /** The planned items among the first `count`, in manifest order. */
  function Eligible(items: seq<Item>, spine: seq<SpineSlot>, obfuscated: set<nat>, count: nat): seq<Pending>
    requires ValidSpine(items, spine) && count <= |items|
  {
    if count == 0 then []
    else
      var before := Eligible(items, spine, obfuscated, count - 1);
      match FateOf(items, spine, obfuscated, count - 1)
      case Planned(entry) => before + [Pending(entry, count - 1)]
      case _ => before
  }

  function CountFate(items: seq<Item>, spine: seq<SpineSlot>, obfuscated: set<nat>, fate: Fate, count: nat): nat
    requires ValidSpine(items, spine) && count <= |items|
  {
    if count == 0 then 0
    else
      CountFate(items, spine, obfuscated, fate, count - 1)
      + if FateOf(items, spine, obfuscated, count - 1) == fate then 1 else 0
  }

  function PlannedResources(items: seq<Item>, spine: seq<SpineSlot>, obfuscated: set<nat>): seq<Pending>
    requires ValidSpine(items, spine)
  {
    Dedup(Sort(Eligible(items, spine, obfuscated, |items|)))
  }

  method PlanResources(items: seq<Item>, spine: seq<SpineSlot>, obfuscated: set<nat>)
    returns (pending: seq<Pending>, skipped: nat)
    requires ValidSpine(items, spine)
    ensures pending == PlannedResources(items, spine, obfuscated)
    ensures skipped == CountFate(items, spine, obfuscated, Skipped, |items|)
  {
    var spineIds := Sources(spine);
    var chapterEntries := ChapterEntries(items, spine);
    pending, skipped := [], 0;
    var position := 0;
    while position < |items|
      invariant position <= |items|
      invariant pending == Eligible(items, spine, obfuscated, position)
      invariant skipped == CountFate(items, spine, obfuscated, Skipped, position)
    {
      var item := items[position];
      if position in spineIds {
        position := position + 1;
        continue;
      }
      if item.unusable || item.remote || item.entry.None? {
        skipped := skipped + 1;
      } else if item.entry.value in chapterEntries {
      } else if item.nested {
        skipped := skipped + 1;
      } else if !item.selected {
        skipped := skipped + 1;
      } else if item.entry.value in obfuscated {
        skipped := skipped + 1;
      } else {
        pending := pending + [Pending(item.entry.value, position)];
      }
      position := position + 1;
    }
    pending := Dedup(Sort(pending));
  }

  // ----- What the plan holds -----

  lemma {:induction false} EligibleMembers(
      items: seq<Item>, spine: seq<SpineSlot>, obfuscated: set<nat>, count: nat, x: Pending)
    requires ValidSpine(items, spine) && count <= |items|
    ensures x in Eligible(items, spine, obfuscated, count) <==>
            x.position < count && FateOf(items, spine, obfuscated, x.position) == Planned(x.entry)
  {
    if count > 0 { EligibleMembers(items, spine, obfuscated, count - 1, x); }
  }

  /** Strictly increasing by archive entry. */
  predicate ByEntry(s: seq<Pending>) {
    forall i, j :: 0 <= i < j < |s| ==> s[i].entry < s[j].entry
  }

  /** The first of the elements of `s` with its entry. */
  ghost predicate FirstOfRun(x: Pending, s: seq<Pending>) {
    x in s && forall y :: y in s && y.entry == x.entry ==> Precedes(x, y)
  }

  lemma {:induction false} DedupSorted(s: seq<Pending>)
    requires Sorted(s)
    ensures ByEntry(Dedup(s)) && (forall x :: x in Dedup(s) ==> x in s)
    ensures forall x :: x in Dedup(s) <==> FirstOfRun(x, s)
  {
    if |s| > 1 {
      var front, last := s[..|s| - 1], s[|s| - 1];
      DedupSorted(front);
      assert s == front + [last];
      forall x ensures x in Dedup(s) <==> FirstOfRun(x, s) {
        RunGrows(x, front, last);
      }
      RunGrows(last, front, last);
      var kept := Dedup(front);
      assert forall k :: 0 <= k < |kept| ==> kept[k] in front;
    }
  }

  /** Who is first of a run once one more element is put at the end. */
  lemma RunGrows(x: Pending, front: seq<Pending>, last: Pending)
    requires Sorted(front + [last]) && front != []
    ensures Sorted(front)
    ensures FirstOfRun(x, front + [last]) <==>
            FirstOfRun(x, front) || (x == last && front[|front| - 1].entry != last.entry)
    ensures front[|front| - 1].entry != last.entry ==> forall y :: y in front ==> y.entry < last.entry
  {
    var s, before := front + [last], front[|front| - 1];
    assert forall k :: 0 <= k < |front| ==> s[k] == front[k] && Precedes(front[k], s[|front|]);
    assert before in front && last in s && before in s;
    if before.entry != last.entry {
      forall y | y in front ensures y.entry < last.entry {
        var k :| 0 <= k < |front| && front[k] == y;
        if k < |front| - 1 { assert Precedes(s[k], s[|front| - 1]); }
      }
    }
  }

  /** The first eligible item that names its file. */
  ghost predicate FirstNaming(items: seq<Item>, spine: seq<SpineSlot>, obfuscated: set<nat>, x: Pending)
    requires ValidSpine(items, spine)
  {
    && x.position < |items|
    && FateOf(items, spine, obfuscated, x.position) == Planned(x.entry)
    && forall p :: 0 <= p < x.position ==> FateOf(items, spine, obfuscated, p) != Planned(x.entry)
  }

  /**
   * The plan is exactly one resource for each file that some eligible item
   * names, under the first such item, in archive order; and it never holds a
   * file that is also sent as a chapter.
   */
  lemma PlanIsExact(items: seq<Item>, spine: seq<SpineSlot>, obfuscated: set<nat>)
    requires ValidSpine(items, spine)
    ensures ByEntry(PlannedResources(items, spine, obfuscated))
    ensures forall x :: x in PlannedResources(items, spine, obfuscated) <==> FirstNaming(items, spine, obfuscated, x)
    ensures forall x :: x in PlannedResources(items, spine, obfuscated) ==> x.entry !in ChapterEntries(items, spine)
  {
    var sorted := Sort(Eligible(items, spine, obfuscated, |items|));
    SortSorts(Eligible(items, spine, obfuscated, |items|));
    DedupSorted(sorted);
    forall x ensures FirstOfRun(x, sorted) <==> FirstNaming(items, spine, obfuscated, x) {
      FirstOfItsFile(items, spine, obfuscated, x);
    }
  }

  lemma SortedMembers(items: seq<Item>, spine: seq<SpineSlot>, obfuscated: set<nat>, x: Pending)
    requires ValidSpine(items, spine)
    ensures x in Sort(Eligible(items, spine, obfuscated, |items|)) <==>
            x.position < |items| && FateOf(items, spine, obfuscated, x.position) == Planned(x.entry)
  {
    SortSorts(Eligible(items, spine, obfuscated, |items|));
    EligibleMembers(items, spine, obfuscated, |items|, x);
  }

  lemma FirstOfItsFile(items: seq<Item>, spine: seq<SpineSlot>, obfuscated: set<nat>, x: Pending)
    requires ValidSpine(items, spine)
    ensures FirstOfRun(x, Sort(Eligible(items, spine, obfuscated, |items|))) <==> FirstNaming(items, spine, obfuscated, x)
  {
    var sorted := Sort(Eligible(items, spine, obfuscated, |items|));
    SortedMembers(items, spine, obfuscated, x);
    if FirstOfRun(x, sorted) {
      forall p | 0 <= p < x.position ensures FateOf(items, spine, obfuscated, p) != Planned(x.entry) {
        SortedMembers(items, spine, obfuscated, Pending(x.entry, p));
      }
    }
    if FirstNaming(items, spine, obfuscated, x) {
      forall y | y in sorted && y.entry == x.entry ensures Precedes(x, y) {
        SortedMembers(items, spine, obfuscated, y);
      }
    }
  }

  // ----- The items that name one file -----

  /** Some item that names this file has this fate. */
  ghost predicate SomeNaming(items: seq<Item>, spine: seq<SpineSlot>, obfuscated: set<nat>, entry: nat, fate: Fate)
    requires ValidSpine(items, spine)
  {
    exists p :: 0 <= p < |items| && items[p].entry == Some(entry) && FateOf(items, spine, obfuscated, p) == fate
  }

  ghost predicate InPlan(pending: seq<Pending>, entry: nat) {
    exists q :: 0 <= q < |pending| && pending[q].entry == entry
  }

  lemma {:induction false} SomeFirstNaming(
      items: seq<Item>, spine: seq<SpineSlot>, obfuscated: set<nat>, entry: nat, p: nat) returns (x: Pending)
    requires ValidSpine(items, spine) && p < |items| && FateOf(items, spine, obfuscated, p) == Planned(entry)
    ensures x.entry == entry && FirstNaming(items, spine, obfuscated, x)
    decreases p
  {
    if earlier: nat :| earlier < p && FateOf(items, spine, obfuscated, earlier) == Planned(entry) {
      x := SomeFirstNaming(items, spine, obfuscated, entry, earlier);
    } else {
      x := Pending(entry, p);
    }
  }

  lemma SourcesAreChapters(items: seq<Item>, spine: seq<SpineSlot>, obfuscated: set<nat>, entry: nat)
    requires ValidSpine(items, spine)
    ensures entry in ChapterEntries(items, spine) <==> SomeNaming(items, spine, obfuscated, entry, SentAsChapter)
  {
    if entry in ChapterEntries(items, spine) {
      var k :| 0 <= k < |spine| && ChapterEntry(items, spine[k]) == entry;
      assert spine[k].source in Sources(spine);
      assert FateOf(items, spine, obfuscated, spine[k].source) == SentAsChapter;
    }
    if SomeNaming(items, spine, obfuscated, entry, SentAsChapter) {
      var p :| 0 <= p < |items| && items[p].entry == Some(entry) && FateOf(items, spine, obfuscated, p) == SentAsChapter;
      var k :| 0 <= k < |spine| && spine[k].source == p;
      assert ChapterEntry(items, spine[k]) == entry;
    }
  }

  lemma PlannedAreInPlan(items: seq<Item>, spine: seq<SpineSlot>, obfuscated: set<nat>, entry: nat)
    requires ValidSpine(items, spine)
    ensures InPlan(PlannedResources(items, spine, obfuscated), entry)
            <==> SomeNaming(items, spine, obfuscated, entry, Planned(entry))
  {
    var pending := PlannedResources(items, spine, obfuscated);
    PlanIsExact(items, spine, obfuscated);
    if InPlan(pending, entry) {
      var q :| 0 <= q < |pending| && pending[q].entry == entry;
      assert pending[q] in pending;
      assert FirstNaming(items, spine, obfuscated, pending[q]);
      assert items[pending[q].position].entry == Some(entry);
    }
    if SomeNaming(items, spine, obfuscated, entry, Planned(entry)) {
      var p :| 0 <= p < |items| && items[p].entry == Some(entry) && FateOf(items, spine, obfuscated, p) == Planned(entry);
      var x := SomeFirstNaming(items, spine, obfuscated, entry, p);
      assert x in pending;
    }
  }

  /**
   * The items that name one file agree on how it goes out: as a chapter exactly when one
   * of them is a chapter's source, and then none is planned; as a resource exactly when
   * one is planned; and not at all exactly when all of them are skipped.
   */
  lemma FatesOfOneFile(items: seq<Item>, spine: seq<SpineSlot>, obfuscated: set<nat>, entry: nat)
    requires ValidSpine(items, spine)
    ensures var asChapter, asResource :=
              entry in ChapterEntries(items, spine), InPlan(PlannedResources(items, spine, obfuscated), entry);
            && (asChapter <==> SomeNaming(items, spine, obfuscated, entry, SentAsChapter))
            && (asResource <==> SomeNaming(items, spine, obfuscated, entry, Planned(entry)))
            && !(asChapter && asResource)
            && (!asChapter && !asResource <==>
                  forall p :: 0 <= p < |items| && items[p].entry == Some(entry) ==>
                    FateOf(items, spine, obfuscated, p) == Skipped)
  {
    SourcesAreChapters(items, spine, obfuscated, entry);
    PlannedAreInPlan(items, spine, obfuscated, entry);
    PlanIsExact(items, spine, obfuscated);
  }

  // ----- The plan, item by item -----

  /** Whether a chapter is read from this file. */
  ghost predicate ReadAsChapter(items: seq<Item>, spine: seq<SpineSlot>, entry: nat)
    requires ValidSpine(items, spine)
  {
    exists k :: 0 <= k < |spine| && items[spine[k].source].entry == Some(entry)
  }

  /** Whether an item may go out as a resource: a file in the archive that is selected, is no archive and is not obfuscated. */
  predicate Sendable(items: seq<Item>, obfuscated: set<nat>, p: nat) {
    && p < |items| && !items[p].unusable && !items[p].remote && items[p].entry.Some?
    && !items[p].nested && items[p].selected && items[p].entry.value !in obfuscated
  }

  lemma SendableIsPlanned(items: seq<Item>, spine: seq<SpineSlot>, obfuscated: set<nat>, p: nat, entry: nat)
    requires ValidSpine(items, spine) && p < |items|
    ensures FateOf(items, spine, obfuscated, p) == Planned(entry)
            <==> Sendable(items, obfuscated, p) && items[p].entry == Some(entry) && !ReadAsChapter(items, spine, entry)
  {
    if entry in ChapterEntries(items, spine) {
      var k :| 0 <= k < |spine| && ChapterEntry(items, spine[k]) == entry;
      assert items[spine[k].source].entry == Some(entry);
    }
    if ReadAsChapter(items, spine, entry) {
      var k :| 0 <= k < |spine| && items[spine[k].source].entry == Some(entry);
      assert ChapterEntry(items, spine[k]) == entry;
    }
    if p in Sources(spine) && items[p].entry == Some(entry) {
      var k :| 0 <= k < |spine| && spine[k].source == p;
      assert items[spine[k].source].entry == Some(entry);
    }
  }

  /**
   * A file is planned as a resource, under one item, exactly when that item may go out, no
   * item before it that names the file may, and no chapter is read from it.
   */
  lemma PlannedExactlyWhen(items: seq<Item>, spine: seq<SpineSlot>, obfuscated: set<nat>, x: Pending)
    requires ValidSpine(items, spine)
    ensures x in PlannedResources(items, spine, obfuscated) <==>
            && Sendable(items, obfuscated, x.position) && items[x.position].entry == Some(x.entry)
            && !ReadAsChapter(items, spine, x.entry)
            && forall p :: 0 <= p < x.position && items[p].entry == Some(x.entry) ==> !Sendable(items, obfuscated, p)
  {
    PlanIsExact(items, spine, obfuscated);
    if x.position < |items| {
      SendableIsPlanned(items, spine, obfuscated, x.position, x.entry);
      forall p | 0 <= p < x.position
        ensures FateOf(items, spine, obfuscated, p) == Planned(x.entry)
                <==> Sendable(items, obfuscated, p) && items[p].entry == Some(x.entry) && !ReadAsChapter(items, spine, x.entry)
      {
        SendableIsPlanned(items, spine, obfuscated, p, x.entry);
      }
    }
  }

  /** Whether an item is neither sent nor named by what is sent: it is no chapter's source, and has no file of a chapter's. */
  ghost predicate LeftOut(items: seq<Item>, spine: seq<SpineSlot>, obfuscated: set<nat>, p: nat)
    requires ValidSpine(items, spine) && p < |items|
  {
    && (forall k :: 0 <= k < |spine| ==> spine[k].source != p)
    && !Sendable(items, obfuscated, p)
    && (items[p].unusable || items[p].remote || items[p].entry.None? || !ReadAsChapter(items, spine, items[p].entry.value))
  }

  ghost function LeftOutBefore(items: seq<Item>, spine: seq<SpineSlot>, obfuscated: set<nat>, n: nat): set<nat>
    requires ValidSpine(items, spine) && n <= |items|
  {
    set p | 0 <= p < n && LeftOut(items, spine, obfuscated, p)
  }

  lemma SkippedExactlyWhen(items: seq<Item>, spine: seq<SpineSlot>, obfuscated: set<nat>, p: nat)
    requires ValidSpine(items, spine) && p < |items|
    ensures FateOf(items, spine, obfuscated, p) == Skipped <==> LeftOut(items, spine, obfuscated, p)
  {
    if items[p].entry.Some? {
      SendableIsPlanned(items, spine, obfuscated, p, items[p].entry.value);
      SourcesAreChapters(items, spine, obfuscated, items[p].entry.value);
      if ReadAsChapter(items, spine, items[p].entry.value) {
        var k :| 0 <= k < |spine| && items[spine[k].source].entry == items[p].entry;
        assert ChapterEntry(items, spine[k]) == items[p].entry.value;
      }
      if items[p].entry.value in ChapterEntries(items, spine) {
        var k :| 0 <= k < |spine| && ChapterEntry(items, spine[k]) == items[p].entry.value;
        assert items[spine[k].source].entry == items[p].entry;
      }
    }
    if p in Sources(spine) {
      var k :| 0 <= k < |spine| && spine[k].source == p;
    }
  }

  lemma LeftOutNext(items: seq<Item>, spine: seq<SpineSlot>, obfuscated: set<nat>, n: nat)
    requires ValidSpine(items, spine) && n < |items|
    ensures LeftOutBefore(items, spine, obfuscated, n + 1)
            == LeftOutBefore(items, spine, obfuscated, n) + if LeftOut(items, spine, obfuscated, n) then {n} else {}
  {
  }

  lemma OneMore(s: set<nat>, t: set<nat>, n: nat, added: bool)
    requires t == (s + if added then {n} else {}) && n !in s
    ensures |t| == |s| + if added then 1 else 0
  {
    if !added {
      assert t == s;
    }
  }

  /** The count of skipped items is the number of those left out. */
  lemma {:induction false} SkippedAreLeftOut(items: seq<Item>, spine: seq<SpineSlot>, obfuscated: set<nat>, n: nat)
    requires ValidSpine(items, spine) && n <= |items|
    ensures CountFate(items, spine, obfuscated, Skipped, n) == |LeftOutBefore(items, spine, obfuscated, n)|
  {
    if n == 0 {
      assert LeftOutBefore(items, spine, obfuscated, n) == {};
    } else {
      var last := n - 1;
      SkippedAreLeftOut(items, spine, obfuscated, last);
      SkippedExactlyWhen(items, spine, obfuscated, last);
      LeftOutNext(items, spine, obfuscated, last);
      OneMore(LeftOutBefore(items, spine, obfuscated, last), LeftOutBefore(items, spine, obfuscated, n), last,
              LeftOut(items, spine, obfuscated, last));
    }
  }

  /** The item that the search of a fallback chain is for. */
  ghost predicate Chosen(items: seq<Item>, primary: nat, source: nat)
    requires primary < |items|
  {
    exists k :: 0 <= k < |Chain(items, [primary])| && FirstSuitable(items, Chain(items, [primary]), k)
                && Chain(items, [primary])[k] == source
  }

  /**
   * An itemref is a chapter when the first item with its id has a source in its fallback
   * chain and that is not obfuscated; an obfuscated source is not implemented; and an
   * argument is invalid when no item has the id or the archive holds no link of its chain.
   */
  lemma ItemrefIsResolved(items: seq<Item>, idref: string, obfuscated: set<nat>)
    ensures var r := ResolveRef(items, idref, obfuscated);
            && (r.Ok? ==>
                  && r.value.idref == idref && ById(items, idref) == Some(r.value.primary)
                  && Chosen(items, r.value.primary, r.value.source)
                  && r.value.source < |items| && Held(items, r.value.source)
                  && items[r.value.source].entry.value !in obfuscated)
            && (r == Err(Unimplemented) ==> ChosenIsObfuscated(items, idref, obfuscated))
            && (r.Err? && r.error != Unimplemented ==> r.error == InvalidArgument && NoneHeld(items, idref))
  {
    if ById(items, idref).Some? {
      var primary := ById(items, idref).value;
      SourcePrefersMarkup(items, primary);
      if SourceOf(items, primary).Some? {
        assert Chosen(items, primary, SourceOf(items, primary).value);
      }
    }
  }

  ghost predicate ChosenIsObfuscated(items: seq<Item>, idref: string, obfuscated: set<nat>) {
    && ById(items, idref).Some?
    && exists source: nat :: source < |items| && Chosen(items, ById(items, idref).value, source)
                             && Held(items, source) && items[source].entry.value in obfuscated
  }

  /** No item has this id, or the archive holds no link of the fallback chain of the first that does. */
  predicate NoneHeld(items: seq<Item>, idref: string) {
    match ById(items, idref)
    case None => true
    case Some(primary) => forall k :: 0 <= k < |Chain(items, [primary])| ==> !Held(items, Chain(items, [primary])[k])
  }
}
