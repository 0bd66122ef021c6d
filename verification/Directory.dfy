/**
 * The walk over the central directory of src/archive.rs, which finds the records
 * that the ZIP reader dropped, and the scan of the entries that are left.
 */
module Directory {
  import opened Archive
  import opened Outcomes

  // ----- Records as bytes (section 4.3.12 of PKWARE APPNOTE) -----

  const FIXED := 46

  /** A record: its fixed fields before and after the three lengths, and what the lengths are of. */
  datatype Record = Record(head: Bytes, tail: Bytes, name: Bytes, extra: Bytes, comment: Bytes)

  predicate IsRecord(r: Record) {
    && |r.head| == 28 && |r.tail| == 12
    && |r.name| < 65536 && |r.extra| < 65536 && |r.comment| < 65536
  }

  function Le16(n: nat): Bytes
    requires n < 65536
  {
    [n % 256, n / 256]
  }

  function Serialized(r: Record): (bytes: Bytes)
    requires IsRecord(r)
    ensures |bytes| == Length(r)
  {
    r.head + (Le16(|r.name|) + Le16(|r.extra|) + Le16(|r.comment|) + r.tail) + (r.name + (r.extra + r.comment))
  }

  function Length(r: Record): nat {
    FIXED + |r.name| + |r.extra| + |r.comment|
  }

  // ----- The walk -----

  datatype Verdict = Accepted | Dropped(name: Bytes) | Lost

  function FromLe16(low: int, high: int): int {
    low + 256 * high
  }

  /** Two bytes, the lower first, if they are there. */
  function Field(bytes: Bytes, at: nat): Option<nat> {
    if at + 2 <= |bytes| then Some(FromLe16(bytes[at], bytes[at + 1])) else None
  }

  /** The walk from `at` to the last surviving record, record by record by their own lengths. */
  function Walk(bytes: Bytes, at: nat, last: nat, kept: set<nat>): Verdict
    decreases if at < last then last - at else 0
  {
    if at >= last then if at == last then Accepted else Lost
    else
      match (Field(bytes, at + 28), Field(bytes, at + 30), Field(bytes, at + 32))
      case (Some(name), Some(extra), Some(comment)) =>
        if at in kept then Walk(bytes, at + FIXED + name + extra + comment, last, kept)
        else if at + FIXED + name <= |bytes| then Dropped(bytes[at + FIXED..at + FIXED + name])
        else Lost
      case _ => Lost
  }

  function MaxOf(starts: seq<nat>): (m: nat)
    requires starts != []
    ensures m in starts && forall s :: s in starts ==> s <= m
  {
    if |starts| == 1 then starts[0]
    else
      var rest := MaxOf(starts[1..]);
      assert forall s :: s in starts ==> s == starts[0] || s in starts[1..];
      if starts[0] < rest then rest else starts[0]
  }

  function KeptAt(starts: seq<nat>): set<nat> {
    set s | s in starts
  }

  function VerdictOf(bytes: Bytes, start: nat, starts: seq<nat>): Verdict {
    if starts == [] then Accepted else Walk(bytes, start, MaxOf(starts), KeptAt(starts))
  }

  /** Refuse an archive of which the reader dropped a record, given where each surviving record begins. */
  method RefuseMergedRecords(bytes: Bytes, start: nat, starts: seq<nat>) returns (verdict: Verdict)
    ensures verdict == VerdictOf(bytes, start, starts)
  {
    var kept: set<nat>, last: nat := {}, 0;
    for i := 0 to |starts|
      invariant kept == KeptAt(starts[..i])
      invariant forall s :: s in kept ==> s <= last
      invariant i > 0 ==> last in kept
    {
      kept := kept + {starts[i]};
      if starts[i] > last || i == 0 {
        last := starts[i];
      }
    }
    assert starts[..|starts|] == starts;
    assert starts != [] ==> starts[0] in kept;
    if kept == {} {
      return Accepted;
    }
    assert MaxOf(starts) in kept && last in starts;
    assert kept == KeptAt(starts);
    assert VerdictOf(bytes, start, starts) == Walk(bytes, start, last, kept);
    var at := start;
    while at < last
      invariant Walk(bytes, at, last, kept) == Walk(bytes, start, last, kept)
      decreases last - at
    {
      var name, extra, comment := Field(bytes, at + 28), Field(bytes, at + 30), Field(bytes, at + 32);
      if name.None? || extra.None? || comment.None? {
        return Lost;
      }
      if at !in kept {
        return if at + FIXED + name.value <= |bytes| then Dropped(bytes[at + FIXED..at + FIXED + name.value]) else Lost;
      }
      at := at + FIXED + name.value + extra.value + comment.value;
    }
    return if at == last then Accepted else Lost;
  }

  // ----- Records lying end to end -----

  /** Where record `k` begins when the records lie end to end from `start`. */
  function StartOf(start: nat, records: seq<Record>, k: nat): nat
    requires k <= |records|
  {
    if k == 0 then start else StartOf(start, records, k - 1) + Length(records[k - 1])
  }

  predicate LiesAt(bytes: Bytes, at: nat, r: Record)
    requires IsRecord(r)
  {
    at + Length(r) <= |bytes| && bytes[at..at + Length(r)] == Serialized(r)
  }

  predicate InPlace(bytes: Bytes, start: nat, records: seq<Record>, k: nat)
    requires k < |records|
  {
    IsRecord(records[k]) && LiesAt(bytes, StartOf(start, records, k), records[k])
  }

  /** All records are well-formed, and all but the last, of which only the place matters, lie end to end. */
  ghost predicate EndToEnd(bytes: Bytes, start: nat, records: seq<Record>) {
    && records != []
    && IsRecord(records[|records| - 1])
    && (forall k :: 0 <= k < |records| - 1 ==> InPlace(bytes, start, records, k))
  }

  /** No later record has the name of record `k`. */
  predicate Survives(records: seq<Record>, k: nat)
    requires k < |records|
  {
    forall j :: k < j < |records| ==> records[j].name != records[k].name
  }

  /** The reader keeps the last record of every raw name, and remembers where it began. */
  ghost predicate KeepsLast(starts: seq<nat>, start: nat, records: seq<Record>) {
    forall at :: at in starts <==> exists k :: 0 <= k < |records| && Survives(records, k) && StartOf(start, records, k) == at
  }

  lemma {:induction false} StartsIncrease(start: nat, records: seq<Record>, j: nat, k: nat)
    requires j < k <= |records|
    ensures StartOf(start, records, j) + FIXED <= StartOf(start, records, k)
  {
    if j < k - 1 {
      StartsIncrease(start, records, j, k - 1);
    }
  }

  lemma StartIsKept(starts: seq<nat>, start: nat, records: seq<Record>, k: nat)
    requires KeepsLast(starts, start, records) && k < |records|
    ensures StartOf(start, records, k) in starts <==> Survives(records, k)
  {
    var at := StartOf(start, records, k);
    if at in starts {
      var j :| 0 <= j < |records| && Survives(records, j) && StartOf(start, records, j) == at;
      if j < k {
        StartsIncrease(start, records, j, k);
      } else if k < j {
        StartsIncrease(start, records, k, j);
      }
    }
  }

  /** The walk stops exactly where the last record begins, for the last record survives. */
  lemma LastStart(starts: seq<nat>, start: nat, records: seq<Record>)
    requires KeepsLast(starts, start, records) && records != []
    ensures starts != [] && MaxOf(starts) == StartOf(start, records, |records| - 1)
  {
    var last := StartOf(start, records, |records| - 1);
    StartIsKept(starts, start, records, |records| - 1);
    var m := MaxOf(starts);
    var k :| 0 <= k < |records| && Survives(records, k) && StartOf(start, records, k) == m;
    if k < |records| - 1 {
      StartsIncrease(start, records, k, |records| - 1);
    }
  }

  // ----- Reading a record back -----

  lemma SliceAt(a: Bytes, b: Bytes, c: Bytes, k: nat)
    requires k < |b|
    ensures (a + b + c)[|a| + k] == b[k]
  {
  }

  lemma ReadLengths(r: Record)
    requires IsRecord(r)
    ensures var bytes := Serialized(r);
            && FromLe16(bytes[28], bytes[29]) == |r.name|
            && FromLe16(bytes[30], bytes[31]) == |r.extra|
            && FromLe16(bytes[32], bytes[33]) == |r.comment|
  {
    var middle := Le16(|r.name|) + Le16(|r.extra|) + Le16(|r.comment|) + r.tail;
    var rest := r.name + (r.extra + r.comment);
    forall k | 0 <= k < 6 ensures Serialized(r)[28 + k] == middle[k] {
      SliceAt(r.head, middle, rest, k);
    }
    assert middle[0] == |r.name| % 256 && middle[1] == |r.name| / 256;
    assert middle[2] == |r.extra| % 256 && middle[3] == |r.extra| / 256;
    assert middle[4] == |r.comment| % 256 && middle[5] == |r.comment| / 256;
  }

  lemma ReadName(r: Record)
    requires IsRecord(r)
    ensures Serialized(r)[FIXED..FIXED + |r.name|] == r.name
  {
    var front := r.head + (Le16(|r.name|) + Le16(|r.extra|) + Le16(|r.comment|) + r.tail);
    assert |front| == FIXED;
    assert Serialized(r) == front + (r.name + (r.extra + r.comment));
  }

  lemma SliceOfSlice(bytes: Bytes, at: nat, n: nat, i: nat, j: nat)
    requires at + n <= |bytes| && i <= j <= n
    ensures bytes[at..at + n][i..j] == bytes[at + i..at + j]
  {
    var whole, inner := bytes[at..at + n], bytes[at..at + n][i..j];
    assert |inner| == |bytes[at + i..at + j]|;
    forall k | 0 <= k < |inner| ensures inner[k] == bytes[at + i..at + j][k] {
      assert inner[k] == whole[i + k] == bytes[at + (i + k)] && at + (i + k) == (at + i) + k;
    }
  }

  lemma ReadRecord(bytes: Bytes, at: nat, r: Record)
    requires IsRecord(r) && LiesAt(bytes, at, r)
    ensures Field(bytes, at + 28) == Some(|r.name|)
    ensures Field(bytes, at + 30) == Some(|r.extra|)
    ensures Field(bytes, at + 32) == Some(|r.comment|)
    ensures at + FIXED + |r.name| <= |bytes| && bytes[at + FIXED..at + FIXED + |r.name|] == r.name
  {
    ReadLengths(r);
    ReadName(r);
    var own := bytes[at..at + Length(r)];
    assert own == Serialized(r);
    forall k | 0 <= k < 46 ensures bytes[at + k] == own[k] {
    }
    SliceOfSlice(bytes, at, Length(r), FIXED, FIXED + |r.name|);
  }

  // ----- What the walk decides -----

  /** The first record from `k` on that does not survive, if there is one. */
  function FirstDropped(records: seq<Record>, k: nat): (r: Option<nat>)
    requires k <= |records|
    ensures r.Some? ==> r.value < |records|
    decreases |records| - k
  {
    if k == |records| then None
    else if Survives(records, k) then FirstDropped(records, k + 1)
    else Some(k)
  }

  lemma {:induction false} FirstDroppedIsFirst(records: seq<Record>, k: nat)
    requires k <= |records|
    ensures match FirstDropped(records, k)
            case None => forall j :: k <= j < |records| ==> Survives(records, j)
            case Some(d) => k <= d < |records| - 1 && !Survives(records, d) && forall j :: k <= j < d ==> Survives(records, j)
    decreases |records| - k
  {
    if k < |records| && Survives(records, k) {
      FirstDroppedIsFirst(records, k + 1);
    }
  }

  function Outcome(records: seq<Record>, dropped: Option<nat>): Verdict
    requires dropped.Some? ==> dropped.value < |records|
  {
    match dropped
    case None => Accepted
    case Some(k) => Dropped(records[k].name)
  }

  lemma WalkStep(bytes: Bytes, at: nat, last: nat, kept: set<nat>, r: Record)
    requires IsRecord(r) && LiesAt(bytes, at, r) && at < last
    ensures Walk(bytes, at, last, kept) == if at in kept then Walk(bytes, at + Length(r), last, kept) else Dropped(r.name)
  {
    ReadRecord(bytes, at, r);
    assert at + FIXED + |r.name| + |r.extra| + |r.comment| == at + Length(r);
  }

  lemma WalkOne(bytes: Bytes, start: nat, records: seq<Record>, starts: seq<nat>, k: nat)
    requires EndToEnd(bytes, start, records) && KeepsLast(starts, start, records) && k < |records| - 1
    ensures var last := StartOf(start, records, |records| - 1);
            Walk(bytes, StartOf(start, records, k), last, KeptAt(starts))
            == if Survives(records, k) then Walk(bytes, StartOf(start, records, k + 1), last, KeptAt(starts))
               else Dropped(records[k].name)
  {
    var at, last := StartOf(start, records, k), StartOf(start, records, |records| - 1);
    StartsIncrease(start, records, k, |records| - 1);
    assert InPlace(bytes, start, records, k);
    WalkStep(bytes, at, last, KeptAt(starts), records[k]);
    StartIsKept(starts, start, records, k);
    assert StartOf(start, records, k + 1) == at + Length(records[k]);
  }

  lemma {:induction false} WalkFrom(bytes: Bytes, start: nat, records: seq<Record>, starts: seq<nat>, k: nat)
    requires EndToEnd(bytes, start, records) && KeepsLast(starts, start, records) && k < |records|
    ensures Walk(bytes, StartOf(start, records, k), StartOf(start, records, |records| - 1), KeptAt(starts))
            == Outcome(records, FirstDropped(records, k))
    decreases |records| - k
  {
    if k < |records| - 1 {
      WalkOne(bytes, start, records, starts, k);
      WalkFrom(bytes, start, records, starts, k + 1);
    }
  }

  predicate DistinctNames(records: seq<Record>) {
    forall j, k :: 0 <= j < k < |records| ==> records[j].name != records[k].name
  }

  /**
   * Given records end to end and a reader that keeps the last of every raw name, the
   * walk accepts exactly the archives whose raw names are pairwise distinct, and
   * otherwise names the first record that was dropped; it never loses its place.
   */
  lemma AcceptedExactlyWhenDistinct(bytes: Bytes, start: nat, records: seq<Record>, starts: seq<nat>)
    requires EndToEnd(bytes, start, records) && KeepsLast(starts, start, records)
    ensures VerdictOf(bytes, start, starts) == Accepted <==> DistinctNames(records)
    ensures VerdictOf(bytes, start, starts)
            == Outcome(records, FirstDropped(records, 0))
  {
    LastStart(starts, start, records);
    FirstDroppedIsFirst(records, 0);
    WalkFrom(bytes, start, records, starts, 0);
    forall j, k | 0 <= j < k < |records| && Survives(records, j) ensures records[j].name != records[k].name {
    }
  }

  lemma SlicesAgree(bytes: Bytes, other: Bytes, last: nat, i: nat, j: nat)
    requires last <= |bytes| && last <= |other| && bytes[..last] == other[..last] && i <= j <= last
    ensures bytes[i..j] == other[i..j]
  {
    assert bytes[i..j] == bytes[..last][i..j] && other[i..j] == other[..last][i..j];
  }

  lemma LiesInBoth(bytes: Bytes, other: Bytes, start: nat, records: seq<Record>, k: nat)
    requires EndToEnd(bytes, start, records) && k < |records| - 1
    requires var last := StartOf(start, records, |records| - 1);
             last <= |bytes| && last <= |other| && bytes[..last] == other[..last]
    ensures InPlace(other, start, records, k)
  {
    var at, last := StartOf(start, records, k), StartOf(start, records, |records| - 1);
    assert InPlace(bytes, start, records, k);
    var end := at + Length(records[k]);
    assert end == StartOf(start, records, k + 1);
    if k + 1 < |records| - 1 {
      StartsIncrease(start, records, k + 1, |records| - 1);
    }
    SlicesAgree(bytes, other, last, at, end);
  }

  /** The verdict depends on no byte at or after the start of the last record, whatever and however much is there. */
  lemma NothingPastTheLastStartIsRead(bytes: Bytes, other: Bytes, start: nat, records: seq<Record>, starts: seq<nat>)
    requires EndToEnd(bytes, start, records) && KeepsLast(starts, start, records)
    requires var last := StartOf(start, records, |records| - 1);
             last <= |bytes| && last <= |other| && bytes[..last] == other[..last]
    ensures VerdictOf(other, start, starts) == VerdictOf(bytes, start, starts)
  {
    forall k | 0 <= k < |records| - 1 ensures InPlace(other, start, records, k) {
      LiesInBoth(bytes, other, start, records, k);
    }
    AcceptedExactlyWhenDistinct(bytes, start, records, starts);
    AcceptedExactlyWhenDistinct(other, start, records, starts);
  }

  // ----- Any bytes at all -----

  function TwoBytes(bytes: Bytes, at: nat): nat
    requires at + 2 <= |bytes|
  {
    var low: int, high: int := bytes[at], bytes[at + 1];
    low + 256 * high
  }

  /** What the bytes at `at` say, read as a record: its lengths are there, and it ends where `next` begins. */
  predicate LeadsTo(bytes: Bytes, at: nat, next: nat) {
    at + 34 <= |bytes|
    && next == at + 46 + TwoBytes(bytes, at + 28) + TwoBytes(bytes, at + 30) + TwoBytes(bytes, at + 32)
  }

  /** The places at which the reader kept a record, each where the one before it ends, up to one that is not checked yet. */
  ghost predicate IsChain(bytes: Bytes, kept: set<nat>, last: nat, chain: seq<nat>) {
    chain != [] && forall i :: 0 <= i < |chain| - 1 ==> chain[i] < last && chain[i] in kept && LeadsTo(bytes, chain[i], chain[i + 1])
  }

  /** At `at`, before the last kept record, stands a record with this name that the reader did not keep. */
  predicate NotKept(bytes: Bytes, kept: set<nat>, last: nat, at: nat, name: Bytes) {
    && at < last && at !in kept && at + 34 <= |bytes|
    && at + 46 + TwoBytes(bytes, at + 28) <= |bytes|
    && name == bytes[at + 46..at + 46 + TwoBytes(bytes, at + 28)]
  }

  lemma StepOnAnyBytes(bytes: Bytes, at: nat, last: nat, kept: set<nat>)
    requires at < last
    ensures forall next: nat :: at in kept && LeadsTo(bytes, at, next) ==> Walk(bytes, at, last, kept) == Walk(bytes, next, last, kept)
    ensures at in kept && at + 34 > |bytes| ==> Walk(bytes, at, last, kept) == Lost
    ensures at !in kept ==> match Walk(bytes, at, last, kept)
                            case Accepted => false
                            case Dropped(name) => NotKept(bytes, kept, last, at, name)
                            case Lost => forall name :: !NotKept(bytes, kept, last, at, name)
  {
  }

  lemma {:induction false} ChainIsWalked(bytes: Bytes, kept: set<nat>, last: nat, chain: seq<nat>)
    requires IsChain(bytes, kept, last, chain)
    ensures Walk(bytes, chain[0], last, kept) == Walk(bytes, chain[|chain| - 1], last, kept)
  {
    if |chain| > 1 {
      assert LeadsTo(bytes, chain[0], chain[0 + 1]);
      StepOnAnyBytes(bytes, chain[0], last, kept);
      ChainIsWalked(bytes, kept, last, chain[1..]);
    }
  }

  lemma {:induction false} WalkIsAChain(bytes: Bytes, at: nat, last: nat, kept: set<nat>) returns (chain: seq<nat>)
    ensures IsChain(bytes, kept, last, chain) && chain[0] == at
    ensures var end := chain[|chain| - 1]; end >= last || end !in kept || end + 34 > |bytes|
    decreases if at < last then last - at else 0
  {
    if at >= last || at !in kept || at + 34 > |bytes| {
      chain := [at];
    } else {
      var next := at + 46 + TwoBytes(bytes, at + 28) + TwoBytes(bytes, at + 30) + TwoBytes(bytes, at + 32);
      var rest := WalkIsAChain(bytes, next, last, kept);
      chain := [at] + rest;
      forall i | 0 <= i < |chain| - 1 ensures chain[i] < last && chain[i] in kept && LeadsTo(bytes, chain[i], chain[i + 1]) {
        if i > 0 {
          assert chain[i] == rest[i - 1] && chain[i + 1] == rest[(i - 1) + 1];
        }
      }
    }
  }

  /** Some chain from `start` ends at `at`. */
  ghost predicate Reaches(bytes: Bytes, kept: set<nat>, last: nat, start: nat, at: nat) {
    exists chain :: IsChain(bytes, kept, last, chain) && chain[0] == start && chain[|chain| - 1] == at
  }

  /**
   * Whatever the bytes are: an archive is accepted exactly when the kept records lie end to
   * end, by their own lengths, from the start of the directory to the last of them; and a
   * name is reported as dropped exactly when they do so up to a record of that name that was
   * not kept. All else is refused too.
   */
  lemma AcceptedExactlyWhenEndToEnd(bytes: Bytes, start: nat, starts: seq<nat>)
    requires starts != []
    ensures var kept, last := KeptAt(starts), MaxOf(starts);
            VerdictOf(bytes, start, starts) == Accepted <==> Reaches(bytes, kept, last, start, last)
    ensures var kept, last := KeptAt(starts), MaxOf(starts);
            forall name :: VerdictOf(bytes, start, starts) == Dropped(name)
                           <==> exists at: nat :: NotKept(bytes, kept, last, at, name) && Reaches(bytes, kept, last, start, at)
  {
    var kept, last := KeptAt(starts), MaxOf(starts);
    var chain := WalkIsAChain(bytes, start, last, kept);
    var end := chain[|chain| - 1];
    ChainIsWalked(bytes, kept, last, chain);
    if end < last {
      StepOnAnyBytes(bytes, end, last, kept);
    }
    assert Reaches(bytes, kept, last, start, end);
    if Reaches(bytes, kept, last, start, last) {
      var all :| IsChain(bytes, kept, last, all) && all[0] == start && all[|all| - 1] == last;
      ChainIsWalked(bytes, kept, last, all);
    }
    forall name, at: nat | NotKept(bytes, kept, last, at, name) && Reaches(bytes, kept, last, start, at)
      ensures VerdictOf(bytes, start, starts) == Dropped(name)
    {
      var some :| IsChain(bytes, kept, last, some) && some[0] == start && some[|some| - 1] == at;
      ChainIsWalked(bytes, kept, last, some);
      StepOnAnyBytes(bytes, at, last, kept);
    }
  }

  // ----- A printed directory -----

  function Printed(records: seq<Record>): Bytes
    requires forall k :: 0 <= k < |records| ==> IsRecord(records[k])
  {
    if records == [] then [] else Printed(records[..|records| - 1]) + Serialized(records[|records| - 1])
  }

  lemma {:induction false} PrintedPart(records: seq<Record>, k: nat) returns (rest: Bytes)
    requires k <= |records| && forall k :: 0 <= k < |records| ==> IsRecord(records[k])
    ensures Printed(records) == Printed(records[..k]) + rest
    decreases |records|
  {
    if k == |records| {
      rest := [];
      assert records[..k] == records;
    } else {
      var shorter := records[..|records| - 1];
      var part := PrintedPart(shorter, k);
      assert shorter[..k] == records[..k];
      rest := part + Serialized(records[|records| - 1]);
      Regroup(Printed(records[..k]), part, Serialized(records[|records| - 1]));
    }
  }

  lemma Regroup(a: Bytes, b: Bytes, c: Bytes)
    ensures a + b + c == a + (b + c)
  {
  }

  lemma {:induction false} PrintedLength(records: seq<Record>, start: nat, k: nat)
    requires k <= |records| && forall k :: 0 <= k < |records| ==> IsRecord(records[k])
    ensures start + |Printed(records[..k])| == StartOf(start, records, k)
  {
    if k > 0 {
      assert records[..k][..k - 1] == records[..k - 1];
      PrintedLength(records, start, k - 1);
    }
  }

  lemma Middle(before: Bytes, front: Bytes, own: Bytes, rest: Bytes, after: Bytes)
    ensures var all, at := before + (front + (own + rest)) + after, |before| + |front|;
            at + |own| <= |all| && all[at..at + |own|] == own
  {
    var all := before + (front + (own + rest)) + after;
    assert all == (before + front) + own + (rest + after);
  }

  lemma LiesInMiddle(before: Bytes, front: Bytes, r: Record, rest: Bytes, after: Bytes, printed: Bytes, at: nat)
    requires IsRecord(r) && printed == front + (Serialized(r) + rest) && at == |before| + |front|
    ensures LiesAt(before + printed + after, at, r)
  {
    Middle(before, front, Serialized(r), rest, after);
  }

  /** A directory printed record after record, between anything else, lies end to end. */
  lemma PrintedLiesEndToEnd(before: Bytes, records: seq<Record>, after: Bytes)
    requires records != [] && forall k :: 0 <= k < |records| ==> IsRecord(records[k])
    ensures EndToEnd(before + Printed(records) + after, |before|, records)
  {
    forall k | 0 <= k < |records| ensures InPlace(before + Printed(records) + after, |before|, records, k) {
      PrintedInPlace(before, records, after, k);
    }
  }

  lemma PrintedSplit(records: seq<Record>, k: nat) returns (rest: Bytes)
    requires k < |records| && forall k :: 0 <= k < |records| ==> IsRecord(records[k])
    ensures Printed(records) == Printed(records[..k]) + (Serialized(records[k]) + rest)
  {
    rest := PrintedPart(records, k + 1);
    assert records[..k + 1][..k] == records[..k];
    Regroup(Printed(records[..k]), Serialized(records[k]), rest);
  }

  lemma PrintedInPlace(before: Bytes, records: seq<Record>, after: Bytes, k: nat)
    requires k < |records| && forall k :: 0 <= k < |records| ==> IsRecord(records[k])
    ensures InPlace(before + Printed(records) + after, |before|, records, k)
  {
    var rest := PrintedSplit(records, k);
    PrintedLength(records, |before|, k);
    LiesInMiddle(before, Printed(records[..k]), records[k], rest, after, Printed(records), StartOf(|before|, records, k));
  }
}
