/** The extraction itself: `Preread`, the event sink and the three loops of src/extract.rs. */
module Extraction {
  import opened Archive
  import opened Manifest
  import opened Outcomes
  import opened Passes
  import opened ReadAhead

  /** What a budget holds now. */
  function State(budget: Budget): Spent
    reads budget
  {
    Spent(budget.remaining, budget.consumed, budget.entries)
  }

  /** Entries inflated ahead of the walk, held so that they are not inflated twice. */
  class Preread {
    var held: map<nat, Bytes>

    constructor ()
      ensures held == map[]
    {
      held := map[];
    }

    /** The cache agrees with reading the archive again. */
    ghost predicate Truthful(archive: seq<Entry>)
      reads this
    {
      forall e :: e in held ==> e < |archive| && held[e] == Content(archive[e])
    }

    /** What an entry holds: out of the cache if an earlier pass kept it there, and inflated otherwise. */
    method Read(archive: seq<Entry>, e: nat, limits: Limits, budget: Budget) returns (r: Result<Bytes, Status>)
      requires Truthful(archive) && e < |archive| && archive[e].index == e && budget.Valid()
      modifies this, budget
      ensures Truthful(archive) && budget.Valid()
      ensures r.Ok? ==> r.value == Content(archive[e]) && held == old(held) - {e}
      ensures r.Ok? ==> budget.inflated == old(budget.inflated) + Asked(e, old(held.Keys))
      ensures r.Ok? ==> ChargeAll(old(State(budget)), archive, Asked(e, old(held.Keys)), limits) == Ok(State(budget))
      ensures r.Err? ==> e !in old(held) && Charge(old(State(budget)), archive[e], limits) == Err(r.error)
    {
      if e in held {
        var bytes := held[e];
        held := held - {e};
        return Ok(bytes);
      }
      ReadIsBySizeAlone(archive[e], limits, budget.remaining);
      r := budget.ReadEntry(archive[e], limits);
      if r.Ok? {
        assert held == old(held) - {e};
        OneRequest(old(State(budget)), archive, e, limits);
      }
    }

    method Keep(archive: seq<Entry>, e: nat, bytes: Bytes)
      requires Truthful(archive) && e < |archive| && bytes == Content(archive[e])
      modifies this
      ensures Truthful(archive) && held == old(held)[e := bytes]
    {
      held := held[e := bytes];
    }

    method Take(archive: seq<Entry>, e: nat) returns (bytes: Option<Bytes>)
      requires Truthful(archive)
      modifies this
      ensures Truthful(archive) && held == old(held) - {e}
      ensures bytes == if e in old(held) then Some(Content(archive[e])) else None
    {
      if e in held {
        bytes := Some(held[e]);
        held := held - {e};
      } else {
        bytes := None;
        assert held == held - {e};
      }
    }
  }

  /** The requests one access to the cache makes of the archive. */
  function Asked(e: nat, held: set<nat>): seq<nat> {
    if e in held then [] else [e]
  }

  lemma OneRequest(b: Spent, archive: seq<Entry>, e: nat, limits: Limits)
    requires e < |archive|
    ensures ChargeAll(b, archive, [e], limits) == Charge(b, archive[e], limits)
  {
    var c := Charge(b, archive[e], limits);
    if c.Ok? { assert ChargeAll(c.value, archive, [e][1..], limits) == c; }
  }

  /** Why a call ends early: the client takes no more events, or the call has failed. */
  datatype Abort = Gone | Failed(status: Status)

  /** The outbound stream, to a client that takes `patience` events in all before it leaves. */
  class Sink {
    const patience: nat
    var sent: seq<Event>

    constructor (patience: nat)
      ensures sent == [] && this.patience == patience
    {
      this.patience := patience;
      sent := [];
    }

    ghost predicate Abandoned()
      reads this
    {
      |sent| >= patience
    }

    method Emit(event: Event) returns (r: Result<(), Abort>)
      modifies this
      ensures r.Ok? ==> |sent| <= patience && sent == old(sent) + [event]
      ensures r.Err? ==> r.error == Gone && Abandoned() && sent == old(sent)
    {
      if |sent| >= patience {
        return Err(Gone);
      }
      sent := sent + [event];
      return Ok(());
    }
  }

  // ----- How far a pass has come -----

  /**
   * A pass that was to make `requests` has made `done` of them, all granted,
   * and `rest` are left.
   */
  ghost predicate Progress(
      from: Spent, now: Spent, archive: seq<Entry>, limits: Limits,
      requests: seq<nat>, done: seq<nat>, rest: seq<nat>)
  {
    && requests == done + rest
    && Within(archive, done) && Within(archive, rest)
    && ChargeAll(from, archive, done, limits) == Ok(now)
  }

  lemma ProgressOn(
      from: Spent, now: Spent, after: Spent, archive: seq<Entry>, limits: Limits,
      requests: seq<nat>, done: seq<nat>, asked: seq<nat>, rest: seq<nat>)
    requires Progress(from, now, archive, limits, requests, done, asked + rest)
    requires Within(archive, asked) && Within(archive, rest)
    requires ChargeAll(now, archive, asked, limits) == Ok(after)
    ensures Progress(from, after, archive, limits, requests, done + asked, rest)
  {
    ChargeAllSplits(from, archive, done, asked, limits);
    assert done + (asked + rest) == (done + asked) + rest;
  }

  lemma ProgressFails(
      from: Spent, now: Spent, archive: seq<Entry>, limits: Limits,
      requests: seq<nat>, done: seq<nat>, e: nat, rest: seq<nat>, error: Status)
    requires Progress(from, now, archive, limits, requests, done, [e] + rest)
    requires e < |archive| && Charge(now, archive[e], limits) == Err(error)
    ensures Within(archive, requests) && ChargeAll(from, archive, requests, limits) == Err(error)
  {
    ChargeAllSplits(from, archive, done, [e] + rest, limits);
    assert ([e] + rest)[0] == e;
  }

  /** Some of the requests, from the first on, were all that was made, and all were granted. */
  ghost predicate GrantedInPart(from: Spent, now: Spent, archive: seq<Entry>, limits: Limits, requests: seq<nat>) {
    exists done :: done <= requests && Within(archive, done) && ChargeAll(from, archive, done, limits) == Ok(now)
  }

  lemma ProgressInPart(
      from: Spent, now: Spent, archive: seq<Entry>, limits: Limits, requests: seq<nat>, done: seq<nat>, rest: seq<nat>)
    requires Progress(from, now, archive, limits, requests, done, rest)
    ensures GrantedInPart(from, now, archive, limits, requests)
  {
    assert done <= requests;
  }

  /** A finished pass made all its requests. */
  lemma ProgressEnds(from: Spent, now: Spent, archive: seq<Entry>, limits: Limits, requests: seq<nat>, done: seq<nat>)
    requires Progress(from, now, archive, limits, requests, done, [])
    ensures done == requests && Within(archive, requests) && ChargeAll(from, archive, requests, limits) == Ok(now)
  {
    assert done + [] == done;
  }

  /** What a pass found when it began. */
  datatype Start = Start(spent: Spent, held: set<nat>, inflated: seq<nat>, sent: seq<Event>)

  /**
   * A part of a call made its requests: all of them when it succeeded; when it failed,
   * with the error of the first that could not be granted; and when the client left,
   * those from the first on to some point.
   */
  ghost predicate Made(
      archive: seq<Entry>, limits: Limits, from: Spent, asked: seq<nat>, r: Result<(), Abort>, now: Spent)
  {
    && Within(archive, asked)
    && match r
       case Ok(_) => ChargeAll(from, archive, asked, limits) == Ok(now)
       case Err(Failed(status)) => ChargeAll(from, archive, asked, limits) == Err(status)
       case Err(Gone) => GrantedInPart(from, now, archive, limits, asked)
  }

  /** A failed or abandoned first part ends the whole; otherwise the second decides. */
  lemma MadeTogether(
      archive: seq<Entry>, limits: Limits, from: Spent, first: seq<nat>, middle: Spent, rest: seq<nat>,
      r: Result<(), Abort>, now: Spent)
    requires Made(archive, limits, from, first, Ok(()), middle) && Made(archive, limits, middle, rest, r, now)
    ensures Made(archive, limits, from, first + rest, r, now)
  {
    ChargeAllSplits(from, archive, first, rest, limits);
    if r == Err(Gone) {
      var done :| done <= rest && Within(archive, done) && ChargeAll(middle, archive, done, limits) == Ok(now);
      ChargeAllSplits(from, archive, first, done, limits);
      assert first + done <= first + rest;
    }
  }

  lemma EndedEarly(
      archive: seq<Entry>, limits: Limits, from: Spent, first: seq<nat>, rest: seq<nat>, abort: Abort, now: Spent)
    requires Made(archive, limits, from, first, Err(abort), now) && Within(archive, rest)
    ensures Made(archive, limits, from, first + rest, Err(abort), now)
  {
    ChargeAllSplits(from, archive, first, rest, limits);
    if abort.Gone? {
      var done :| done <= first && Within(archive, done) && ChargeAll(from, archive, done, limits) == Ok(now);
      assert done <= first + rest;
    }
  }

  // ----- Navigation -----

  function NavEvents(b: Book, o: Options): seq<Event>
    requires ValidBook(b)
  {
    if !o.parseNavigation || b.nav.None? then []
    else
      var source := b.nav.value;
      var path := b.items[source.position].path;
      var toc := b.readers.toc(Content(b.archive[source.entry]), path, source.fromNcx);
      if toc == [] then [] else [Navigation(path, toc, source.fromNcx)]
  }

  /** Read the navigation document and send its table of contents; a client that is gone ends the call. */
  method NavigationPass(b: Book, o: Options, limits: Limits, preread: Preread, budget: Budget, sink: Sink)
    returns (r: Result<(), Abort>)
    requires ValidBook(b) && budget.Valid() && preread.held == map[]
    modifies preread, budget, sink
    ensures budget.Valid() && preread.Truthful(b.archive)
    ensures r.Ok? ==> preread.held.Keys == NavHeld(b, o) && sink.sent == old(sink.sent) + NavEvents(b, o)
    ensures r.Ok? ==> budget.inflated == old(budget.inflated) + NavRequests(b, o)
    ensures Made(b.archive, limits, old(State(budget)), NavRequests(b, o), r, State(budget))
    ensures r.Err? ==> sink.sent == old(sink.sent) && (r.error.Gone? ==> sink.Abandoned())
  {
    if o.parseNavigation && b.nav.Some? {
      var source := b.nav.value;
      var path := b.items[source.position].path;
      OneRequest(State(budget), b.archive, source.entry, limits);
      var read := preread.Read(b.archive, source.entry, limits, budget);
      if read.Err? {
        return Err(Failed(read.error));
      }
      var toc := b.readers.toc(read.value, path, source.fromNcx);
      if source.entry in WillEmit(b) {
        preread.Keep(b.archive, source.entry, read.value);
      }
      if toc != [] {
        r := sink.Emit(Navigation(path, toc, source.fromNcx));
        return;
      }
    }
    return Ok(());
  }

  // ----- Media overlays -----

  /** The last pair each overlay entry serves. */
  function LastUses(entries: seq<Option<nat>>): (m: map<nat, nat>)
    ensures forall e :: e in m <==> Some(e) in entries
    ensures forall e :: e in m ==> m[e] < |entries| && entries[m[e]] == Some(e)
    ensures forall e, k :: e in m && m[e] < k < |entries| ==> entries[k] != Some(e)
  {
    if entries == [] then map[]
    else
      var n := |entries| - 1;
      assert entries == entries[..n] + [entries[n]];
      match entries[n]
      case None => LastUses(entries[..n])
      case Some(e) => LastUses(entries[..n])[e := n]
  }

  /** What one pair sends: its cues, unless it has none or the archive lacks its overlay. */
  function PairEvents(b: Book, k: nat): seq<Event>
    requires ValidBook(b) && k < |b.links|
  {
    var overlay := b.items[b.links[k].1];
    if overlay.entry.None? then []
    else
      var cues := b.readers.cues(Content(b.archive[overlay.entry.value]), overlay.path);
      if cues == [] then [] else [MediaOverlay(overlay.path, b.items[b.links[k].0].path, cues)]
  }

  /** The overlay events of the pairs from `k` on. */
  function OverlayEventsFrom(b: Book, k: nat): seq<Event>
    requires ValidBook(b) && k <= |b.links|
    decreases |b.links| - k
  {
    if k == |b.links| then [] else PairEvents(b, k) + OverlayEventsFrom(b, k + 1)
  }

  function OverlayEvents(b: Book, o: Options): seq<Event>
    requires ValidBook(b)
  {
    if o.parseOverlays then OverlayEventsFrom(b, 0) else []
  }

  /** What the overlay pass works on: the entry of each pair, and the entries the walk will send. */
  datatype Job = Job(entries: seq<Option<nat>>, willEmit: set<nat>)

  ghost predicate ValidJob(b: Book, job: Job) {
    && ValidBook(b) && |job.entries| == |b.links|
    && (forall k :: 0 <= k < |job.entries| ==> job.entries[k] == b.items[b.links[k].1].entry)
  }

  function Requested(job: Job, at: nat, held: set<nat>): seq<nat>
    requires at <= |job.entries|
  {
    OverlayRequests(job.entries, at, job.willEmit, held)
  }

  function HeldInTheEnd(job: Job, at: nat, held: set<nat>): set<nat>
    requires at <= |job.entries|
  {
    OverlayHeld(job.entries, at, job.willEmit, held)
  }

  /** Whether the walk, or a later pair, will ask for the overlay of pair `at`. */
  predicate Wanted(job: Job, at: nat)
    requires at < |job.entries| && job.entries[at].Some?
  {
    job.entries[at].value in job.willEmit || UsedAfter(job.entries, at, job.entries[at].value)
  }

  /** The cache after the pair `at` was served. */
  function HeldOn(job: Job, at: nat, held: set<nat>): set<nat>
    requires at < |job.entries| && job.entries[at].Some?
  {
    HeldAfter(job.entries, at, job.willEmit, held)
  }

  /** The overlay pass at pair `at`, having inflated `done` and sent `told`. */
  ghost predicate Reading(
      b: Book, job: Job, limits: Limits, start: Start, now: Spent, held: set<nat>,
      at: nat, done: seq<nat>, told: seq<Event>)
    requires ValidJob(b, job) && at <= |b.links|
  {
    && Progress(start.spent, now, b.archive, limits, Requested(job, 0, start.held), done, Requested(job, at, held))
    && HeldInTheEnd(job, 0, start.held) == HeldInTheEnd(job, at, held)
    && OverlayEventsFrom(b, 0) == told + OverlayEventsFrom(b, at)
  }

  lemma RequestedWithin(b: Book, job: Job, at: nat, held: set<nat>)
    requires ValidJob(b, job) && at <= |b.links|
    ensures Within(b.archive, Requested(job, at, held))
  {
    OverlayRequestsWithin(b.archive, job.entries, at, job.willEmit, held);
  }

  lemma ReadingSkips(
      b: Book, job: Job, limits: Limits, start: Start, now: Spent, held: set<nat>, at: nat, done: seq<nat>, told: seq<Event>)
    requires ValidJob(b, job) && at < |b.links| && job.entries[at].None?
    requires Reading(b, job, limits, start, now, held, at, done, told)
    ensures Reading(b, job, limits, start, now, held, at + 1, done, told)
  {
    assert PairEvents(b, at) == [] && told + ([] + OverlayEventsFrom(b, at + 1)) == told + OverlayEventsFrom(b, at + 1);
  }

  /** The requests of the pairs from `at` on are those of pair `at`, then of the others. */
  lemma RequestsOfPair(b: Book, job: Job, at: nat, held: set<nat>)
    requires ValidJob(b, job) && at < |b.links| && job.entries[at].Some?
    ensures Within(b.archive, Requested(job, at + 1, HeldOn(job, at, held)))
    ensures Requested(job, at, held) ==
            Asked(job.entries[at].value, held) + Requested(job, at + 1, HeldOn(job, at, held))
    ensures HeldInTheEnd(job, at, held) == HeldInTheEnd(job, at + 1, HeldOn(job, at, held))
  {
    RequestedWithin(b, job, at + 1, HeldOn(job, at, held));
  }

  lemma ReadingAdvances(
      b: Book, job: Job, limits: Limits, start: Start, now: Spent, after: Spent, held: set<nat>,
      at: nat, done: seq<nat>, told: seq<Event>)
    requires ValidJob(b, job) && at < |b.links| && job.entries[at].Some?
    requires Reading(b, job, limits, start, now, held, at, done, told)
    requires ChargeAll(now, b.archive, Asked(job.entries[at].value, held), limits) == Ok(after)
    ensures Reading(b, job, limits, start, after, HeldOn(job, at, held), at + 1,
                    done + Asked(job.entries[at].value, held), told + PairEvents(b, at))
  {
    RequestsOfPair(b, job, at, held);
    ProgressOn(start.spent, now, after, b.archive, limits, Requested(job, 0, start.held), done,
               Asked(job.entries[at].value, held), Requested(job, at + 1, HeldOn(job, at, held)));
    var more, rest := PairEvents(b, at), OverlayEventsFrom(b, at + 1);
    assert told + (more + rest) == (told + more) + rest;
  }

  /** The failure the overlay pass reports is the first its requests meet. */
  ghost predicate OverlaysFailed(b: Book, job: Job, limits: Limits, start: Start, error: Status) {
    && Within(b.archive, Requested(job, 0, start.held))
    && ChargeAll(start.spent, b.archive, Requested(job, 0, start.held), limits) == Err(error)
  }

  lemma ReadingFails(
      b: Book, job: Job, limits: Limits, start: Start, now: Spent, held: set<nat>,
      at: nat, done: seq<nat>, told: seq<Event>, error: Status)
    requires ValidJob(b, job) && at < |b.links| && job.entries[at].Some?
    requires Reading(b, job, limits, start, now, held, at, done, told)
    requires job.entries[at].value !in held && Charge(now, b.archive[job.entries[at].value], limits) == Err(error)
    ensures OverlaysFailed(b, job, limits, start, error)
  {
    RequestsOfPair(b, job, at, held);
    ProgressFails(start.spent, now, b.archive, limits, Requested(job, 0, start.held), done,
                  job.entries[at].value, Requested(job, at + 1, HeldOn(job, at, held)), error);
  }

  /** How the overlay pass ended early: at the first request that failed, or at an event that the client no longer took. */
  ghost predicate OverlaysEnded(b: Book, job: Job, limits: Limits, start: Start, budget: Budget, sink: Sink, abort: Abort)
    reads budget, sink
  {
    match abort
    case Failed(status) => OverlaysFailed(b, job, limits, start, status)
    case Gone =>
      Within(b.archive, Requested(job, 0, start.held)) && sink.Abandoned()
      && GrantedInPart(start.spent, State(budget), b.archive, limits, Requested(job, 0, start.held))
  }

  /** The pass sent the cues of every pair in order and inflated what the cache did not hold. */
  ghost predicate OverlaysDone(b: Book, job: Job, limits: Limits, start: Start, preread: Preread, budget: Budget, sink: Sink)
    requires ValidJob(b, job)
    reads preread, budget, sink
  {
    && Within(b.archive, Requested(job, 0, start.held))
    && preread.held.Keys == HeldInTheEnd(job, 0, start.held)
    && sink.sent == start.sent + OverlayEventsFrom(b, 0)
    && budget.inflated == start.inflated + Requested(job, 0, start.held)
    && ChargeAll(start.spent, b.archive, Requested(job, 0, start.held), limits) == Ok(State(budget))
  }

  /** The overlay pass is at pair `at`, and the budget and the cache agree with how far it has come. */
  ghost predicate FetchedTo(
      b: Book, job: Job, limits: Limits, start: Start, preread: Preread, budget: Budget,
      at: nat, done: seq<nat>, told: seq<Event>)
    reads preread, budget
  {
    && ValidJob(b, job) && at <= |b.links| && budget.Valid() && preread.Truthful(b.archive)
    && Reading(b, job, limits, start, State(budget), preread.held.Keys, at, done, told)
    && budget.inflated == start.inflated + done
  }

  /** Whatever stopped it, the pass has sent a beginning of what it would have sent. */
  ghost predicate CuesSoFar(b: Book, start: Start, sink: Sink)
    requires ValidBook(b)
    reads sink
  {
    start.sent <= sink.sent <= start.sent + OverlayEventsFrom(b, 0)
  }

  /** The bytes of an overlay, kept in the cache if they are still wanted. */
  method ReadOverlay(archive: seq<Entry>, e: nat, wanted: bool, limits: Limits, preread: Preread, budget: Budget)
    returns (r: Result<Bytes, Status>)
    requires budget.Valid() && preread.Truthful(archive) && e < |archive| && archive[e].index == e
    modifies preread, budget
    ensures budget.Valid() && preread.Truthful(archive)
    ensures r.Ok? ==> r.value == Content(archive[e])
    ensures r.Ok? ==> preread.held.Keys == if wanted then old(preread.held.Keys) + {e} else old(preread.held.Keys) - {e}
    ensures r.Ok? ==> budget.inflated == old(budget.inflated) + Asked(e, old(preread.held.Keys))
    ensures r.Ok? ==> ChargeAll(old(State(budget)), archive, Asked(e, old(preread.held.Keys)), limits) == Ok(State(budget))
    ensures r.Err? ==> e !in old(preread.held.Keys) && Charge(old(State(budget)), archive[e], limits) == Err(r.error)
  {
    r := preread.Read(archive, e, limits, budget);
    if r.Ok? && wanted {
      preread.Keep(archive, e, r.value);
    }
  }

  /** Read the overlay of one pair ahead of the walk. */
  method FetchPair(
      b: Book, job: Job, wanted: bool, limits: Limits, preread: Preread, budget: Budget,
      at: nat, ghost start: Start, ghost done: seq<nat>, ghost told: seq<Event>)
    returns (r: Result<Bytes, Status>, ghost done': seq<nat>)
    requires FetchedTo(b, job, limits, start, preread, budget, at, done, told) && at < |b.links|
    requires job.entries[at].Some? && (wanted <==> Wanted(job, at))
    modifies preread, budget
    ensures budget.Valid() && preread.Truthful(b.archive)
    ensures r.Ok? ==> r.value == Content(b.archive[job.entries[at].value])
    ensures r.Ok? ==> FetchedTo(b, job, limits, start, preread, budget, at + 1, done', told + PairEvents(b, at))
    ensures r.Err? ==> OverlaysFailed(b, job, limits, start, r.error)
  {
    ghost var held, before := preread.held.Keys, State(budget);
    var entry := job.entries[at].value;
    done' := done + Asked(entry, held);
    r := ReadOverlay(b.archive, entry, wanted, limits, preread, budget);
    if r.Err? {
      ReadingFails(b, job, limits, start, before, held, at, done, told, r.error);
    } else {
      ReadingAdvances(b, job, limits, start, before, State(budget), held, at, done, told);
      assert start.inflated + done' == start.inflated + done + Asked(entry, held);
    }
  }

  /** Whether the overlay of a pair is to be kept once it is read. */
  method IsWanted(job: Job, lastUse: map<nat, nat>, at: nat) returns (wanted: bool)
    requires at < |job.entries| && job.entries[at].Some? && lastUse == LastUses(job.entries)
    ensures wanted <==> Wanted(job, at)
  {
    var entry := job.entries[at].value;
    StillWanted(job.entries, at, entry);
    return entry in job.willEmit || lastUse[entry] > at;
  }

  /** Read the overlay of one pair and send its cues. */
  method ReadPair(
      b: Book, job: Job, wanted: bool, limits: Limits, preread: Preread, budget: Budget, sink: Sink,
      at: nat, ghost start: Start, ghost done: seq<nat>, ghost told: seq<Event>)
    returns (r: Result<(), Abort>, ghost done': seq<nat>, ghost told': seq<Event>)
    requires FetchedTo(b, job, limits, start, preread, budget, at, done, told) && sink.sent == start.sent + told
    requires at < |b.links| && job.entries[at].Some? && (wanted <==> Wanted(job, at))
    modifies preread, budget, sink
    ensures budget.Valid() && preread.Truthful(b.archive)
    ensures r.Ok? ==> FetchedTo(b, job, limits, start, preread, budget, at + 1, done', told')
    ensures r.Ok? ==> sink.sent == start.sent + told'
    ensures r.Err? ==> CuesSoFar(b, start, sink) && OverlaysEnded(b, job, limits, start, budget, sink, r.error)
  {
    told' := told + PairEvents(b, at);
    StillABeginning(start.sent, told, OverlayEventsFrom(b, at));
    var read;
    read, done' := FetchPair(b, job, wanted, limits, preread, budget, at, start, done, told);
    if read.Err? {
      return Err(Failed(read.error)), done', told';
    }
    r := SendCues(b, at, read.value, sink);
    assert start.sent + told' == start.sent + told + PairEvents(b, at);
    if r.Err? {
      ReadingInPart(b, job, limits, start, State(budget), preread.held.Keys, at + 1, done', told');
    }
  }

  lemma ReadingInPart(
      b: Book, job: Job, limits: Limits, start: Start, now: Spent, held: set<nat>, at: nat, done: seq<nat>, told: seq<Event>)
    requires ValidJob(b, job) && at <= |b.links| && Reading(b, job, limits, start, now, held, at, done, told)
    ensures Within(b.archive, Requested(job, 0, start.held))
    ensures GrantedInPart(start.spent, now, b.archive, limits, Requested(job, 0, start.held))
  {
    ProgressInPart(start.spent, now, b.archive, limits, Requested(job, 0, start.held), done, Requested(job, at, held));
    RequestedWithin(b, job, 0, start.held);
  }

  /** Send the cues of a pair whose overlay has been read, if it declares any. */
  method SendCues(b: Book, at: nat, bytes: Bytes, sink: Sink) returns (r: Result<(), Abort>)
    requires ValidBook(b) && at < |b.links|
    requires b.items[b.links[at].1].entry.Some? && bytes == Content(b.archive[b.items[b.links[at].1].entry.value])
    modifies sink
    ensures r.Ok? ==> sink.sent == old(sink.sent) + PairEvents(b, at)
    ensures r.Err? ==> r.error == Gone && sink.Abandoned() && sink.sent == old(sink.sent)
  {
    var overlay := b.items[b.links[at].1];
    var cues := b.readers.cues(bytes, overlay.path);
    if cues != [] {
      r := sink.Emit(MediaOverlay(overlay.path, b.items[b.links[at].0].path, cues));
      return;
    }
    return Ok(());
  }

  lemma StillABeginning<T>(start: seq<T>, told: seq<T>, rest: seq<T>)
    ensures start <= start + told <= start + (told + rest)
  {
  }

  method OverlayPass(b: Book, job: Job, limits: Limits, preread: Preread, budget: Budget, sink: Sink)
    returns (r: Result<(), Abort>)
    requires ValidJob(b, job) && budget.Valid() && preread.Truthful(b.archive)
    modifies preread, budget, sink
    ensures budget.Valid() && preread.Truthful(b.archive)
    ensures var start := Start(old(State(budget)), old(preread.held.Keys), old(budget.inflated), old(sink.sent));
            match r
            case Ok(_) => OverlaysDone(b, job, limits, start, preread, budget, sink)
            case Err(abort) => CuesSoFar(b, start, sink) && OverlaysEnded(b, job, limits, start, budget, sink, abort)
  {
    var lastUse := LastUses(job.entries);
    ghost var start := Start(State(budget), preread.held.Keys, budget.inflated, sink.sent);
    var at := 0;
    ghost var done: seq<nat> := [];
    ghost var told: seq<Event> := [];
    RequestedWithin(b, job, 0, start.held);
    while at < |b.links|
      invariant FetchedTo(b, job, limits, start, preread, budget, at, done, told) && sink.sent == start.sent + told
    {
      if job.entries[at].None? {
        ReadingSkips(b, job, limits, start, State(budget), preread.held.Keys, at, done, told);
      } else {
        var wanted := IsWanted(job, lastUse, at);
        r, done, told := ReadPair(b, job, wanted, limits, preread, budget, sink, at, start, done, told);
        if r.Err? {
          return;
        }
      }
      at := at + 1;
    }
    assert done + [] == done && told + [] == told;
    return Ok(());
  }

  lemma StillWanted(entries: seq<Option<nat>>, at: nat, e: nat)
    requires at < |entries| && entries[at] == Some(e)
    ensures e in LastUses(entries) && (LastUses(entries)[e] > at <==> UsedAfter(entries, at, e))
  {
    var last := LastUses(entries)[e];
    if last > at {
      assert entries[last] == Some(e);
    }
  }

  // ----- The walk -----

  /** The walk at chapter `k` and resource `q`, having inflated `done` and sent `told`. */
  ghost predicate Walking(
      b: Book, limits: Limits, from: Spent, now: Spent, held0: set<nat>, held: set<nat>,
      k: nat, q: nat, done: seq<nat>, told: seq<Event>)
    requires ValidBook(b) && k <= |b.spine| && q <= |b.pending|
  {
    && Progress(from, now, b.archive, limits, WalkAsks(b, 0, 0, held0), done, WalkAsks(b, k, q, held))
    && WalkHeld(SlotEntries(b, WalkSlots(b)), held0) == WalkHeld(SlotEntries(b, WalkFrom(b, k, q)), held)
    && SlotEvents(b, WalkSlots(b)) == told + SlotEvents(b, WalkFrom(b, k, q))
  }

  lemma WalkingStarts(b: Book, limits: Limits, from: Spent, held0: set<nat>)
    requires ValidBook(b)
    ensures Walking(b, limits, from, from, held0, held0, 0, 0, [], [])
  {
    WalkRequestsWithin(b.archive, SlotEntries(b, WalkSlots(b)), held0);
  }

  /** The requests of a walk are those of its first step, then of the others. */
  lemma WalkAsksFirst(b: Book, k: nat, q: nat, held: set<nat>, slot: Slot, k': nat, q': nat)
    requires ValidBook(b) && k <= |b.spine| && q <= |b.pending| && k' <= |b.spine| && q' <= |b.pending|
    requires WalkFrom(b, k, q) == [slot] + WalkFrom(b, k', q')
    ensures SlotIn(b, slot) && Within(b.archive, WalkAsks(b, k', q', held - {SlotEntry(b, slot)}))
    ensures WalkAsks(b, k, q, held) ==
            Asked(SlotEntry(b, slot), held) + WalkAsks(b, k', q', held - {SlotEntry(b, slot)})
  {
    SlotsFirst(b, WalkFrom(b, k, q), slot, WalkFrom(b, k', q'));
    var entry, entries := SlotEntry(b, slot), SlotEntries(b, WalkFrom(b, k', q'));
    assert ([entry] + entries)[1..] == entries;
    WalkRequestsWithin(b.archive, entries, held - {entry});
  }

  lemma WalkingAdvances(
      b: Book, limits: Limits, from: Spent, now: Spent, after: Spent, held0: set<nat>, held: set<nat>,
      k: nat, q: nat, done: seq<nat>, told: seq<Event>, slot: Slot, k': nat, q': nat)
    requires ValidBook(b) && k <= |b.spine| && q <= |b.pending| && k' <= |b.spine| && q' <= |b.pending|
    requires WalkFrom(b, k, q) == [slot] + WalkFrom(b, k', q') && SlotIn(b, slot)
    requires Walking(b, limits, from, now, held0, held, k, q, done, told)
    requires ChargeAll(now, b.archive, Asked(SlotEntry(b, slot), held), limits) == Ok(after)
    ensures Walking(b, limits, from, after, held0, held - {SlotEntry(b, slot)}, k', q',
                    done + Asked(SlotEntry(b, slot), held), told + [SlotEvent(b, slot)])
  {
    WalkAsksFirst(b, k, q, held, slot, k', q');
    ProgressOn(from, now, after, b.archive, limits, WalkAsks(b, 0, 0, held0), done,
               Asked(SlotEntry(b, slot), held), WalkAsks(b, k', q', held - {SlotEntry(b, slot)}));
    WalkTellsOn(b, k, q, held, told, slot, k', q');
  }

  lemma WalkTellsOn(b: Book, k: nat, q: nat, held: set<nat>, told: seq<Event>, slot: Slot, k': nat, q': nat)
    requires ValidBook(b) && k <= |b.spine| && q <= |b.pending| && k' <= |b.spine| && q' <= |b.pending|
    requires WalkFrom(b, k, q) == [slot] + WalkFrom(b, k', q') && SlotIn(b, slot)
    ensures told + SlotEvents(b, WalkFrom(b, k, q)) ==
            (told + [SlotEvent(b, slot)]) + SlotEvents(b, WalkFrom(b, k', q'))
    ensures WalkHeld(SlotEntries(b, WalkFrom(b, k, q)), held) ==
            WalkHeld(SlotEntries(b, WalkFrom(b, k', q')), held - {SlotEntry(b, slot)})
  {
    SlotsFirst(b, WalkFrom(b, k, q), slot, WalkFrom(b, k', q'));
    var e, rest := SlotEntry(b, slot), SlotEntries(b, WalkFrom(b, k', q'));
    assert ([e] + rest)[1..] == rest;
  }

  lemma WalkingFails(
      b: Book, limits: Limits, from: Spent, now: Spent, held0: set<nat>, held: set<nat>,
      k: nat, q: nat, done: seq<nat>, told: seq<Event>, slot: Slot, k': nat, q': nat, error: Status)
    requires ValidBook(b) && k <= |b.spine| && q <= |b.pending| && k' <= |b.spine| && q' <= |b.pending|
    requires WalkFrom(b, k, q) == [slot] + WalkFrom(b, k', q') && SlotIn(b, slot)
    requires Walking(b, limits, from, now, held0, held, k, q, done, told)
    requires SlotEntry(b, slot) !in held && Charge(now, b.archive[SlotEntry(b, slot)], limits) == Err(error)
    ensures Within(b.archive, WalkAsks(b, 0, 0, held0))
    ensures ChargeAll(from, b.archive, WalkAsks(b, 0, 0, held0), limits) == Err(error)
  {
    WalkAsksFirst(b, k, q, held, slot, k', q');
    ProgressFails(from, now, b.archive, limits, WalkAsks(b, 0, 0, held0), done, SlotEntry(b, slot),
                  WalkAsks(b, k', q', held - {SlotEntry(b, slot)}), error);
  }

  lemma WalkingEnds(
      b: Book, limits: Limits, from: Spent, now: Spent, held0: set<nat>, held: set<nat>, done: seq<nat>, told: seq<Event>)
    requires ValidBook(b) && Walking(b, limits, from, now, held0, held, |b.spine|, |b.pending|, done, told)
    ensures done == WalkAsks(b, 0, 0, held0) && Within(b.archive, done)
    ensures ChargeAll(from, b.archive, done, limits) == Ok(now)
    ensures held == WalkHeld(SlotEntries(b, WalkSlots(b)), held0) && told == SlotEvents(b, WalkSlots(b))
  {
    assert SlotEntries(b, WalkFrom(b, |b.spine|, |b.pending|)) == [];
    ProgressEnds(from, now, b.archive, limits, WalkAsks(b, 0, 0, held0), done);
    assert told + [] == told;
  }

  /** The bytes of a step: handed back by the cache, or inflated now. */
  method ContentFor(b: Book, e: nat, limits: Limits, preread: Preread, budget: Budget) returns (r: Result<Bytes, Status>)
    requires ValidBook(b) && budget.Valid() && preread.Truthful(b.archive) && e < |b.archive|
    modifies preread, budget
    ensures budget.Valid() && preread.Truthful(b.archive)
    ensures r.Ok? ==> r.value == Content(b.archive[e]) && preread.held.Keys == old(preread.held.Keys) - {e}
    ensures r.Ok? ==> budget.inflated == old(budget.inflated) + Asked(e, old(preread.held.Keys))
    ensures r.Ok? ==> ChargeAll(old(State(budget)), b.archive, Asked(e, old(preread.held.Keys)), limits) == Ok(State(budget))
    ensures r.Err? ==> e !in old(preread.held.Keys) && Charge(old(State(budget)), b.archive[e], limits) == Err(r.error)
  {
    var held := preread.Take(b.archive, e);
    if held.Some? {
      return Ok(held.value);
    }
    ReadIsBySizeAlone(b.archive[e], limits, budget.remaining);
    r := budget.ReadEntry(b.archive[e], limits);
    if r.Ok? { OneRequest(old(State(budget)), b.archive, e, limits); }
  }

  /** The walk is at chapter `k` and resource `q`, and the budget and the cache agree with how far it has come. */
  ghost predicate WalkedTo(
      b: Book, limits: Limits, start: Start, preread: Preread, budget: Budget,
      k: nat, q: nat, done: seq<nat>, told: seq<Event>)
    reads preread, budget
  {
    && ValidBook(b) && k <= |b.spine| && q <= |b.pending| && budget.Valid() && preread.Truthful(b.archive)
    && Walking(b, limits, start.spent, State(budget), start.held, preread.held.Keys, k, q, done, told)
    && budget.inflated == start.inflated + done
  }

  /** The failure a walk reports is the first its requests meet. */
  ghost predicate WalkFailed(b: Book, limits: Limits, start: Start, error: Status)
    requires ValidBook(b)
  {
    && Within(b.archive, WalkAsks(b, 0, 0, start.held))
    && ChargeAll(start.spent, b.archive, WalkAsks(b, 0, 0, start.held), limits) == Err(error)
  }

  /** Some of the walk's requests, from the first on, were made and granted. */
  ghost predicate WalkedInPart(b: Book, limits: Limits, start: Start, budget: Budget)
    requires ValidBook(b)
    reads budget
  {
    && Within(b.archive, WalkAsks(b, 0, 0, start.held))
    && GrantedInPart(start.spent, State(budget), b.archive, limits, WalkAsks(b, 0, 0, start.held))
  }

  /** How a walk ended early: at the first request that failed, or at an event that the client no longer took. */
  ghost predicate WalkEnded(b: Book, limits: Limits, start: Start, budget: Budget, sink: Sink, abort: Abort)
    requires ValidBook(b)
    reads budget, sink
  {
    match abort
    case Failed(status) => WalkFailed(b, limits, start, status)
    case Gone => sink.Abandoned() && WalkedInPart(b, limits, start, budget)
  }

  lemma WalkingInPart(
      b: Book, limits: Limits, from: Spent, now: Spent, held0: set<nat>, held: set<nat>,
      k: nat, q: nat, done: seq<nat>, told: seq<Event>)
    requires ValidBook(b) && k <= |b.spine| && q <= |b.pending|
    requires Walking(b, limits, from, now, held0, held, k, q, done, told)
    ensures Within(b.archive, WalkAsks(b, 0, 0, held0))
    ensures GrantedInPart(from, now, b.archive, limits, WalkAsks(b, 0, 0, held0))
  {
    ProgressInPart(from, now, b.archive, limits, WalkAsks(b, 0, 0, held0), done, WalkAsks(b, k, q, held));
    WalkRequestsWithin(b.archive, SlotEntries(b, WalkSlots(b)), held0);
  }

  /** Whatever stopped it, the walk has sent a beginning of what it would have sent. */
  ghost predicate SentSoFar(b: Book, start: Start, sink: Sink)
    requires ValidBook(b)
    reads sink
  {
    start.sent <= sink.sent <= start.sent + SlotEvents(b, WalkSlots(b))
  }

  /** The walk sent every step with its own bytes, in order, and inflated what the cache did not hold. */
  ghost predicate WalkDone(b: Book, limits: Limits, start: Start, preread: Preread, budget: Budget, sink: Sink)
    requires ValidBook(b)
    reads preread, budget, sink
  {
    var asked := WalkAsks(b, 0, 0, start.held);
    && Within(b.archive, asked)
    && preread.held.Keys == WalkHeld(SlotEntries(b, WalkSlots(b)), start.held)
    && sink.sent == start.sent + SlotEvents(b, WalkSlots(b))
    && budget.inflated == start.inflated + asked
    && ChargeAll(start.spent, b.archive, asked, limits) == Ok(State(budget))
  }

  // ----- Counting what is sent -----

  /** Chapter and resource events among some events. */
  function CountSent(events: seq<Event>): (nat, nat) {
    if events == [] then (0, 0)
    else
      var (chapters, resources) := CountSent(events[1..]);
      (chapters + if events[0].Chapter? then 1 else 0, resources + if events[0].Resource? then 1 else 0)
  }

  lemma {:induction false} CountsAdd(a: seq<Event>, c: seq<Event>)
    ensures CountSent(a + c) == (CountSent(a).0 + CountSent(c).0, CountSent(a).1 + CountSent(c).1)
  {
    if a == [] {
      assert a + c == c;
    } else {
      assert (a + c)[1..] == a[1..] + c;
      CountsAdd(a[1..], c);
    }
  }

  lemma OneCount(b: Book, slot: Slot)
    requires ValidBook(b) && SlotIn(b, slot)
    ensures CountSent([SlotEvent(b, slot)]) == if slot.ChapterSlot? then (1, 0) else (0, 1)
  {
    assert CountSent([SlotEvent(b, slot)][1..]) == (0, 0);
  }

  /** The counters stand at the chapter and resource events sent so far. */
  ghost predicate Counted(told: seq<Event>, chapters: nat, emitted: nat) {
    CountSent(told) == (chapters, emitted)
  }

  lemma CountedNext(b: Book, told: seq<Event>, chapters: nat, emitted: nat, slot: Slot)
    requires ValidBook(b) && SlotIn(b, slot) && Counted(told, chapters, emitted)
    ensures slot.ChapterSlot? ==> Counted(told + [SlotEvent(b, slot)], chapters + 1, emitted)
    ensures slot.ResourceSlot? ==> Counted(told + [SlotEvent(b, slot)], chapters, emitted + 1)
  {
    OneCount(b, slot);
    CountsAdd(told, [SlotEvent(b, slot)]);
  }

  // ----- The steps of the walk -----

  /** Get the bytes of one step. */
  method FetchStep(
      b: Book, limits: Limits, preread: Preread, budget: Budget, slot: Slot, entry: nat,
      ghost k: nat, ghost q: nat, ghost k': nat, ghost q': nat,
      ghost start: Start, ghost done: seq<nat>, ghost told: seq<Event>)
    returns (r: Result<Bytes, Status>, ghost done': seq<nat>)
    requires WalkedTo(b, limits, start, preread, budget, k, q, done, told)
    requires k' <= |b.spine| && q' <= |b.pending| && WalkFrom(b, k, q) == [slot] + WalkFrom(b, k', q')
    requires SlotIn(b, slot) && entry == SlotEntry(b, slot)
    modifies preread, budget
    ensures budget.Valid() && preread.Truthful(b.archive)
    ensures r.Ok? ==> r.value == Content(b.archive[entry])
    ensures r.Ok? ==> WalkedTo(b, limits, start, preread, budget, k', q', done', told + [SlotEvent(b, slot)])
    ensures r.Ok? ==> WalkedInPart(b, limits, start, budget)
    ensures r.Err? ==> WalkFailed(b, limits, start, r.error)
  {
    ghost var held, before := preread.held.Keys, State(budget);
    done' := done + Asked(entry, held);
    r := ContentFor(b, entry, limits, preread, budget);
    if r.Err? {
      WalkingFails(b, limits, start.spent, before, start.held, held, k, q, done, told, slot, k', q', r.error);
    } else {
      WalkingAdvances(b, limits, start.spent, before, State(budget), start.held, held, k, q, done, told, slot, k', q');
      assert start.inflated + done' == start.inflated + done + Asked(entry, held);
      WalkingInPart(b, limits, start.spent, State(budget), start.held, preread.held.Keys, k', q', done', told + [SlotEvent(b, slot)]);
    }
  }

  /** One step of the walk that sends a planned resource. */
  method EmitResource(
      b: Book, limits: Limits, preread: Preread, budget: Budget, sink: Sink, ghost k: nat, q: nat,
      ghost start: Start, ghost done: seq<nat>, ghost told: seq<Event>)
    returns (r: Result<(), Abort>, ghost done': seq<nat>, ghost told': seq<Event>)
    requires WalkedTo(b, limits, start, preread, budget, k, q, done, told) && sink.sent == start.sent + told
    requires q < |b.pending| && (k == |b.spine| || b.pending[q].entry < ChapterEntry(b.items, b.spine[k]))
    modifies preread, budget, sink
    ensures budget.Valid() && preread.Truthful(b.archive)
    ensures r.Ok? ==> WalkedTo(b, limits, start, preread, budget, k, q + 1, done', told')
    ensures r.Ok? ==> sink.sent == start.sent + told' && told' == told + [SlotEvent(b, ResourceSlot(q))]
    ensures r.Err? ==> SentSoFar(b, start, sink) && WalkEnded(b, limits, start, budget, sink, r.error)
  {
    told' := told + [SlotEvent(b, ResourceSlot(q))];
    StillABeginning(start.sent, told, SlotEvents(b, WalkFrom(b, k, q)));
    var content;
    content, done' := FetchStep(b, limits, preread, budget, ResourceSlot(q), b.pending[q].entry, k, q, k, q + 1,
                                start, done, told);
    if content.Err? {
      return Err(Failed(content.error)), done', told';
    }
    r := sink.Emit(ResourceEvent(b, q, content.value));
  }

  /** One step of the walk that sends the chapter of a spine position. */
  method EmitChapter(
      b: Book, limits: Limits, preread: Preread, budget: Budget, sink: Sink, k: nat, ghost q: nat,
      ghost start: Start, ghost done: seq<nat>, ghost told: seq<Event>)
    returns (r: Result<(), Abort>, ghost done': seq<nat>, ghost told': seq<Event>)
    requires WalkedTo(b, limits, start, preread, budget, k, q, done, told) && sink.sent == start.sent + told
    requires k < |b.spine| && (q == |b.pending| || b.pending[q].entry >= ChapterEntry(b.items, b.spine[k]))
    modifies preread, budget, sink
    ensures budget.Valid() && preread.Truthful(b.archive)
    ensures r.Ok? ==> WalkedTo(b, limits, start, preread, budget, k + 1, q, done', told')
    ensures r.Ok? ==> sink.sent == start.sent + told' && told' == told + [SlotEvent(b, ChapterSlot(k))]
    ensures r.Err? ==> SentSoFar(b, start, sink) && WalkEnded(b, limits, start, budget, sink, r.error)
  {
    told' := told + [SlotEvent(b, ChapterSlot(k))];
    StillABeginning(start.sent, told, SlotEvents(b, WalkFrom(b, k, q)));
    var content;
    content, done' := FetchStep(b, limits, preread, budget, ChapterSlot(k), ChapterEntry(b.items, b.spine[k]),
                                k, q, k + 1, q, start, done, told);
    if content.Err? {
      return Err(Failed(content.error)), done', told';
    }
    r := sink.Emit(ChapterEvent(b, k, content.value));
  }

  /** Send the planned resources whose entries come before the chapter `k`, or all that are left after the last, and count them. */
  method EmitResourcesBefore(
      b: Book, limits: Limits, preread: Preread, budget: Budget, sink: Sink, k: nat, q: nat, emitted: nat,
      ghost start: Start, ghost done: seq<nat>, ghost told: seq<Event>, ghost chapters: nat)
    returns (r: Result<(), Abort>, next: nat, emitted': nat, ghost done': seq<nat>, ghost told': seq<Event>)
    requires WalkedTo(b, limits, start, preread, budget, k, q, done, told) && sink.sent == start.sent + told
    requires Counted(told, chapters, emitted)
    modifies preread, budget, sink
    ensures budget.Valid() && preread.Truthful(b.archive)
    ensures r.Ok? ==> WalkedTo(b, limits, start, preread, budget, k, next, done', told')
    ensures r.Ok? ==> sink.sent == start.sent + told' && Counted(told', chapters, emitted')
    ensures r.Ok? ==> next == |b.pending| || (k < |b.spine| && b.pending[next].entry >= ChapterEntry(b.items, b.spine[k]))
    ensures r.Err? ==> SentSoFar(b, start, sink) && WalkEnded(b, limits, start, budget, sink, r.error)
  {
    next, emitted', done', told' := q, emitted, done, told;
    while next < |b.pending| && (k == |b.spine| || b.pending[next].entry < ChapterEntry(b.items, b.spine[k]))
      invariant WalkedTo(b, limits, start, preread, budget, k, next, done', told') && sink.sent == start.sent + told'
      invariant Counted(told', chapters, emitted')
      decreases |b.pending| - next
    {
      CountedNext(b, told', chapters, emitted', ResourceSlot(next));
      r, done', told' := EmitResource(b, limits, preread, budget, sink, k, next, start, done', told');
      if r.Err? {
        return;
      }
      emitted' := emitted' + 1;
      next := next + 1;
    }
    return Ok(()), next, emitted', done', told';
  }

  /**
   * Walk the spine, sending each resource when the walk has passed its entry, and count
   * the chapters and the resources as they are sent.
   */
  method Walk(b: Book, limits: Limits, preread: Preread, budget: Budget, sink: Sink)
    returns (r: Result<(), Abort>, chapters: nat, emitted: nat)
    requires ValidBook(b) && budget.Valid() && preread.Truthful(b.archive)
    modifies preread, budget, sink
    ensures budget.Valid() && preread.Truthful(b.archive)
    ensures var start := Start(old(State(budget)), old(preread.held.Keys), old(budget.inflated), old(sink.sent));
            match r
            case Ok(_) => WalkDone(b, limits, start, preread, budget, sink)
            case Err(abort) => SentSoFar(b, start, sink) && WalkEnded(b, limits, start, budget, sink, abort)
    ensures r.Ok? ==> Counted(SlotEvents(b, WalkSlots(b)), chapters, emitted)
  {
    ghost var start := Start(State(budget), preread.held.Keys, budget.inflated, sink.sent);
    ghost var done: seq<nat> := [];
    ghost var told: seq<Event> := [];
    WalkingStarts(b, limits, start.spent, start.held);
    chapters, emitted := 0, 0;
    var k, q := 0, 0;
    while k < |b.spine|
      invariant WalkedTo(b, limits, start, preread, budget, k, q, done, told) && sink.sent == start.sent + told
      invariant Counted(told, chapters, emitted)
    {
      r, q, emitted, done, told :=
        EmitResourcesBefore(b, limits, preread, budget, sink, k, q, emitted, start, done, told, chapters);
      if r.Err? {
        return;
      }
      CountedNext(b, told, chapters, emitted, ChapterSlot(k));
      r, done, told := EmitChapter(b, limits, preread, budget, sink, k, q, start, done, told);
      if r.Err? {
        return;
      }
      chapters := chapters + 1;
      k := k + 1;
    }
    r, q, emitted, done, told :=
      EmitResourcesBefore(b, limits, preread, budget, sink, k, q, emitted, start, done, told, chapters);
    if r.Ok? {
      WalkingEnds(b, limits, start.spent, State(budget), start.held, preread.held.Keys, done, told);
    }
  }

  // ----- The whole call -----

  function EventsAhead(b: Book, o: Options): seq<Event>
    requires ValidBook(b)
  {
    NavEvents(b, o) + OverlayEvents(b, o)
  }

  /** Every event of a successful call but the report that ends it. */
  function Stream(b: Book, o: Options): seq<Event>
    requires ValidBook(b)
  {
    EventsAhead(b, o) + SlotEvents(b, WalkSlots(b))
  }

  /** The report of a call: how many chapters and resources the walk sent, and what the budget has given out. */
  function Report(b: Book, after: Spent): Event
    requires ValidBook(b)
  {
    var (chapters, resources) := CountSent(SlotEvents(b, WalkSlots(b)));
    StatusReport(chapters, resources, b.skipped, after.consumed, after.entries)
  }

  lemma Joined<T>(a: seq<T>, b: seq<T>, c: seq<T>)
    ensures a + b + c == a + (b + c)
  {
  }

  /** A beginning of a part, after what was sent before it, is a beginning of the whole. */
  lemma BeginningOfPart<T>(start: seq<T>, before: seq<T>, part: seq<T>, sent: seq<T>)
    requires start + before <= sent <= start + before + part
    ensures start <= sent <= start + (before + part)
  {
    Joined(start, before, part);
  }

  lemma BeginningOfWhole<T>(start: seq<T>, part: seq<T>, after: seq<T>, sent: seq<T>)
    requires start <= sent <= start + part
    ensures start <= sent <= start + (part + after)
  {
    Joined(start, part, after);
  }

  lemma OverlaysAskedWithin(b: Book, o: Options)
    requires ValidBook(b)
    ensures Within(b.archive, OverlayRequests(OverlaysAsked(b, o), 0, WillEmit(b), NavHeld(b, o)))
  {
    OverlayRequestsWithin(b.archive, OverlaysAsked(b, o), 0, WillEmit(b), NavHeld(b, o));
  }

  /** The overlay pass, when the options ask for it. */
  method OptionalOverlayPass(b: Book, o: Options, limits: Limits, preread: Preread, budget: Budget, sink: Sink)
    returns (r: Result<(), Abort>)
    requires ValidBook(b) && budget.Valid() && preread.Truthful(b.archive) && preread.held.Keys == NavHeld(b, o)
    modifies preread, budget, sink
    ensures budget.Valid() && preread.Truthful(b.archive)
    ensures var asked := OverlayRequests(OverlaysAsked(b, o), 0, WillEmit(b), NavHeld(b, o));
            && Made(b.archive, limits, old(State(budget)), asked, r, State(budget))
            && (r.Ok? ==> budget.inflated == old(budget.inflated) + asked)
    ensures r.Ok? ==> preread.held.Keys == HeldAhead(b, o) && sink.sent == old(sink.sent) + OverlayEvents(b, o)
    ensures r.Err? ==> old(sink.sent) <= sink.sent <= old(sink.sent) + OverlayEvents(b, o)
    ensures r.Err? && r.error.Gone? ==> sink.Abandoned()
  {
    if o.parseOverlays {
      r := OverlayPass(b, Job(OverlayEntries(b), WillEmit(b)), limits, preread, budget, sink);
    } else {
      r := Ok(());
    }
  }

  /** The passes before the walk: navigation, then overlays. */
  method ReadAheadPasses(b: Book, o: Options, limits: Limits, preread: Preread, budget: Budget, sink: Sink)
    returns (r: Result<(), Abort>)
    requires ValidBook(b) && budget.Valid() && preread.held == map[]
    modifies preread, budget, sink
    ensures budget.Valid() && preread.Truthful(b.archive)
    ensures Made(b.archive, limits, old(State(budget)), AskedAhead(b, o), r, State(budget))
    ensures r.Ok? ==> budget.inflated == old(budget.inflated) + AskedAhead(b, o)
    ensures r.Ok? ==> preread.held.Keys == HeldAhead(b, o) && sink.sent == old(sink.sent) + EventsAhead(b, o)
    ensures r.Err? ==> old(sink.sent) <= sink.sent <= old(sink.sent) + EventsAhead(b, o)
    ensures r.Err? && r.error.Gone? ==> sink.Abandoned()
  {
    ghost var from, nav := State(budget), NavRequests(b, o);
    ghost var overlays := OverlayRequests(OverlaysAsked(b, o), 0, WillEmit(b), NavHeld(b, o));
    OverlaysAskedWithin(b, o);
    r := NavigationPass(b, o, limits, preread, budget, sink);
    if r.Err? {
      EndedEarly(b.archive, limits, from, nav, overlays, r.error, State(budget));
      return;
    }
    ghost var middle := State(budget);
    r := OptionalOverlayPass(b, o, limits, preread, budget, sink);
    MadeTogether(b.archive, limits, from, nav, middle, overlays, r, State(budget));
    Joined(old(budget.inflated), nav, overlays);
    Joined(old(sink.sent), NavEvents(b, o), OverlayEvents(b, o));
    if r.Err? {
      BeginningOfPart(old(sink.sent), NavEvents(b, o), OverlayEvents(b, o), sink.sent);
    }
  }

  /** The walk over a cache that the passes before it filled, and the report. */
  method WalkAndReport(b: Book, o: Options, limits: Limits, preread: Preread, budget: Budget, sink: Sink)
    returns (r: Result<(), Abort>)
    requires ValidBook(b) && budget.Valid() && preread.Truthful(b.archive) && preread.held.Keys == HeldAhead(b, o)
    modifies preread, budget, sink
    ensures budget.Valid() && Made(b.archive, limits, old(State(budget)), WalkAsks(b, 0, 0, HeldAhead(b, o)), r, State(budget))
    ensures r.Ok? ==> budget.inflated == old(budget.inflated) + WalkAsks(b, 0, 0, HeldAhead(b, o))
    ensures r.Ok? ==> preread.held == map[]
    ensures r.Ok? ==> sink.sent == old(sink.sent) + SlotEvents(b, WalkSlots(b)) + [Report(b, State(budget))]
    ensures r.Ok? ==> |sink.sent| <= sink.patience
    ensures r.Err? ==> old(sink.sent) <= sink.sent <= old(sink.sent) + SlotEvents(b, WalkSlots(b))
    ensures r.Err? && r.error.Gone? ==> sink.Abandoned()
  {
    var chapters, emitted;
    r, chapters, emitted := Walk(b, limits, preread, budget, sink);
    if r.Ok? {
      NothingIsLeftOver(b, o);
      assert preread.held.Keys == {};
      assert WalkAsks(b, 0, 0, HeldAhead(b, o)) <= WalkAsks(b, 0, 0, HeldAhead(b, o));
      r := sink.Emit(StatusReport(chapters, emitted, b.skipped, budget.consumed, budget.entries));
    }
  }

  /**
   * A whole call after the package document: everything read ahead, the walk,
   * and the report.  It fails exactly at the first inflation it asks for that does,
   * unless the client is gone before; and whatever it sends is a beginning of what
   * it would send in the end.
   */
  method Extract(b: Book, o: Options, limits: Limits, budget: Budget, sink: Sink) returns (r: Result<(), Abort>)
    requires ValidBook(b) && budget.Valid()
    modifies budget, sink
    ensures budget.Valid() && Made(b.archive, limits, old(State(budget)), Requests(b, o), r, State(budget))
    ensures r.Ok? ==> budget.inflated == old(budget.inflated) + Requests(b, o)
    ensures r.Ok? ==> sink.sent == old(sink.sent) + Stream(b, o) + [Report(b, State(budget))]
    ensures r.Err? ==> old(sink.sent) <= sink.sent <= old(sink.sent) + Stream(b, o)
    ensures r.Err? && r.error.Gone? ==> sink.Abandoned()
    ensures ChargeAll(old(State(budget)), b.archive, Requests(b, o), limits).Ok? ==>
              (r.Ok? <==> |old(sink.sent)| + |Stream(b, o)| < sink.patience)
  {
    ghost var from, ahead, rest := State(budget), AskedAhead(b, o), WalkAsks(b, 0, 0, HeldAhead(b, o));
    ghost var told, more := EventsAhead(b, o), SlotEvents(b, WalkSlots(b));
    WalkRequestsWithin(b.archive, SlotEntries(b, WalkSlots(b)), HeldAhead(b, o));
    var preread := new Preread();
    r := ReadAheadPasses(b, o, limits, preread, budget, sink);
    if r.Err? {
      EndedEarly(b.archive, limits, from, ahead, rest, r.error, State(budget));
      BeginningOfWhole(old(sink.sent), told, more, sink.sent);
      return;
    }
    ghost var middle := State(budget);
    r := WalkAndReport(b, o, limits, preread, budget, sink);
    MadeTogether(b.archive, limits, from, ahead, middle, rest, r, State(budget));
    Joined(old(budget.inflated), ahead, rest);
    Joined(old(sink.sent), told, more);
    if r.Err? {
      BeginningOfPart(old(sink.sent), told, more, sink.sent);
    }
  }

  /** Settle the spine and the plan of a book, before anything is inflated; the first itemref that is no chapter fails the call. */
  method Prepare(
      archive: seq<Entry>, items: seq<Item>, idrefs: seq<string>, tocIdref: string, obfuscated: set<nat>, readers: Readers)
    returns (r: Result<Book, Status>)
    requires Indexed(archive, items)
    ensures r.Ok? ==> ValidBook(r.value) && Prepared(archive, items, idrefs, tocIdref, obfuscated, readers, r.value)
    ensures r.Err? ==>
              exists k :: 0 <= k < |idrefs| && ResolveRef(items, idrefs[k], obfuscated) == Err(r.error)
                          && forall j :: 0 <= j < k ==> ResolveRef(items, idrefs[j], obfuscated).Ok?
  {
    var spine := ResolveSpine(items, idrefs, obfuscated);
    if spine.Err? {
      return Err(spine.error);
    }
    var pending, skipped := PlanResources(items, spine.value, obfuscated);
    BookIsValid(archive, items, spine.value, tocIdref, obfuscated, readers);
    return Ok(Book(archive, items, spine.value, pending, skipped, NavigationSource(items, tocIdref),
                   OverlayLinks(items, |items|), readers));
  }
}
