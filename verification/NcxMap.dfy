/**
 * When the NCX reader holds open entries outside its map: exactly when a map
 * starts inside an open entry and ends while that entry is still open.
 */
module NcxMap {
  import opened Nav
  import opened NavSafety
  import Whitespace
  import opened Xml

  // ----- One step -----

  predicate IsMapStart(event: Event) {
    event.Start? && event.name == "navMap"
  }

  /** Open entries, and no map. */
  predicate Outlives(s: State) {
    !s.inside && s.stack != []
  }

  /** Inside a map that started in an open entry, which lies above it. */
  ghost predicate Overlapping(s: State) {
    && s.inside && s.stack != [] && s.stack[0].depth < s.outerDepth <= s.depth
    && Safe(s, 0)
  }

  lemma EntryStartIsClean(s: State, name: string, attrs: seq<Attr>, resolve: string -> string)
    requires NavSafe(s) && name != "navMap"
    ensures NavSafe(NcxStart(Deeper(s), name, attrs, resolve))
  {
    DeeperIsSafe(s);
    if name == "navPoint" {
      if s.inside && |s.stack| < MAX_DEPTH {
        ItemIsSafe(s);
      }
    } else {
      LinkIsClean(Deeper(s), attrs, resolve);
    }
  }

  lemma LinkIsClean(s: State, attrs: seq<Attr>, resolve: string -> string)
    requires NavSafe(s)
    ensures NavSafe(NcxLink(s, attrs, resolve))
  {
    if s.stack != [] {
      RelabelIsSafe(s, s.outerDepth, Top(s.stack).point.(href := resolve(Attribute(attrs, "src"))));
    }
  }

  lemma EndIsClean(s: State, name: string)
    requires NavSafe(s)
    ensures NavSafe(Rise(PopAt(NcxEndLabel(s, name))))
  {
    Whitespace.CollapseIsIdempotent(s.text);
    if s.stack != [] {
      RelabelIsSafe(s, FloorOf(s), Top(s.stack).point.(title := Whitespace.Collapse(s.text)));
    }
    PopIsSafe(NcxEndLabel(s, name), FloorOf(s));
    RiseIsSafe(NcxEndLabel(s, name), FloorOf(s));
  }

  /** As long as no map starts inside an open entry, nothing is open outside the map. */
  lemma CleanStep(s: State, event: Event, resolve: string -> string)
    requires NavSafe(s) && !(IsMapStart(event) && s.stack != [])
    ensures NavSafe(NcxStep(s, event, resolve))
  {
    match event {
      case Start(name, attrs) =>
        if name != "navMap" {
          EntryStartIsClean(s, name, attrs, resolve);
        }
      case Empty(name, attrs) => LinkIsClean(s, attrs, resolve);
      case End(name) => EndIsClean(s, name);
      case _ =>
    }
  }

  lemma PopKeepsBottom(s: State)
    requires s.stack != [] && s.stack[0].depth < s.depth
    ensures PopAt(s).stack != [] && PopAt(s).stack[0].depth == s.stack[0].depth
  {
  }

  /** In such a map, only its own end leads outside, and leaves the entry open. */
  lemma OverlapEnds(s: State, name: string)
    requires Overlapping(s)
    ensures var t := Rise(PopAt(NcxEndLabel(s, name)));
            && t.stack != [] && t.stack[0].depth == s.stack[0].depth
            && t.depth == s.depth - 1 && t.outerDepth == s.outerDepth
            && (t.inside <==> s.depth != s.outerDepth)
  {
    PopKeepsBottom(NcxEndLabel(s, name));
  }

  lemma OverlapStep(s: State, event: Event, resolve: string -> string)
    requires Overlapping(s) && !IsMapStart(event)
    ensures var t := NcxStep(s, event, resolve);
            if event.End? && s.depth == s.outerDepth then Outlives(t) && t.depth < s.outerDepth
            else Overlapping(t) && t.outerDepth == s.outerDepth
  {
    NcxStepIsSafe(s, event, resolve);
    if event.End? {
      OverlapEnds(s, event.name);
    }
  }

  /** A map that starts while an entry is open lies below that entry. */
  lemma MapStartOverlaps(s: State, event: Event, resolve: string -> string)
    requires Safe(s, 0) && s.stack != [] && IsMapStart(event)
    ensures var t := NcxStep(s, event, resolve);
            Overlapping(t) && t.outerDepth == t.depth == s.depth + 1
  {
    NcxStepIsSafe(s, event, resolve);
    DepthsIncrease(s.stack, 0, s.depth);
  }

  // ----- Runs -----

  /** The reader's states before and after each event. */
  ghost predicate IsTrace(trace: seq<State>, events: seq<Event>, resolve: string -> string) {
    && |trace| == |events| + 1 && trace[0] == Initial
    && forall i :: 0 <= i < |events| ==> trace[i + 1] == NcxStep(trace[i], events[i], resolve)
  }

  /** Event `i` starts a map while an entry is open. */
  predicate MapInEntry(trace: seq<State>, events: seq<Event>, i: nat) {
    i < |events| < |trace| && IsMapStart(events[i]) && trace[i].stack != []
  }

  /** Event `i` starts a map inside an open entry, and event `j` takes the depth back below that start. */
  predicate LeftMapInEntry(trace: seq<State>, events: seq<Event>, i: nat, j: nat) {
    MapInEntry(trace, events, i) && i < j < |events| && trace[j + 1].depth < trace[i + 1].depth
  }

  predicate OutlivesAt(trace: seq<State>, m: nat) {
    m < |trace| && Outlives(trace[m])
  }

  /** Up to event `n`, no map was left that started in an open entry, and nothing was open outside a map. */
  ghost predicate Untroubled(trace: seq<State>, events: seq<Event>, n: nat) {
    && (forall i: nat, j: nat :: j < n ==> !LeftMapInEntry(trace, events, i, j))
    && (forall m: nat :: m <= n ==> !OutlivesAt(trace, m))
  }

  ghost predicate NoMapInEntry(trace: seq<State>, events: seq<Event>, n: nat)
    requires n < |trace|
  {
    NavSafe(trace[n]) && forall i: nat :: i < n ==> !MapInEntry(trace, events, i)
  }

  /** The map being read started in an open entry, as the innermost of all that did. */
  ghost predicate InMapInEntry(trace: seq<State>, events: seq<Event>, n: nat)
    requires n < |trace|
  {
    && Overlapping(trace[n])
    && (exists i: nat :: i < n && MapInEntry(trace, events, i) && trace[i + 1].depth == trace[n].outerDepth)
    && forall i: nat :: i < n && MapInEntry(trace, events, i) ==> trace[i + 1].depth <= trace[n].outerDepth
  }

  ghost predicate Troubled(trace: seq<State>, events: seq<Event>, n: nat) {
    && (exists i: nat, j: nat :: j < n && LeftMapInEntry(trace, events, i, j))
    && (exists m: nat :: m <= n && OutlivesAt(trace, m))
  }

  ghost predicate Phase(trace: seq<State>, events: seq<Event>, n: nat)
    requires n < |trace|
  {
    || Troubled(trace, events, n)
    || (Untroubled(trace, events, n) && (NoMapInEntry(trace, events, n) || InMapInEntry(trace, events, n)))
  }

  lemma StaysTroubled(trace: seq<State>, events: seq<Event>, n: nat)
    requires Troubled(trace, events, n)
    ensures Troubled(trace, events, n + 1)
  {
    var i: nat, j: nat :| j < n && LeftMapInEntry(trace, events, i, j);
    var m: nat :| m <= n && OutlivesAt(trace, m);
    assert j < n + 1 && m <= n + 1;
  }

  lemma FromNoMap(trace: seq<State>, events: seq<Event>, n: nat, resolve: string -> string)
    requires IsTrace(trace, events, resolve) && n < |events| && Safe(trace[n], 0)
    requires Untroubled(trace, events, n) && NoMapInEntry(trace, events, n)
    ensures Phase(trace, events, n + 1)
  {
    if MapInEntry(trace, events, n) {
      MapStartOverlaps(trace[n], events[n], resolve);
      assert n < n + 1 && MapInEntry(trace, events, n) && trace[n + 1].depth == trace[n + 1].outerDepth;
      assert InMapInEntry(trace, events, n + 1);
    } else {
      CleanStep(trace[n], events[n], resolve);
    }
  }

  lemma FromMap(trace: seq<State>, events: seq<Event>, n: nat, resolve: string -> string)
    requires IsTrace(trace, events, resolve) && n < |events|
    requires Untroubled(trace, events, n) && InMapInEntry(trace, events, n)
    ensures Phase(trace, events, n + 1)
  {
    var i: nat :| i < n && MapInEntry(trace, events, i) && trace[i + 1].depth == trace[n].outerDepth;
    if IsMapStart(events[n]) {
      MapStartOverlaps(trace[n], events[n], resolve);
      assert n < n + 1 && MapInEntry(trace, events, n) && trace[n + 1].depth == trace[n + 1].outerDepth;
      assert InMapInEntry(trace, events, n + 1);
    } else {
      OverlapStep(trace[n], events[n], resolve);
      if Outlives(trace[n + 1]) {
        assert n < n + 1 && LeftMapInEntry(trace, events, i, n);
        assert n + 1 <= n + 1 && OutlivesAt(trace, n + 1);
      } else {
        assert i < n + 1 && MapInEntry(trace, events, i) && trace[i + 1].depth == trace[n + 1].outerDepth;
      }
    }
  }

  lemma NextPhase(trace: seq<State>, events: seq<Event>, n: nat, resolve: string -> string)
    requires IsTrace(trace, events, resolve) && n < |events| && Safe(trace[n], 0) && Phase(trace, events, n)
    ensures Phase(trace, events, n + 1)
  {
    if Troubled(trace, events, n) {
      StaysTroubled(trace, events, n);
    } else if NoMapInEntry(trace, events, n) {
      FromNoMap(trace, events, n, resolve);
    } else {
      FromMap(trace, events, n, resolve);
    }
  }

  lemma {:induction false} EveryPhase(trace: seq<State>, events: seq<Event>, n: nat, resolve: string -> string)
    requires IsTrace(trace, events, resolve) && n <= |events|
    requires forall i :: 0 <= i <= |events| ==> Safe(trace[i], 0)
    ensures Phase(trace, events, n)
  {
    if n == 0 {
      assert NoMapInEntry(trace, events, 0);
    } else {
      EveryPhase(trace, events, n - 1, resolve);
      NextPhase(trace, events, n - 1, resolve);
    }
  }

  /** The states of a run. */
  function Trace(events: seq<Event>, resolve: string -> string): (trace: seq<State>)
    ensures |trace| == |events| + 1
    ensures forall i :: 0 <= i <= |events| ==> trace[i] == Run(Ncx, Initial, events[..i], resolve)
  {
    seq(|events| + 1, i requires 0 <= i <= |events| => Run(Ncx, Initial, events[..i], resolve))
  }

  lemma TraceSteps(events: seq<Event>, resolve: string -> string)
    ensures IsTrace(Trace(events, resolve), events, resolve)
    ensures forall i :: 0 <= i <= |events| ==> Safe(Trace(events, resolve)[i], 0)
  {
    var trace := Trace(events, resolve);
    forall i | 0 <= i < |events| ensures trace[i + 1] == NcxStep(trace[i], events[i], resolve) {
      RunNext(Ncx, events, i, resolve);
    }
    forall i | 0 <= i <= |events| ensures Safe(trace[i], 0) {
      NcxRunIsSafe(events[..i], resolve);
    }
  }

  /**
   * On every event sequence: an entry is at some moment open outside the map exactly
   * when a map starts while an entry is open and a later event leads back above that start.
   */
  lemma OutlivesExactlyWhen(events: seq<Event>, resolve: string -> string)
    ensures var trace := Trace(events, resolve);
            (exists m: nat :: OutlivesAt(trace, m)) <==> (exists i: nat, j: nat :: LeftMapInEntry(trace, events, i, j))
  {
    TraceSteps(events, resolve);
    EveryPhase(Trace(events, resolve), events, |events|, resolve);
  }

  /**
   * As long as no map starts while an entry is open, an NCX keeps what a navigation
   * document always keeps: nothing is open outside the map, and all that is open lies below it.
   */
  lemma NothingOutlivesAPlainMap(events: seq<Event>, resolve: string -> string)
    requires forall i: nat :: !MapInEntry(Trace(events, resolve), events, i)
    ensures forall m :: 0 <= m <= |events| ==> NavSafe(Run(Ncx, Initial, events[..m], resolve))
  {
    TraceSteps(events, resolve);
    forall m | 0 <= m <= |events| ensures NavSafe(Run(Ncx, Initial, events[..m], resolve)) {
      EveryPhase(Trace(events, resolve), events, m, resolve);
    }
  }

  /** The shortest such input: a map, an entry in it, and in that a map that ends. */
  lemma NcxEntryOpenOutsideTheMap(resolve: string -> string)
    ensures var events := [Start("navMap", []), Start("navPoint", []), Start("navMap", []), End("navMap")];
            LeftMapInEntry(Trace(events, resolve), events, 2, 3) && OutlivesAt(Trace(events, resolve), 4)
  {
    var events := [Start("navMap", []), Start("navPoint", []), Start("navMap", []), End("navMap")];
    TraceSteps(events, resolve);
    var trace := Trace(events, resolve);
    assert trace[1] == State(true, 1, 1, [], [], false, "", 0);
    assert trace[2] == State(true, 1, 2, [Open(Blank(), 2)], [], false, "", 0);
    MapStartOverlaps(trace[2], events[2], resolve);
    OverlapStep(trace[3], events[3], resolve);
  }
}
