/** The methods of src/service.rs that move a call through the upload protocol. */
module Upload {
  import opened Archive
  import opened Outcomes
  import opened UploadBudget

  datatype Frame = Chunk(bytes: Bytes) | Options | Blank | Broken

  datatype Refusal = OptionsTwice | ChunkTooLarge | PastCap | BudgetFull | StreamBroken

  /** What is wrong with one frame, budget aside, when `length` bytes came before. */
  function Wrong(limits: UploadBudget.Limits, cap: nat, frame: Frame, length: nat): Option<Refusal> {
    match frame
    case Options => Some(OptionsTwice)
    case Broken => Some(StreamBroken)
    case Blank => None
    case Chunk(bytes) =>
      if |bytes| > limits.maxChunk then Some(ChunkTooLarge)
      else if length + |bytes| > cap then Some(PastCap)
      else None
  }

  function BytesOf(frame: Frame): Bytes {
    if frame.Chunk? then frame.bytes else []
  }

  /** The first thing wrong with the frames from `i` on. */
  function Verdict(limits: UploadBudget.Limits, cap: nat, frames: seq<Frame>, i: nat, length: nat): Option<Refusal>
    requires i <= |frames|
    decreases |frames| - i
  {
    if i == |frames| then None
    else
      var wrong := Wrong(limits, cap, frames[i], length);
      if wrong.Some? then wrong else Verdict(limits, cap, frames, i + 1, length + |BytesOf(frames[i])|)
  }

  lemma VerdictNext(limits: UploadBudget.Limits, cap: nat, frames: seq<Frame>, i: nat, length: nat)
    requires i < |frames|
    ensures var wrong := Wrong(limits, cap, frames[i], length);
            Verdict(limits, cap, frames, i, length)
            == if wrong.Some? then wrong else Verdict(limits, cap, frames, i + 1, length + |BytesOf(frames[i])|)
  {
  }

  /** The bytes of the first `n` frames, in order. */
  function Joined(frames: seq<Frame>, n: nat): Bytes
    requires n <= |frames|
  {
    if n == 0 then []
    else Joined(frames, n - 1) + BytesOf(frames[n - 1])
  }

  /** How many bytes the frames before `n` carry. */
  function Carried(frames: seq<Frame>, n: nat): nat
    requires n <= |frames|
  {
    if n == 0 then 0 else Carried(frames, n - 1) + if frames[n - 1].Chunk? then |frames[n - 1].bytes| else 0
  }

  /** What was received is every chunk in order: the bytes of each stand behind those of all before it. */
  lemma {:induction false} ChunksInOrder(frames: seq<Frame>, n: nat, i: nat)
    requires i < n <= |frames|
    ensures |Joined(frames, n)| == Carried(frames, n) && Carried(frames, i) <= Carried(frames, i + 1) <= Carried(frames, n)
    ensures frames[i].Chunk? ==> Joined(frames, n)[Carried(frames, i)..Carried(frames, i + 1)] == frames[i].bytes
  {
    JoinedLength(frames, n);
    if i < n - 1 {
      ChunksInOrder(frames, n - 1, i);
    } else {
      JoinedLength(frames, i);
    }
  }

  lemma {:induction false} JoinedLength(frames: seq<Frame>, n: nat)
    requires n <= |frames|
    ensures |Joined(frames, n)| == Carried(frames, n)
  {
    if n > 0 {
      JoinedLength(frames, n - 1);
    }
  }

  /** How a frame breaks the rules: options again, a broken stream, a chunk that is too large, or one too many bytes. */
  predicate Breaks(limits: UploadBudget.Limits, cap: nat, frames: seq<Frame>, i: nat, refusal: Refusal)
    requires i < |frames|
  {
    match frames[i]
    case Options => refusal == OptionsTwice
    case Broken => refusal == StreamBroken
    case Blank => false
    case Chunk(bytes) =>
      (|bytes| > limits.maxChunk && refusal == ChunkTooLarge)
      || (|bytes| <= limits.maxChunk && Carried(frames, i + 1) > cap && refusal == PastCap)
  }

  /** The verdict is on the first frame that breaks a rule, and there is none exactly when no frame does. */
  lemma {:induction false} VerdictIsOnTheFirst(limits: UploadBudget.Limits, cap: nat, frames: seq<Frame>, from: nat)
    requires from <= |frames|
    ensures match Verdict(limits, cap, frames, from, Carried(frames, from))
            case None => forall i, refusal :: from <= i < |frames| ==> !Breaks(limits, cap, frames, i, refusal)
            case Some(refusal) =>
              exists i :: from <= i < |frames| && Breaks(limits, cap, frames, i, refusal)
                          && forall j, other :: from <= j < i ==> !Breaks(limits, cap, frames, j, other)
    decreases |frames| - from
  {
    if from < |frames| {
      VerdictNext(limits, cap, frames, from, Carried(frames, from));
      BreaksIsWrong(limits, cap, frames, from);
      if Wrong(limits, cap, frames[from], Carried(frames, from)).None? {
        VerdictIsOnTheFirst(limits, cap, frames, from + 1);
      }
    }
  }

  lemma BreaksIsWrong(limits: UploadBudget.Limits, cap: nat, frames: seq<Frame>, i: nat)
    requires i < |frames|
    ensures forall refusal :: Breaks(limits, cap, frames, i, refusal) <==> Wrong(limits, cap, frames[i], Carried(frames, i)) == Some(refusal)
    ensures Carried(frames, i) + |BytesOf(frames[i])| == Carried(frames, i + 1)
  {
  }

  lemma RunNext(limits: UploadBudget.Limits, s: State, actions: seq<Action>, action: Action)
    ensures Run(limits, s, actions + [action]) == Step(limits, Run(limits, s, actions), action)
  {
    assert (actions + [action])[..|actions|] == actions;
  }

  lemma {:induction false} RunIsConserved(limits: UploadBudget.Limits, s: State, actions: seq<Action>)
    requires Conserved(limits, s)
    ensures Conserved(limits, Run(limits, s, actions))
  {
    if actions != [] {
      RunIsConserved(limits, s, actions[..|actions| - 1]);
      StepIsConserved(limits, Run(limits, s, actions[..|actions| - 1]), actions[|actions| - 1]);
    }
  }

  /** Nothing but one call has changed. */
  ghost predicate OnlyChanged(s: State, t: State, id: nat) {
    && |t.calls| == |s.calls| && id < |s.calls|
    && forall j :: 0 <= j < |s.calls| && j != id ==> t.calls[j] == s.calls[j]
  }

  // ----- One chunk -----

  /** After a chunk, and after the retry if the doubled reservation was refused. */
  function Settled(limits: UploadBudget.Limits, s: State, id: nat, size: nat): State
    requires In(s, id)
  {
    var t := Received(limits, s, id, size);
    if t.calls[id].phase.Retrying? then Retried(t, id) else t
  }

  function Steps(limits: UploadBudget.Limits, s: State, id: nat, size: nat): seq<Action>
    requires In(s, id)
  {
    if Received(limits, s, id, size).calls[id].phase.Retrying?
    then [UploadBudget.Frame(id, size)] + [UploadBudget.Retry(id)] else [UploadBudget.Frame(id, size)]
  }

  lemma StepsSettle(limits: UploadBudget.Limits, s: State, id: nat, size: nat)
    requires In(s, id) && s.calls[id].phase.Receiving?
    ensures Run(limits, s, Steps(limits, s, id, size)) == Settled(limits, s, id, size)
  {
    var frame := UploadBudget.Frame(id, size);
    RunNext(limits, s, [], frame);
    assert [] + [frame] == [frame];
    RunNext(limits, s, [frame], UploadBudget.Retry(id));
  }

  lemma SettledIsConserved(limits: UploadBudget.Limits, s: State, id: nat, size: nat)
    requires Conserved(limits, s) && In(s, id) && s.calls[id].phase.Receiving?
    ensures Conserved(limits, Settled(limits, s, id, size))
  {
    StepsSettle(limits, s, id, size);
    RunIsConserved(limits, s, Steps(limits, s, id, size));
  }

  lemma SettledFits(limits: UploadBudget.Limits, s: State, id: nat, size: nat)
    requires In(s, id) && s.calls[id].phase.Receiving? && size <= limits.maxChunk
    requires s.calls[id].length + size <= s.calls[id].cap && s.calls[id].length + size <= s.calls[id].capacity
    ensures Settled(limits, s, id, size) == With(s, id, s.calls[id].(length := s.calls[id].length + size))
  {
  }

  /** The doubled reservation if it is granted, or else the exact one, or else the end of the call. */
  function Larger(s: State, id: nat, doubled: nat, needed: nat): State
    requires In(s, id)
  {
    if Granted(s.free, More(s.calls[id].held, doubled)) then Grown(s, id, doubled, needed)
    else if Granted(s.free, More(s.calls[id].held, needed)) then Grown(s, id, needed, needed)
    else Ended(s, id)
  }

  lemma SettledGrows(limits: UploadBudget.Limits, s: State, id: nat, size: nat)
    requires In(s, id) && s.calls[id].phase.Receiving? && size <= limits.maxChunk
    requires s.calls[id].capacity < s.calls[id].length + size <= s.calls[id].cap
    ensures var call, needed := s.calls[id], s.calls[id].length + size;
            Settled(limits, s, id, size) == Larger(s, id, Doubled(call.capacity, needed, call.cap), needed)
  {
    var call, needed := s.calls[id], s.calls[id].length + size;
    if !Granted(s.free, More(call.held, Doubled(call.capacity, needed, call.cap))) {
      RetriedAlike(s, id, needed);
    }
  }

  /** The retry starts from where the refused reservation left the call. */
  lemma RetriedAlike(s: State, id: nat, needed: nat)
    requires In(s, id)
    ensures Retried(With(s, id, s.calls[id].(phase := Retrying(needed))), id)
            == if Granted(s.free, More(s.calls[id].held, needed)) then Grown(s, id, needed, needed) else Ended(s, id)
  {
    var t := With(s, id, s.calls[id].(phase := Retrying(needed)));
    assert t.calls[id := Call(s.calls[id].cap, 0, 0, 0, Gone)] == s.calls[id := Call(s.calls[id].cap, 0, 0, 0, Gone)];
  }

  // ----- When the budget refuses -----

  /** Whether one more chunk, which makes `needed` bytes, finds room. */
  predicate Admits(free: nat, capacity: nat, held: nat, needed: nat, cap: nat) {
    || needed <= capacity
    || Granted(free, More(held, Doubled(capacity, needed, cap)))
    || Granted(free, More(held, needed))
  }

  /** A chunk is never so large that a request for it passes a 32-bit count. */
  predicate SmallChunks(limits: UploadBudget.Limits) {
    limits.maxChunk <= U32_MAX * UNIT
  }

  /**
   * However far the buffer has grown, a chunk finds room exactly when all bytes so far
   * fit into what is free and what the call holds.
   */
  lemma AdmitsExactlyWhen(free: nat, length: nat, capacity: nat, held: nat, size: nat, cap: nat)
    requires held == Units(capacity) && length <= capacity && length + size <= cap && size <= U32_MAX * UNIT
    ensures Admits(free, capacity, held, length + size, cap) <==> Units(length + size) <= free + held
  {
    var needed := length + size;
    UnitsGrow(needed, Doubled(capacity, needed, cap));
    if needed <= capacity {
      UnitsGrow(needed, capacity);
    } else {
      UnitsAdd(capacity, needed - capacity);
      UnitsGrow(needed - capacity, U32_MAX * UNIT);
    }
  }

  lemma UnitsAdd(a: nat, b: nat)
    ensures Units(a + b) <= Units(a) + Units(b)
  {
  }

  /** What making room for `needed` bytes comes to, and the free permits before and after. */
  predicate Reserved(
      before: nat, cap: nat, capacity: nat, held: nat, needed: nat, after: nat, ok: bool, grown: nat, share: nat)
  {
    if needed <= capacity then ok && grown == capacity && share == held && after == before
    else
      var doubled := Doubled(capacity, needed, cap);
      && grown == (if Granted(before, More(held, doubled)) then doubled else needed)
      && (ok <==> Granted(before, More(held, grown)))
      && (ok ==> share == held + More(held, grown) && after == before - More(held, grown))
      && (!ok ==> after == before + held)
  }

  /** The call after a chunk: with its buffer grown, or gone. */
  function After(cap: nat, needed: nat, ok: bool, grown: nat, share: nat): Call {
    if ok then Call(cap, needed, grown, share, Receiving) else Call(cap, 0, 0, 0, Gone)
  }

  lemma LargerAsReserved(s: State, id: nat, needed: nat, after: nat, ok: bool, grown: nat, share: nat)
    requires In(s, id) && s.calls[id].phase.Receiving? && s.calls[id].capacity < needed
    requires Reserved(s.free, s.calls[id].cap, s.calls[id].capacity, s.calls[id].held, needed, after, ok, grown, share)
    ensures var call := s.calls[id];
            Larger(s, id, Doubled(call.capacity, needed, call.cap), needed)
            == s.(free := after, calls := s.calls[id := After(call.cap, needed, ok, grown, share)])
  {
  }

  /** The reservations that were made lead where the protocol does. */
  lemma SettledAsReserved(limits: UploadBudget.Limits, s: State, id: nat, size: nat, after: nat, ok: bool, grown: nat, share: nat)
    requires Conserved(limits, s) && In(s, id) && s.calls[id].phase.Receiving? && size <= limits.maxChunk
    requires s.calls[id].length + size <= s.calls[id].cap
    requires var call := s.calls[id];
             Reserved(s.free, call.cap, call.capacity, call.held, call.length + size, after, ok, grown, share)
    ensures var call, needed := s.calls[id], s.calls[id].length + size;
            && Settled(limits, s, id, size) == s.(free := after, calls := s.calls[id := After(call.cap, needed, ok, grown, share)])
            && Conserved(limits, Settled(limits, s, id, size))
            && after + (if ok then share else 0) == s.free + call.held
            && (SmallChunks(limits) ==> (ok <==> Units(needed) <= s.free + call.held))
  {
    if SmallChunks(limits) {
      AdmitsExactlyWhen(s.free, s.calls[id].length, s.calls[id].capacity, s.calls[id].held, size, s.calls[id].cap);
    }
    SettledIsConserved(limits, s, id, size);
    if s.calls[id].length + size <= s.calls[id].capacity {
      SettledFits(limits, s, id, size);
    } else {
      SettledGrows(limits, s, id, size);
      LargerAsReserved(s, id, s.calls[id].length + size, after, ok, grown, share);
    }
  }

  /** What comes of one frame when the call may hold up to `share` permits. */
  function Judged(limits: UploadBudget.Limits, cap: nat, share: nat, frame: Frame, length: nat): Option<Refusal> {
    var wrong := Wrong(limits, cap, frame, length);
    if wrong.Some? then wrong
    else if frame.Chunk? && Units(length + |frame.bytes|) > share then Some(BudgetFull)
    else None
  }

  /** What comes of the frames from `i` on: the first that is wrong, or that takes the bytes so far past `share`. */
  function Outcome(limits: UploadBudget.Limits, cap: nat, share: nat, frames: seq<Frame>, i: nat, length: nat): Option<Refusal>
    requires i <= |frames|
    decreases |frames| - i
  {
    if i == |frames| then None
    else
      var judged := Judged(limits, cap, share, frames[i], length);
      if judged.Some? then judged else Outcome(limits, cap, share, frames, i + 1, length + |BytesOf(frames[i])|)
  }

  /** How a frame ends a call that may hold up to `share` units: by breaking a rule, or by one byte more than they hold. */
  predicate Stops(limits: UploadBudget.Limits, cap: nat, share: nat, frames: seq<Frame>, i: nat, refusal: Refusal)
    requires i < |frames|
  {
    || (refusal != BudgetFull && Breaks(limits, cap, frames, i, refusal))
    || (refusal == BudgetFull && frames[i].Chunk? && |frames[i].bytes| <= limits.maxChunk
        && share * 1024 < Carried(frames, i + 1) <= cap)
  }

  lemma StopsIsJudged(limits: UploadBudget.Limits, cap: nat, share: nat, frames: seq<Frame>, i: nat)
    requires i < |frames|
    ensures forall refusal ::
              Stops(limits, cap, share, frames, i, refusal) <==> Judged(limits, cap, share, frames[i], Carried(frames, i)) == Some(refusal)
    ensures Carried(frames, i) + |BytesOf(frames[i])| == Carried(frames, i + 1)
  {
    BreaksIsWrong(limits, cap, frames, i);
  }

  /** Frame `i` is the first from `from` on that ends the call. */
  ghost predicate StopsFirst(
      limits: UploadBudget.Limits, cap: nat, share: nat, frames: seq<Frame>, from: nat, i: nat, refusal: Refusal)
  {
    && from <= i < |frames| && Stops(limits, cap, share, frames, i, refusal)
    && forall j, other :: from <= j < i ==> !Stops(limits, cap, share, frames, j, other)
  }

  /** With the budget counted in, the outcome is on the first frame that ends the call, and there is none exactly when no frame does. */
  lemma {:induction false} OutcomeIsOnTheFirst(limits: UploadBudget.Limits, cap: nat, share: nat, frames: seq<Frame>, from: nat)
    requires from <= |frames|
    ensures var outcome := Outcome(limits, cap, share, frames, from, Carried(frames, from));
            && (outcome.None? ==> forall i, refusal :: from <= i < |frames| ==> !Stops(limits, cap, share, frames, i, refusal))
            && (outcome.Some? ==> exists i: nat :: StopsFirst(limits, cap, share, frames, from, i, outcome.value))
    decreases |frames| - from
  {
    if from < |frames| {
      StopsIsJudged(limits, cap, share, frames, from);
      var judged := Judged(limits, cap, share, frames[from], Carried(frames, from));
      if judged.Some? {
        assert StopsFirst(limits, cap, share, frames, from, from, judged.value);
      } else {
        OutcomeIsOnTheFirst(limits, cap, share, frames, from + 1);
        var outcome := Outcome(limits, cap, share, frames, from + 1, Carried(frames, from + 1));
        if outcome.Some? {
          var i: nat :| StopsFirst(limits, cap, share, frames, from + 1, i, outcome.value);
          assert StopsFirst(limits, cap, share, frames, from, i, outcome.value);
        }
      }
    }
  }

  class Server {
    const limits: UploadBudget.Limits
    /** Free permits of the upload budget. */
    var free: nat
    /** Every call there has been, as the protocol sees it. */
    ghost var state: State

    ghost predicate Valid()
      reads this
    {
      state.free == free && Conserved(limits, state)
    }

    constructor (limits: UploadBudget.Limits)
      ensures Valid() && this.limits == limits && state == Start(limits)
    {
      this.limits := limits;
      var bytes := if limits.maxBuffered < limits.maxDocument then limits.maxDocument else limits.maxBuffered;
      var units := (bytes + UNIT - 1) / UNIT;
      free := if units < MAX_PERMITS then units else MAX_PERMITS;
      state := Start(limits);
    }

    /** Take as many free permits as a buffer of `capacity` bytes still lacks, all of them or none. */
    method ReserveUpload(held: nat, capacity: nat) returns (granted: bool, share: nat)
      modifies this`free
      ensures granted <==> Granted(old(free), More(held, capacity))
      ensures granted ==> share == held + More(held, capacity) && free == old(free) - More(held, capacity)
      ensures !granted ==> share == held && free == old(free)
    {
      var units := (capacity + UNIT - 1) / UNIT;
      if units <= held {
        return true, held;
      }
      var more := units - held;
      if more <= U32_MAX && more <= free {
        free := free - more;
        return true, held + more;
      }
      return false, held;
    }

    /** A share of the budget is given back when its owner is dropped. */
    method Release(held: nat)
      modifies this`free
      ensures free == old(free) + held
    {
      free := free + held;
    }

    /** The protocol's step, or two, for room that was made. */
    ghost method Follow(id: nat, size: nat, ok: bool, grown: nat, share: nat)
      requires Conserved(limits, state) && In(state, id) && state.calls[id].phase.Receiving?
      requires size <= limits.maxChunk && state.calls[id].length + size <= state.calls[id].cap
      requires var call := state.calls[id];
               Reserved(state.free, call.cap, call.capacity, call.held, call.length + size, free, ok, grown, share)
      modifies this`state
      ensures Valid() && OnlyChanged(old(state), state, id) && state == Settled(limits, old(state), id, size)
      ensures var call := old(state).calls[id];
              && state.calls[id] == After(call.cap, call.length + size, ok, grown, share)
              && free + (if ok then share else 0) == old(state).free + call.held
              && (SmallChunks(limits) ==> (ok <==> Units(call.length + size) <= old(state).free + call.held))
    {
      SettledAsReserved(limits, state, id, size, free, ok, grown, share);
      state := Settled(limits, state, id, size);
    }

    /** Room for `needed` bytes: as it is, or by growing the buffer. */
    method Room(cap: nat, capacity: nat, held: nat, needed: nat) returns (ok: bool, grown: nat, share: nat)
      modifies this`free
      ensures Reserved(old(free), cap, capacity, held, needed, free, ok, grown, share)
    {
      if needed <= capacity {
        return true, capacity, held;
      }
      ok, grown, share := Grow(cap, capacity, held, needed);
    }

    /** Reserve for twice the capacity, or, near the budget, for exactly what is needed, or give everything back. */
    method Grow(cap: nat, capacity: nat, held: nat, needed: nat) returns (ok: bool, grown: nat, share: nat)
      modifies this`free
      ensures var doubled := Doubled(capacity, needed, cap);
              grown == if Granted(old(free), More(held, doubled)) then doubled else needed
      ensures ok <==> Granted(old(free), More(held, grown))
      ensures ok ==> share == held + More(held, grown) && free == old(free) - More(held, grown)
      ensures !ok ==> free == old(free) + held
    {
      grown := Twice(capacity, needed, cap);
      ok, share := ReserveUpload(held, grown);
      if !ok {
        grown := needed;
        ok, share := ReserveUpload(held, needed);
        if !ok {
          Release(held);
        }
      }
    }

    method Twice(capacity: nat, needed: nat, cap: nat) returns (target: nat)
      ensures target == Doubled(capacity, needed, cap)
    {
      target := if capacity * 2 < U64_MAX then capacity * 2 else U64_MAX;
      target := if target < needed then needed else target;
      target := if target < cap then target else cap;
    }

    /**
     * Take one acceptable chunk into the buffer, growing it if need be: one step of the
     * protocol, or two.  Room is refused exactly when all bytes so far do not fit into
     * what is free and what the call holds.
     */
    method Accept(ghost id: nat, cap: nat, bytes: Bytes, capacity: nat, held: nat, chunk: Bytes)
      returns (ok: bool, grown: nat, share: nat)
      requires Valid() && In(state, id) && state.calls[id] == Call(cap, |bytes|, capacity, held, Receiving)
      requires |chunk| <= limits.maxChunk && |bytes| + |chunk| <= cap
      modifies this
      ensures Valid() && OnlyChanged(old(state), state, id) && state == Settled(limits, old(state), id, |chunk|)
      ensures state.calls[id] == After(cap, |bytes| + |chunk|, ok, grown, share)
      ensures free + (if ok then share else 0) == old(free) + held
      ensures SmallChunks(limits) ==> (ok <==> Units(|bytes| + |chunk|) <= old(free) + held)
    {
      ghost var size := |chunk|;
      ok, grown, share := Room(cap, capacity, held, |bytes| + |chunk|);
      Follow(id, size, ok, grown, share);
    }

    /** End a call before it parses, dropping its buffer and its share. */
    method Refuse(ghost id: nat, held: nat)
      requires Valid() && In(state, id) && state.calls[id].held == held && !state.calls[id].phase.Parsing?
      modifies this
      ensures Valid() && OnlyChanged(old(state), state, id)
      ensures state.calls[id] == Call(old(state).calls[id].cap, 0, 0, 0, Gone) && free == old(free) + held
    {
      EndedIsConserved(limits, state, id);
      Release(held);
      state := Ended(state, id);
    }

    /** A finished upload waits for a slot. */
    ghost method Settle(id: nat)
      requires Valid() && In(state, id) && state.calls[id].phase.Receiving?
      modifies this`state
      ensures Valid() && OnlyChanged(old(state), state, id)
      ensures state.calls[id] == old(state).calls[id].(phase := Waiting)
    {
      StepIsConserved(limits, state, UploadBudget.Complete(id));
      state := Step(limits, state, UploadBudget.Complete(id));
    }

    /** One frame: its chunk joins the buffer, or the call ends with everything given back. */
    method TakeFrame(ghost id: nat, cap: nat, bytes: Bytes, capacity: nat, held: nat, frame: Frame)
      returns (refusal: Option<Refusal>, joined: Bytes, grown: nat, share: nat)
      requires Valid() && In(state, id) && state.calls[id] == Call(cap, |bytes|, capacity, held, Receiving)
      modifies this
      ensures Valid() && OnlyChanged(old(state), state, id)
      ensures refusal.None? ==>
                Wrong(limits, cap, frame, |bytes|).None? && joined == bytes + BytesOf(frame)
                && state.calls[id] == Call(cap, |joined|, grown, share, Receiving) && free + share == old(free) + held
      ensures refusal.Some? ==>
                (refusal.value != BudgetFull ==> Wrong(limits, cap, frame, |bytes|) == refusal)
                && (refusal.value == BudgetFull ==> Wrong(limits, cap, frame, |bytes|).None?)
                && state.calls[id].phase.Gone? && free == old(free) + held
      ensures SmallChunks(limits) ==> refusal == Judged(limits, cap, old(free) + held, frame, |bytes|)
    {
      refusal, joined, grown, share := Wrong(limits, cap, frame, |bytes|), bytes, capacity, held;
      if refusal.Some? {
        Refuse(id, held);
      } else if frame.Chunk? {
        var ok;
        ok, grown, share := Accept(id, cap, bytes, capacity, held, frame.bytes);
        refusal := if ok then None else Some(BudgetFull);
        joined := bytes + frame.bytes;
      } else {
        assert bytes + [] == bytes;
      }
    }

    /** The frame at `i`, as a step towards the verdict on all of them. */
    method TakeNext(ghost id: nat, cap: nat, frames: seq<Frame>, i: nat, bytes: Bytes, capacity: nat, held: nat)
      returns (refusal: Option<Refusal>, joined: Bytes, grown: nat, share: nat)
      requires Valid() && In(state, id) && state.calls[id] == Call(cap, |bytes|, capacity, held, Receiving)
      requires i < |frames| && bytes == Joined(frames, i)
      modifies this
      ensures Valid() && OnlyChanged(old(state), state, id)
      ensures refusal.None? ==>
                joined == Joined(frames, i + 1)
                && state.calls[id] == Call(cap, |joined|, grown, share, Receiving) && free + share == old(free) + held
                && Judgement(cap, frames, i, |bytes|, old(free) + held) == Judgement(cap, frames, i + 1, |joined|, old(free) + held)
      ensures refusal.Some? ==>
                state.calls[id].phase.Gone? && free == old(free) + held
                && Settles(Judgement(cap, frames, i, |bytes|, old(free) + held), refusal)
    {
      VerdictNext(limits, cap, frames, i, |bytes|);
      refusal, joined, grown, share := TakeFrame(id, cap, bytes, capacity, held, frames[i]);
    }

    /** The verdict on the frames from `i` on, without the budget and with it. */
    ghost function Judgement(cap: nat, frames: seq<Frame>, i: nat, length: nat, share: nat): (Option<Refusal>, Option<Refusal>)
      requires i <= |frames|
    {
      (Verdict(limits, cap, frames, i, length),
       if SmallChunks(limits) then Outcome(limits, cap, share, frames, i, length) else None)
    }

    /** How a call ends, against both verdicts. */
    ghost predicate Settles(judgement: (Option<Refusal>, Option<Refusal>), refusal: Option<Refusal>) {
      && (refusal != Some(BudgetFull) ==> judgement.0 == refusal)
      && (SmallChunks(limits) ==> judgement.1 == refusal)
    }

    /**
     * Drain a request stream into one buffer. The result is all the chunks in order with
     * the share of the budget they hold, or the first thing wrong with the frames, or a
     * refusal by the budget; a call that fails leaves nothing held.  With no other call
     * stepping in between, the budget refuses exactly the first chunk that takes the bytes
     * so far past what was free, however the buffer has grown.
     */
    method Receive(ghost id: nat, cap: nat, frames: seq<Frame>) returns (result: Result<(Bytes, nat), Refusal>)
      requires Valid() && In(state, id) && state.calls[id] == Call(cap, 0, 0, 0, Receiving)
      modifies this
      ensures Valid() && OnlyChanged(old(state), state, id)
      ensures match result
              case Ok((bytes, held)) =>
                Verdict(limits, cap, frames, 0, 0).None? && bytes == Joined(frames, |frames|)
                && state.calls[id].phase.Waiting? && state.calls[id].length == |bytes| && state.calls[id].held == held
                && free + held == old(free)
              case Err(refusal) =>
                (refusal != BudgetFull ==> Verdict(limits, cap, frames, 0, 0) == Some(refusal))
                && state.calls[id].phase.Gone? && free == old(free)
      ensures SmallChunks(limits) ==>
                Outcome(limits, cap, old(free), frames, 0, 0) == if result.Ok? then None else Some(result.error)
    {
      ghost var was := state;
      ghost var judgement, had := Judgement(cap, frames, 0, 0, free), free;
      var bytes: Bytes, capacity: nat, held: nat := [], 0, 0;
      for i := 0 to |frames|
        invariant Valid() && OnlyChanged(was, state, id) && free + held == had
        invariant state.calls[id] == Call(cap, |bytes|, capacity, held, Receiving)
        invariant bytes == Joined(frames, i)
        invariant judgement == Judgement(cap, frames, i, |bytes|, had)
      {
        var refusal;
        refusal, bytes, capacity, held := TakeNext(id, cap, frames, i, bytes, capacity, held);
        if refusal.Some? {
          return Err(refusal.value);
        }
      }
      Settle(id);
      return Ok((bytes, held));
    }
  }
}
