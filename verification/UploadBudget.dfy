/**
 * The upload budget of src/service.rs as a protocol: any number of calls, each a
 * little state machine, sharing one semaphore, in any interleaving of their steps.
 */
module UploadBudget {
  const UNIT := 1024
  const MIB := 1024 * 1024
  const U32_MAX := 0xFFFF_FFFF
  const U64_MAX := 0xFFFF_FFFF_FFFF_FFFF
  const MAX_PERMITS := 0x1FFF_FFFF_FFFF_FFFF

  /** The server's ceilings, in bytes, and how many calls may parse at once. */
  datatype Limits = Limits(maxDocument: nat, maxBuffered: nat, maxChunk: nat, maxParses: nat)

  predicate Fits(limits: Limits) {
    limits.maxDocument <= U64_MAX && limits.maxBuffered <= U64_MAX
  }

  /**
   * Receiving frames; about to retry with exactly what is needed after the
   * doubled reservation was refused; waiting for a slot; parsing; or gone.
   */
  datatype Phase = Receiving | Retrying(needed: nat) | Waiting | Parsing | Gone

  datatype Call = Call(cap: nat, length: nat, capacity: nat, held: nat, phase: Phase)

  datatype State = State(free: nat, slots: nat, calls: seq<Call>)

  /** One atomic step; `Leave` is every way a call ends before it parses. */
  datatype Action =
    | Arrive(requestedMib: nat)
    | Frame(id: nat, size: nat)
    | Retry(id: nat)
    | Leave(id: nat)
    | Complete(id: nat)
    | TakeSlot(id: nat)
    | Finish(id: nat)

  // ----- Sizes -----

  function Units(bytes: nat): nat {
    (bytes + UNIT - 1) / UNIT
  }

  function Min(a: nat, b: nat): nat {
    if a < b then a else b
  }

  function Max(a: nat, b: nat): nat {
    if a < b then b else a
  }

  /** The budget in units: never less than one upload of the largest size. */
  function Budget(limits: Limits): nat {
    Min(Units(Max(limits.maxBuffered, limits.maxDocument)), MAX_PERMITS)
  }

  /** The ceiling on one upload: the caller's own if it named a smaller one. */
  function CapOf(limits: Limits, requestedMib: nat): nat {
    if requestedMib == 0 then limits.maxDocument else Min(limits.maxDocument, Min(requestedMib * MIB, U64_MAX))
  }

  /** Twice the capacity, but at least what is needed and at most the ceiling. */
  function Doubled(capacity: nat, needed: nat, cap: nat): nat {
    Min(Max(Min(capacity * 2, U64_MAX), needed), cap)
  }

  /** How many permits more it takes to cover `capacity` bytes. */
  function More(held: nat, capacity: nat): nat {
    if Units(capacity) <= held then 0 else Units(capacity) - held
  }

  /** Whether the semaphore gives that many: one request is a 32-bit count. */
  predicate Granted(free: nat, more: nat) {
    more == 0 || (more <= U32_MAX && more <= free)
  }

  // ----- Steps -----

  predicate In(s: State, id: nat) {
    id < |s.calls|
  }

  function With(s: State, id: nat, call: Call): State
    requires In(s, id)
  {
    s.(calls := s.calls[id := call])
  }

  /** The call is over and its share of the budget is given back. */
  function Ended(s: State, id: nat): State
    requires In(s, id)
  {
    var call := s.calls[id];
    With(s.(free := s.free + call.held), id, call.(length := 0, capacity := 0, held := 0, phase := Gone))
  }

  /** The buffer is grown to `target` and filled to `needed`. */
  function Grown(s: State, id: nat, target: nat, needed: nat): State
    requires In(s, id) && Granted(s.free, More(s.calls[id].held, target))
  {
    var call := s.calls[id];
    var more := More(call.held, target);
    With(s.(free := s.free - more), id,
         call.(length := needed, capacity := target, held := call.held + more, phase := Receiving))
  }

  /** One chunk of `size` bytes arrives at a receiving call. */
  function Received(limits: Limits, s: State, id: nat, size: nat): State
    requires In(s, id)
  {
    var call := s.calls[id];
    var needed := call.length + size;
    if size > limits.maxChunk || needed > call.cap then Ended(s, id)
    else if needed <= call.capacity then With(s, id, call.(length := needed))
    else
      var doubled := Doubled(call.capacity, needed, call.cap);
      if Granted(s.free, More(call.held, doubled)) then Grown(s, id, doubled, needed)
      else With(s, id, call.(phase := Retrying(needed)))
  }

  function Retried(s: State, id: nat): State
    requires In(s, id) && s.calls[id].phase.Retrying?
  {
    var needed := s.calls[id].phase.needed;
    if Granted(s.free, More(s.calls[id].held, needed)) then Grown(s, id, needed, needed) else Ended(s, id)
  }

  /** A step that is not enabled changes nothing, so every sequence of actions is a run. */
  function Step(limits: Limits, s: State, action: Action): State {
    match action
    case Arrive(requestedMib) => s.(calls := s.calls + [Call(CapOf(limits, requestedMib), 0, 0, 0, Receiving)])
    case Frame(id, size) => if In(s, id) && s.calls[id].phase.Receiving? then Received(limits, s, id, size) else s
    case Retry(id) => if In(s, id) && s.calls[id].phase.Retrying? then Retried(s, id) else s
    case Leave(id) =>
      if In(s, id) && (s.calls[id].phase.Receiving? || s.calls[id].phase.Retrying? || s.calls[id].phase.Waiting?)
      then Ended(s, id) else s
    case Complete(id) =>
      if In(s, id) && s.calls[id].phase.Receiving? then With(s, id, s.calls[id].(phase := Waiting)) else s
    case TakeSlot(id) =>
      if In(s, id) && s.calls[id].phase.Waiting? && s.slots > 0
      then With(s.(slots := s.slots - 1), id, s.calls[id].(phase := Parsing)) else s
    case Finish(id) =>
      if In(s, id) && s.calls[id].phase.Parsing? then Ended(s.(slots := s.slots + 1), id) else s
  }

  function Start(limits: Limits): State {
    State(Budget(limits), limits.maxParses, [])
  }

  function Run(limits: Limits, s: State, actions: seq<Action>): State {
    if actions == [] then s
    else Step(limits, Run(limits, s, actions[..|actions| - 1]), actions[|actions| - 1])
  }

  // ----- Sums over the calls -----

  function HeldBy(call: Call): nat {
    call.held
  }

  function CapacityOf(call: Call): nat {
    call.capacity
  }

  function SlotsOf(call: Call): nat {
    if call.phase.Parsing? then 1 else 0
  }

  function Sum(calls: seq<Call>, of: Call -> nat): nat {
    if calls == [] then 0 else Sum(calls[..|calls| - 1], of) + of(calls[|calls| - 1])
  }

  lemma {:induction false} SumOfUpdate(calls: seq<Call>, id: nat, call: Call, of: Call -> nat)
    requires id < |calls|
    ensures Sum(calls[id := call], of) + of(calls[id]) == Sum(calls, of) + of(call)
  {
    var n := |calls| - 1;
    assert calls[id := call][..n] == if id < n then calls[..n][id := call] else calls[..n];
    if id < n {
      SumOfUpdate(calls[..n], id, call, of);
    }
  }

  lemma SumOfOneMore(calls: seq<Call>, call: Call, of: Call -> nat)
    ensures Sum(calls + [call], of) == Sum(calls, of) + of(call)
  {
    assert (calls + [call])[..|calls|] == calls;
  }

  // ----- The invariant -----

  /** A call holds exactly the permits that its buffer's capacity takes, and its buffer stays under its ceiling. */
  predicate Accounted(limits: Limits, call: Call) {
    && call.held == Units(call.capacity)
    && call.length <= call.capacity <= call.cap <= limits.maxDocument
    && (call.phase.Retrying? ==> call.capacity < call.phase.needed <= call.cap)
    && (call.phase.Gone? ==> call.capacity == 0)
  }

  ghost predicate Conserved(limits: Limits, s: State) {
    && s.free + Sum(s.calls, HeldBy) == Budget(limits)
    && s.slots + Sum(s.calls, SlotsOf) == limits.maxParses
    && forall id :: 0 <= id < |s.calls| ==> Accounted(limits, s.calls[id])
  }

  lemma UnitsGrow(a: nat, b: nat)
    requires a <= b
    ensures Units(a) <= Units(b)
  {
  }

  lemma ReplacedIsConserved(limits: Limits, s: State, t: State, id: nat, call: Call)
    requires Conserved(limits, s) && In(s, id) && Accounted(limits, call)
    requires t.calls == s.calls[id := call]
    requires t.free + call.held == s.free + s.calls[id].held
    requires t.slots + SlotsOf(call) == s.slots + SlotsOf(s.calls[id])
    ensures Conserved(limits, t)
  {
    SumOfUpdate(s.calls, id, call, HeldBy);
    SumOfUpdate(s.calls, id, call, SlotsOf);
  }

  lemma EndedIsConserved(limits: Limits, s: State, id: nat)
    requires Conserved(limits, s) && In(s, id) && !s.calls[id].phase.Parsing?
    ensures Conserved(limits, Ended(s, id))
  {
    var call := s.calls[id].(length := 0, capacity := 0, held := 0, phase := Gone);
    ReplacedIsConserved(limits, s, Ended(s, id), id, call);
  }

  lemma GrownIsConserved(limits: Limits, s: State, id: nat, target: nat, needed: nat)
    requires Conserved(limits, s) && In(s, id) && Granted(s.free, More(s.calls[id].held, target))
    requires s.calls[id].phase.Receiving? || s.calls[id].phase.Retrying?
    requires s.calls[id].capacity <= needed <= target <= s.calls[id].cap
    ensures Conserved(limits, Grown(s, id, target, needed))
  {
    var t := Grown(s, id, target, needed);
    UnitsGrow(s.calls[id].capacity, target);
    ReplacedIsConserved(limits, s, t, id, t.calls[id]);
  }

  lemma StepIsConserved(limits: Limits, s: State, action: Action)
    requires Conserved(limits, s)
    ensures Conserved(limits, Step(limits, s, action))
  {
    var t := Step(limits, s, action);
    match action {
      case Arrive(requestedMib) =>
        var call := Call(CapOf(limits, requestedMib), 0, 0, 0, Receiving);
        SumOfOneMore(s.calls, call, HeldBy);
        SumOfOneMore(s.calls, call, SlotsOf);
      case Frame(id, size) =>
        if In(s, id) && s.calls[id].phase.Receiving? {
          FrameIsConserved(limits, s, id, size);
        }
      case Retry(id) =>
        if In(s, id) && s.calls[id].phase.Retrying? {
          var needed := s.calls[id].phase.needed;
          if Granted(s.free, More(s.calls[id].held, needed)) {
            GrownIsConserved(limits, s, id, needed, needed);
          } else {
            EndedIsConserved(limits, s, id);
          }
        }
      case Leave(id) =>
        if t != s {
          EndedIsConserved(limits, s, id);
        }
      case Complete(id) =>
        if t != s {
          ReplacedIsConserved(limits, s, t, id, t.calls[id]);
        }
      case TakeSlot(id) =>
        if t != s {
          ReplacedIsConserved(limits, s, t, id, t.calls[id]);
        }
      case Finish(id) =>
        if t != s {
          ReplacedIsConserved(limits, s, t, id, t.calls[id]);
        }
    }
  }

  lemma FrameIsConserved(limits: Limits, s: State, id: nat, size: nat)
    requires Conserved(limits, s) && In(s, id) && s.calls[id].phase.Receiving?
    ensures Conserved(limits, Received(limits, s, id, size))
  {
    var call := s.calls[id];
    var needed := call.length + size;
    if size > limits.maxChunk || needed > call.cap {
      EndedIsConserved(limits, s, id);
    } else if needed <= call.capacity {
      ReplacedIsConserved(limits, s, Received(limits, s, id, size), id, call.(length := needed));
    } else {
      var doubled := Doubled(call.capacity, needed, call.cap);
      if Granted(s.free, More(call.held, doubled)) {
        GrownIsConserved(limits, s, id, doubled, needed);
      } else {
        ReplacedIsConserved(limits, s, Received(limits, s, id, size), id, call.(phase := Retrying(needed)));
      }
    }
  }

  /**
   * Over every interleaving of the steps of any number of calls: free and held
   * permits always add up to the budget, and free and taken slots to the slots;
   * each call holds exactly its capacity in units, and its length is within its
   * capacity and that within its ceiling.
   */
  lemma {:induction false} EveryRunIsConserved(limits: Limits, actions: seq<Action>)
    ensures Conserved(limits, Run(limits, Start(limits), actions))
  {
    if actions != [] {
      var before := actions[..|actions| - 1];
      EveryRunIsConserved(limits, before);
      StepIsConserved(limits, Run(limits, Start(limits), before), actions[|actions| - 1]);
    }
  }

  // ----- What follows -----

  lemma {:induction false} CapacityWithinUnits(limits: Limits, calls: seq<Call>)
    requires forall id :: 0 <= id < |calls| ==> Accounted(limits, calls[id])
    ensures Sum(calls, CapacityOf) <= UNIT * Sum(calls, HeldBy)
  {
    if calls != [] {
      CapacityWithinUnits(limits, calls[..|calls| - 1]);
    }
  }

  /** All upload buffers together never pass the budget rounded up to a unit. */
  lemma BufferedStaysWithinBudget(limits: Limits, actions: seq<Action>)
    ensures var s := Run(limits, Start(limits), actions);
            Sum(s.calls, CapacityOf) <= UNIT * Budget(limits)
            && Sum(s.calls, CapacityOf) < Max(limits.maxBuffered, limits.maxDocument) + UNIT
            && Sum(s.calls, SlotsOf) <= limits.maxParses
  {
    EveryRunIsConserved(limits, actions);
    CapacityWithinUnits(limits, Run(limits, Start(limits), actions).calls);
  }

  lemma {:induction false} NothingHeld(calls: seq<Call>, of: Call -> nat)
    requires forall id :: 0 <= id < |calls| ==> of(calls[id]) == 0
    ensures Sum(calls, of) == 0
  {
    if calls != [] {
      NothingHeld(calls[..|calls| - 1], of);
    }
  }

  /** Once every call has ended, however it did, the whole budget and every slot is free again. */
  lemma EveryExitReturnsItsShare(limits: Limits, actions: seq<Action>)
    requires forall call :: call in Run(limits, Start(limits), actions).calls ==> call.phase.Gone?
    ensures var s := Run(limits, Start(limits), actions); s.free == Budget(limits) && s.slots == limits.maxParses
  {
    EveryRunIsConserved(limits, actions);
    var s := Run(limits, Start(limits), actions);
    NothingHeld(s.calls, HeldBy);
    NothingHeld(s.calls, SlotsOf);
  }

  /** Other calls' share of the budget. */
  function HeldByOthers(s: State, id: nat): nat
    requires In(s, id)
  {
    Sum(s.calls[id := s.calls[id].(held := 0)], HeldBy)
  }

  /**
   * A call is refused by the budget exactly when what it needs and what the others
   * hold are together more than the budget, or it asks for more at once than a
   * 32-bit count can say.
   */
  lemma RefusedExactlyWhen(limits: Limits, actions: seq<Action>, id: nat)
    requires var s := Run(limits, Start(limits), actions); In(s, id) && s.calls[id].phase.Retrying?
    ensures var s := Run(limits, Start(limits), actions);
            var call := s.calls[id];
            Step(limits, s, Retry(id)).calls[id].phase.Gone?
            <==> Units(call.phase.needed) > call.held
                 && (Units(call.phase.needed) + HeldByOthers(s, id) > Budget(limits)
                     || Units(call.phase.needed) - call.held > 0xFFFF_FFFF)
  {
    EveryRunIsConserved(limits, actions);
    var s := Run(limits, Start(limits), actions);
    SumOfUpdate(s.calls, id, s.calls[id].(held := 0), HeldBy);
  }

  /** Alone, a call is never refused by the budget, whatever its ceiling allows, up to the 32-bit count. */
  lemma NeverRefusedAlone(limits: Limits, actions: seq<Action>, id: nat)
    requires Fits(limits)
    requires var s := Run(limits, Start(limits), actions);
             In(s, id) && s.calls[id].phase.Retrying? && HeldByOthers(s, id) == 0
    ensures var s := Run(limits, Start(limits), actions);
            var call := s.calls[id];
            Step(limits, s, Retry(id)).calls[id].phase.Gone? <==> Units(call.phase.needed) - call.held > 0xFFFF_FFFF
  {
    EveryRunIsConserved(limits, actions);
    RefusedExactlyWhen(limits, actions, id);
    var s := Run(limits, Start(limits), actions);
    UnitsGrow(s.calls[id].phase.needed, Max(limits.maxBuffered, limits.maxDocument));
    UnitsGrow(Max(limits.maxBuffered, limits.maxDocument), U64_MAX);
  }

  // ----- Sizes, written out -----

  /**
   * A permit is a KiB, and the calls share as many permits as it takes, and no more, to
   * cover both what may be buffered and one upload of the largest size.
   */
  lemma BudgetCoversBoth(limits: Limits)
    requires Fits(limits)
    ensures var bytes := 1024 * Start(limits).free;
            && limits.maxBuffered <= bytes && limits.maxDocument <= bytes
            && (bytes < limits.maxBuffered + 1024 || bytes < limits.maxDocument + 1024)
    ensures Start(limits).slots == limits.maxParses && Start(limits).calls == []
  {
  }

  /** A call that arrives may send as much as the server allows, or the whole MiB it asked for if that is less. */
  lemma CapIsTheSmaller(limits: Limits, s: State, requestedMib: nat)
    requires Fits(limits)
    ensures var t, asked := Step(limits, s, Arrive(requestedMib)), requestedMib * 1_048_576;
            var cap := if requestedMib == 0 || asked >= limits.maxDocument then limits.maxDocument else asked;
            t == s.(calls := s.calls + [Call(cap, 0, 0, 0, Receiving)])
  {
  }

  /**
   * A frame that is too large, or that takes a call past its ceiling, ends it with its whole
   * share given back; any other is taken in full, or asks once more for exactly what it needs.
   */
  lemma FrameIsJudged(limits: Limits, s: State, id: nat, size: nat)
    requires In(s, id) && s.calls[id].phase == Receiving
    ensures var call, t := s.calls[id], Step(limits, s, Frame(id, size));
            && |t.calls| == |s.calls| && (forall j :: 0 <= j < |s.calls| && j != id ==> t.calls[j] == s.calls[j])
            && t.slots == s.slots && t.calls[id].cap == call.cap
            && (size > limits.maxChunk || call.length + size > call.cap ==>
                  t.calls[id] == Call(call.cap, 0, 0, 0, Gone) && t.free == s.free + call.held)
            && (size <= limits.maxChunk && call.length + size <= call.cap ==>
                  || (t.calls[id].phase == Receiving && t.calls[id].length == call.length + size <= t.calls[id].capacity)
                  || (t.calls[id] == call.(phase := Retrying(call.length + size)) && t.free == s.free))
  {
  }

  /** A buffer that grows has room for what is needed, stays under the ceiling, and at least doubles unless it reaches it. */
  lemma GrowthIsGeometric(capacity: nat, needed: nat, cap: nat)
    requires capacity < needed <= cap <= U64_MAX
    ensures needed <= Doubled(capacity, needed, cap) <= cap
    ensures Doubled(capacity, needed, cap) == cap || Doubled(capacity, needed, cap) >= 2 * capacity
    ensures Doubled(capacity, needed, cap) <= 2 * capacity || Doubled(capacity, needed, cap) == needed
  {
  }
}
