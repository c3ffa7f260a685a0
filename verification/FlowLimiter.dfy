/**
 The limiter of concurrent flows, and everyone who takes a slot from it: UDP session registrations with their three ways
 of failing, and TCP proxying. Every call into the limiter is atomic; between the calls flows interleave freely.
*/
module FlowLimiter {
  import Numerals

  type Uint64 = n: nat | n < Numerals.TWO_TO_THE_64

  const UNLIMITED_ACTIVE_FLOWS: Uint64 := 0

  datatype Limiter = Limiter(activeFlowsCounter: Uint64, maxActiveFlows: Uint64, unlimited: bool)

  predicate IsUnlimited(value: Uint64) {
    value == UNLIMITED_ACTIVE_FLOWS
  }

  function NewLimiter(maxActiveFlows: Uint64): Limiter {
    Limiter(0, maxActiveFlows, IsUnlimited(maxActiveFlows))
  }

  // Whether there is a free slot.
  predicate Admits(l: Limiter) {
    l.unlimited || l.activeFlowsCounter < l.maxActiveFlows
  }

  // The counter is 64 bits wide and wraps.
  function Acquire(l: Limiter): (Limiter, bool) {
    if !l.unlimited && l.activeFlowsCounter >= l.maxActiveFlows then (l, false)
    else (l.(activeFlowsCounter := (l.activeFlowsCounter + 1) % Numerals.TWO_TO_THE_64), true)
  }

  function Release(l: Limiter): Limiter {
    if l.activeFlowsCounter <= 0 then l else l.(activeFlowsCounter := l.activeFlowsCounter - 1)
  }

  function SetLimit(l: Limiter, newMaxActiveFlows: Uint64): Limiter {
    l.(maxActiveFlows := newMaxActiveFlows, unlimited := IsUnlimited(newMaxActiveFlows))
  }

  type FlowID = nat

  // A call that some flow makes. Flows take and give back slots; limits change from elsewhere.
  datatype Call = Take(flow: FlowID) | Give(flow: FlowID) | Change(limit: Uint64)

  predicate IsBy(c: Call, flow: FlowID) {
    !c.Change? && c.flow == flow
  }

  class FlowLimiter {
    var activeFlowsCounter: Uint64
    var maxActiveFlows: Uint64
    var unlimited: bool
    // Who holds the slots that the counter counts.
    var holders: set<FlowID>

    predicate Valid()
      reads this
    {
      activeFlowsCounter == |holders|
    }

    constructor (maxActiveFlows: Uint64)
      ensures Valid() && State() == NewLimiter(maxActiveFlows) && holders == {}
    {
      activeFlowsCounter, this.maxActiveFlows, unlimited := 0, maxActiveFlows, IsUnlimited(maxActiveFlows);
      holders := {};
    }

    function State(): Limiter
      reads this
    {
      Limiter(activeFlowsCounter, maxActiveFlows, unlimited)
    }

    predicate HasRoom()
      reads this
    {
      unlimited ==> activeFlowsCounter + 1 < Numerals.TWO_TO_THE_64
    }

    method AcquireSlot(flow: FlowID) returns (ok: bool)
      requires Valid() && HasRoom() && flow !in holders
      modifies this
      ensures Valid() && (State(), ok) == Acquire(old(State()))
      ensures ok <==> Admits(old(State()))
      ensures holders == old(holders) + if ok then {flow} else {}
    {
      if !unlimited && activeFlowsCounter >= maxActiveFlows {
        return false;
      }
      activeFlowsCounter := (activeFlowsCounter + 1) % Numerals.TWO_TO_THE_64;
      holders := holders + {flow};
      return true;
    }

    /** The guard at zero is never met by a flow that holds a slot. */
    method ReleaseSlot(flow: FlowID)
      requires Valid() && flow in holders
      modifies this
      ensures Valid() && State() == Release(old(State()))
      ensures activeFlowsCounter == old(activeFlowsCounter) - 1 && holders == old(holders) - {flow}
    {
      HolderCounts(holders, flow);
      holders := holders - {flow};
      if activeFlowsCounter <= 0 {
        return;
      }
      activeFlowsCounter := activeFlowsCounter - 1;
    }

    method SetNewLimit(newMaxActiveFlows: Uint64)
      requires Valid()
      modifies this
      ensures Valid() && State() == SetLimit(old(State()), newMaxActiveFlows) && holders == old(holders)
    {
      maxActiveFlows := newMaxActiveFlows;
      unlimited := IsUnlimited(newMaxActiveFlows);
    }

    /** Whatever other flows do meanwhile, a flow keeps its slot if it has one, and gets none if it has not. */
    method ByOthers(calls: seq<Call>, flow: FlowID)
      requires Valid() && forall c :: c in calls ==> !IsBy(c, flow)
      modifies this
      ensures Valid() && (flow in holders <==> flow in old(holders))
      ensures calls == [] ==> State() == old(State()) && holders == old(holders)
    {
      for i := 0 to |calls|
        invariant Valid() && (flow in holders <==> flow in old(holders))
        invariant i == 0 ==> State() == old(State()) && holders == old(holders)
      {
        assert !IsBy(calls[i], flow);
        match calls[i]
        case Take(f) =>
          if f !in holders && HasRoom() {
            var ok := AcquireSlot(f);
          }
        case Give(f) =>
          if f in holders {
            ReleaseSlot(f);
          }
        case Change(limit) =>
          SetNewLimit(limit);
      }
    }
  }

  lemma HolderCounts(holders: set<FlowID>, flow: FlowID)
    requires flow in holders
    ensures |holders - {flow}| == |holders| - 1
  {
    assert holders == holders - {flow} + {flow};
  }

  // The calls other flows make between the steps of one flow.
  predicate Foreign(between: seq<seq<Call>>, flow: FlowID) {
    forall i :: 0 <= i < |between| ==> forall c :: c in between[i] ==> !IsBy(c, flow)
  }

  predicate Quiet(between: seq<seq<Call>>) {
    forall i :: 0 <= i < |between| ==> between[i] == []
  }

  /**
   RegisterUdpSession, whatever other flows do between its steps: it holds a slot afterwards exactly if the session was
   registered, and then hands the duty to release it to the goroutine that serves the session. Undisturbed, it leaves
   the limiter as it was on every other way out.
  */
  method RegisterUDPSession(
    limiter: FlowLimiter, flow: FlowID, addressValid: bool, dialed: bool, registered: bool, between: seq<seq<Call>>)
    returns (served: bool)
    requires limiter.Valid() && limiter.HasRoom() && flow !in limiter.holders
    requires |between| == 3 && Foreign(between, flow)
    modifies limiter
    ensures limiter.Valid()
    ensures served <==> Admits(old(limiter.State())) && addressValid && dialed && registered
    ensures served <==> flow in limiter.holders
    ensures Quiet(between) ==>
              limiter.State() ==
              old(limiter.State()).(activeFlowsCounter := old(limiter.activeFlowsCounter) + if served then 1 else 0)
  {
    var ok := limiter.AcquireSlot(flow);
    if !ok {
      return false;
    }
    limiter.ByOthers(between[0], flow);
    if !addressValid {
      limiter.ReleaseSlot(flow);
      return false;
    }
    limiter.ByOthers(between[1], flow);
    if !dialed {
      limiter.ReleaseSlot(flow);
      return false;
    }
    limiter.ByOthers(between[2], flow);
    if !registered {
      limiter.ReleaseSlot(flow);
      return false;
    }
    return true;
  }

  /** The goroutine of a registered session: once serving ends, in whatever way, the slot is given back. */
  method ServeThenRelease(limiter: FlowLimiter, flow: FlowID, meanwhile: seq<Call>)
    requires limiter.Valid() && flow in limiter.holders
    requires forall c :: c in meanwhile ==> !IsBy(c, flow)
    modifies limiter
    ensures limiter.Valid() && flow !in limiter.holders
  {
    limiter.ByOthers(meanwhile, flow);
    limiter.ReleaseSlot(flow);
  }

  /**
   ProxyTCP, whatever other flows do meanwhile: refused, failed or finished, it holds no slot afterwards; undisturbed,
   it leaves the limiter as it found it.
  */
  method ProxyTCP(limiter: FlowLimiter, flow: FlowID, destinationParsed: bool, streamed: bool, meanwhile: seq<Call>)
    returns (done: bool)
    requires limiter.Valid() && limiter.HasRoom() && flow !in limiter.holders
    requires forall c :: c in meanwhile ==> !IsBy(c, flow)
    modifies limiter
    ensures limiter.Valid() && flow !in limiter.holders
    ensures done <==> Admits(old(limiter.State())) && destinationParsed && streamed
    ensures meanwhile == [] ==> limiter.State() == old(limiter.State())
  {
    var ok := limiter.AcquireSlot(flow);
    if !ok {
      return false;
    }
    limiter.ByOthers(meanwhile, flow);
    done := destinationParsed && streamed;
    limiter.ReleaseSlot(flow);
  }

  // Where a flow is. All but the last two hold a slot.
  datatype Phase = ParsingAddress | Dialing | Registering | Serving | Proxying | Refused | Ended

  predicate HoldsSlot(p: Phase) {
    p != Refused && p != Ended
  }

  datatype State = State(limiter: Limiter, flows: map<FlowID, Phase>)

  datatype Event =
    | StartUDP(flow: FlowID)
    | AddressInvalid(flow: FlowID)
    | AddressParsed(flow: FlowID)
    | DialFails(flow: FlowID)
    | Dialed(flow: FlowID)
    | RegisterFails(flow: FlowID)
    | Registered(flow: FlowID)
    | SessionEnds(flow: FlowID)
    | StartTCP(flow: FlowID)
    | TCPEnds(flow: FlowID)
    | LimitChanges(limit: Uint64)

  predicate At(s: State, flow: FlowID, p: Phase) {
    flow in s.flows && s.flows[flow] == p
  }

  predicate Enabled(s: State, e: Event) {
    match e
    case StartUDP(f) => f !in s.flows
    case AddressInvalid(f) => At(s, f, ParsingAddress)
    case AddressParsed(f) => At(s, f, ParsingAddress)
    case DialFails(f) => At(s, f, Dialing)
    case Dialed(f) => At(s, f, Dialing)
    case RegisterFails(f) => At(s, f, Registering)
    case Registered(f) => At(s, f, Registering)
    case SessionEnds(f) => At(s, f, Serving)
    case StartTCP(f) => f !in s.flows
    case TCPEnds(f) => At(s, f, Proxying)
    case LimitChanges(_) => true
  }

  function Start(s: State, f: FlowID, first: Phase): State {
    var (l, ok) := Acquire(s.limiter);
    State(l, s.flows[f := if ok then first else Refused])
  }

  function End(s: State, f: FlowID): State {
    State(Release(s.limiter), s.flows[f := Ended])
  }

  function Next(s: State, e: Event): State {
    match e
    case StartUDP(f) => Start(s, f, ParsingAddress)
    case AddressInvalid(f) => End(s, f)
    case AddressParsed(f) => s.(flows := s.flows[f := Dialing])
    case DialFails(f) => End(s, f)
    case Dialed(f) => s.(flows := s.flows[f := Registering])
    case RegisterFails(f) => End(s, f)
    case Registered(f) => s.(flows := s.flows[f := Serving])
    case SessionEnds(f) => End(s, f)
    case StartTCP(f) => Start(s, f, Proxying)
    case TCPEnds(f) => End(s, f)
    case LimitChanges(limit) => s.(limiter := SetLimit(s.limiter, limit))
  }

  predicate Releases(e: Event) {
    e.AddressInvalid? || e.DialFails? || e.RegisterFails? || e.SessionEnds? || e.TCPEnds?
  }

  predicate Starts(e: Event) {
    e.StartUDP? || e.StartTCP?
  }

  function Holders(s: State): set<FlowID> {
    set f | f in s.flows && HoldsSlot(s.flows[f])
  }

  ghost predicate IsRun(limit: Uint64, states: seq<State>, events: seq<Event>) {
    && |states| == |events| + 1
    && states[0] == State(NewLimiter(limit), map[])
    && forall i :: 0 <= i < |events| ==> StepAt(states, events, i)
  }

  ghost predicate StepAt(states: seq<State>, events: seq<Event>, i: nat)
    requires i < |events| && |states| == |events| + 1
  {
    Enabled(states[i], events[i]) && states[i + 1] == Next(states[i], events[i])
  }

  // One step changes the set of holders by at most the flow it is about.
  lemma HoldersStep(s: State, e: Event)
    requires Enabled(s, e)
    ensures Starts(e) && Admits(s.limiter) ==>
              e.flow !in Holders(s) && Holders(Next(s, e)) == Holders(s) + {e.flow}
    ensures Releases(e) ==> e.flow in Holders(s) && Holders(Next(s, e)) == Holders(s) - {e.flow}
    ensures !Releases(e) && !(Starts(e) && Admits(s.limiter)) ==> Holders(Next(s, e)) == Holders(s)
  {
  }

  lemma StepCounts(s: State, e: Event)
    requires Enabled(s, e) && s.limiter.activeFlowsCounter == |Holders(s)| && Room(s)
    ensures Next(s, e).limiter.activeFlowsCounter == |Holders(Next(s, e))| <= |Holders(s)| + 1
    ensures Releases(e) ==> s.limiter.activeFlowsCounter > 0
  {
    HoldersStep(s, e);
    CounterStep(s, e);
    var h := Holders(s);
    if Releases(e) {
      assert |h| == |h - {e.flow}| + 1;
    }
  }

  // The counter loses count exactly when one flow more than it can hold is admitted, which takes an unlimited limiter.
  lemma LosesCountExactly(s: State, e: Event)
    requires Enabled(s, e) && s.limiter.activeFlowsCounter == |Holders(s)|
    ensures Next(s, e).limiter.activeFlowsCounter == |Holders(Next(s, e))| <==> !(Starts(e) && !Room(s))
  {
    if Room(s) {
      StepCounts(s, e);
    } else if Starts(e) {
      HoldersStep(s, e);
    } else {
      HoldersStep(s, e);
      if Releases(e) {
        assert |Holders(s)| == |Holders(s) - {e.flow}| + 1;
      }
    }
  }

  // What one step does to the counter, given room to count.
  lemma CounterStep(s: State, e: Event)
    requires s.limiter.unlimited ==> s.limiter.activeFlowsCounter + 1 < Numerals.TWO_TO_THE_64
    ensures Next(s, e).limiter.activeFlowsCounter ==
            if Starts(e) && Admits(s.limiter) then s.limiter.activeFlowsCounter + 1
            else if Releases(e) && s.limiter.activeFlowsCounter > 0 then s.limiter.activeFlowsCounter - 1
            else s.limiter.activeFlowsCounter
  {
  }

  // Up to the n-th state the 64-bit counter has room for one more flow whenever there is no limit; under a limit, which
  // is a 64-bit number itself, it always has.
  ghost predicate HasRoom(states: seq<State>, n: nat)
    requires n < |states|
  {
    forall k :: 0 <= k <= n ==> Room(states[k])
  }

  ghost predicate Room(s: State) {
    s.limiter.unlimited ==> |Holders(s)| + 1 < Numerals.TWO_TO_THE_64
  }

  /** Over every interleaving, of any length, the counter is the number of flows admitted and not yet ended. */
  lemma {:induction false} CounterIsHolders(limit: Uint64, states: seq<State>, events: seq<Event>, n: nat)
    requires IsRun(limit, states, events) && n < |states| && (n > 0 ==> HasRoom(states, n - 1))
    ensures states[n].limiter.activeFlowsCounter == |Holders(states[n])|
  {
    if n == 0 {
      assert Holders(states[0]) == {};
    } else {
      CounterIsHolders(limit, states, events, n - 1);
      assert StepAt(states, events, n - 1);
      StepCounts(states[n - 1], events[n - 1]);
    }
  }

  /**
   In every run, a release never meets the zero guard: it takes exactly one off the counter; and a start is admitted
   exactly when the limiter is unlimited or the number of flows in progress is below the limit in force at that moment.
  */
  lemma SlotsExactly(limit: Uint64, states: seq<State>, events: seq<Event>, i: nat)
    requires IsRun(limit, states, events) && i < |events| && HasRoom(states, i)
    ensures var s, e, s' := states[i], events[i], states[i + 1];
            && (Releases(e) ==> s'.limiter.activeFlowsCounter == s.limiter.activeFlowsCounter - 1)
            && (Starts(e) ==>
                  (e.flow in Holders(s') <==> s.limiter.unlimited || |Holders(s)| < s.limiter.maxActiveFlows))
            && (Starts(e) && e.flow !in Holders(s') ==> s'.limiter == s.limiter)
  {
    CounterIsHolders(limit, states, events, i);
    assert StepAt(states, events, i);
    StepCounts(states[i], events[i]);
  }

  // The limit last set before the n-th state; 0 stands for no limit.
  function LastLimit(limit: Uint64, events: seq<Event>, n: nat): Uint64
    requires n <= |events|
  {
    if n == 0 then limit
    else if events[n - 1].LimitChanges? then events[n - 1].limit
    else LastLimit(limit, events, n - 1)
  }

  lemma {:induction false} LimitIsLastSet(limit: Uint64, states: seq<State>, events: seq<Event>, n: nat)
    requires IsRun(limit, states, events) && n < |states|
    ensures var l := states[n].limiter;
            && l.maxActiveFlows == LastLimit(limit, events, n)
            && (l.unlimited <==> LastLimit(limit, events, n) == 0)
  {
    if n > 0 {
      LimitIsLastSet(limit, states, events, n - 1);
      assert StepAt(states, events, n - 1);
    }
  }

  /**
   In every run a flow that starts is admitted exactly if the limit last set is 0 or more than the flows in progress. A
   64-bit counter is enough for that as long as, without a limit, there are fewer than 2^64 flows at once.
  */
  lemma AdmittedExactly(limit: Uint64, states: seq<State>, events: seq<Event>, i: nat)
    requires IsRun(limit, states, events) && i < |events| && (events[i].StartUDP? || events[i].StartTCP?)
    requires forall k :: 0 <= k <= i && LastLimit(limit, events, k) == 0 ==>
                           |Holders(states[k])| + 1 < 0x1_0000_0000_0000_0000
    ensures var last := LastLimit(limit, events, i);
            events[i].flow in Holders(states[i + 1]) <==> last == 0 || |Holders(states[i])| < last
  {
    forall k | 0 <= k <= i
      ensures Room(states[k])
    {
      LimitIsLastSet(limit, states, events, k);
    }
    LimitIsLastSet(limit, states, events, i);
    SlotsExactly(limit, states, events, i);
  }

  // Every limit in force up to the n-th state is a real limit of at most cap.
  ghost predicate LimitsUpTo(limit: Uint64, events: seq<Event>, n: nat, cap: nat) {
    && 1 <= limit <= cap
    && forall i :: 0 <= i < n && i < |events| && events[i].LimitChanges? ==> 1 <= events[i].limit <= cap
  }

  /** However the limit is changed, there are never more flows than the highest limit that was in force so far. */
  lemma {:induction false} NeverAboveHighestLimit(
    limit: Uint64, states: seq<State>, events: seq<Event>, n: nat, cap: nat)
    requires IsRun(limit, states, events) && n < |states|
    requires LimitsUpTo(limit, events, n, cap)
    ensures |Holders(states[n])| <= cap
    ensures !states[n].limiter.unlimited && states[n].limiter.maxActiveFlows <= cap
    ensures HasRoom(states, n)
  {
    if n == 0 {
      assert Holders(states[0]) == {};
    } else {
      NeverAboveHighestLimit(limit, states, events, n - 1, cap);
      CounterIsHolders(limit, states, events, n - 1);
      assert StepAt(states, events, n - 1);
      HoldersStep(states[n - 1], events[n - 1]);
    }
  }
}
