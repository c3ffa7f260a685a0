/**
 UDP sessions and their manager. The manager's event loop registers and unregisters sessions; each session has a
 goroutine that reads from the destination and one that serves it until it is told to stop. Both the manager and the
 reader tell it through a channel with room for two, so the question is whether the manager can ever block there.
*/
module Sessions {
  import opened Results

  type UUID = nat

  // A session object; sessions are numbered in the order they are created.
  type Ref = nat

  const CLOSE_CHAN_CAPACITY: nat := 2

  // What is sent over closeChan.
  datatype Reason = ClosedSession(byRemote: bool) | ReadError

  // Where the serving goroutine is. When it stops for another reason than a close by the remote it still has to
  // unregister its ID; the request may time out.
  datatype Phase = Serving | Unregistering | Finished(timedOut: bool)

  /** A session; closes and readerSends count what the manager and the reader have sent so far. */
  datatype Session = Session(
    id: UUID, closeChan: seq<Reason>, closes: nat, readerSends: nat, readerDone: bool, phase: Phase)

  datatype Unregistration = Unregistration(id: UUID, byRemote: bool)

  /**
   The manager, with the gauge of active sessions and the number of registrations that replaced a tracked session.
   processing is a request to unregister that the event loop has received but not yet carried out; whoever sent it goes
   on as soon as it is received.
  */
  datatype Manager = Manager(
    sessions: map<UUID, Ref>, objs: seq<Session>, activeGauge: int, overwritten: nat, stopped: bool,
    processing: Option<Unregistration>)

  function Closed(s: Session, reason: Reason): Session {
    s.(closeChan := s.closeChan + [reason], closes := s.closes + 1)
  }

  function NewSession(id: UUID): Session {
    Session(id, [], 0, 0, false, Serving)
  }

  function RegisterSession(m: Manager, id: UUID): Manager {
    m.(sessions := m.sessions[id := |m.objs|], objs := m.objs + [NewSession(id)], activeGauge := m.activeGauge + 1,
       overwritten := m.overwritten + (if id in m.sessions then 1 else 0))
  }

  ghost predicate Tracks(m: Manager) {
    && (forall id :: id in m.sessions ==> m.sessions[id] < |m.objs| && m.objs[m.sessions[id]].id == id)
  }

  function UnregisterSession(m: Manager, id: UUID, byRemote: bool): Manager
    requires id in m.sessions ==> m.sessions[id] < |m.objs|
  {
    if id !in m.sessions then m
    else
      var r := m.sessions[id];
      m.(sessions := m.sessions - {id}, objs := m.objs[r := Closed(m.objs[r], ClosedSession(byRemote))],
         activeGauge := m.activeGauge - 1)
  }

  function Process(m: Manager): Manager
    requires Tracks(m) && m.processing.Some?
  {
    UnregisterSession(m, m.processing.value.id, m.processing.value.byRemote).(processing := None)
  }

  // Every tracked session is closed, as if by the remote so that it does not unregister itself.
  function ShutdownSessions(m: Manager): Manager {
    m.(sessions := map[],
       objs := seq(|m.objs|, i requires 0 <= i < |m.objs| =>
                   if i in m.sessions.Values then Closed(m.objs[i], ClosedSession(true)) else m.objs[i]),
       activeGauge := m.activeGauge - |m.sessions|, stopped := true)
  }

  datatype Event =
    | Register(id: UUID)
    | Unregister(id: UUID, byRemote: bool)
    | Processed
    | Shutdown
    // The reader gives up: it sends its error and returns.
    | ReaderStops(ref: Ref)
    // The serving goroutine takes a reason from the channel, or stops being idle or cancelled.
    | Receives(ref: Ref)
    | StopsByItself(ref: Ref)
    // closeUDPSession: it hands over a request to unregister its ID, or the request times out.
    | EndHandsOver(ref: Ref)
    | EndTimesOut(ref: Ref)

  // The event loop is at its select.
  predicate Listens(m: Manager) {
    !m.stopped && m.processing.None?
  }

  ghost predicate Enabled(m: Manager, e: Event) {
    match e
    case Register(_) => Listens(m)
    case Unregister(_, _) => Listens(m)
    case Processed => m.processing.Some?
    case Shutdown => Listens(m)
    case ReaderStops(r) => r < |m.objs| && !m.objs[r].readerDone
    case Receives(r) => r < |m.objs| && m.objs[r].phase == Serving && m.objs[r].closeChan != []
    case StopsByItself(r) => r < |m.objs| && m.objs[r].phase == Serving
    case EndHandsOver(r) => r < |m.objs| && m.objs[r].phase == Unregistering && Listens(m)
    case EndTimesOut(r) => r < |m.objs| && m.objs[r].phase == Unregistering
  }

  function AfterReceiving(s: Session): Session
    requires s.closeChan != []
  {
    s.(closeChan := s.closeChan[1..],
       phase := if s.closeChan[0] == ClosedSession(true) then Finished(false) else Unregistering)
  }

  ghost function Next(m: Manager, e: Event): Manager
    requires Tracks(m) && Enabled(m, e)
  {
    match e
    case Register(id) => RegisterSession(m, id)
    case Unregister(id, byRemote) => m.(processing := Some(Unregistration(id, byRemote)))
    case Processed => Process(m)
    case Shutdown => ShutdownSessions(m)
    case ReaderStops(r) =>
      var s := m.objs[r];
      var s' := s.(closeChan := s.closeChan + [ReadError], readerSends := s.readerSends + 1, readerDone := true);
      m.(objs := m.objs[r := s'])
    case Receives(r) => m.(objs := m.objs[r := AfterReceiving(m.objs[r])])
    case StopsByItself(r) => m.(objs := m.objs[r := m.objs[r].(phase := Unregistering)])
    case EndHandsOver(r) =>
      m.(objs := m.objs[r := m.objs[r].(phase := Finished(false))],
         processing := Some(Unregistration(m.objs[r].id, false)))
    case EndTimesOut(r) => m.(objs := m.objs[r := m.objs[r].(phase := Finished(true))])
  }

  // What is in the channel was sent by one of the two, and each of them sends at most once.
  ghost predicate SessionOk(s: Session) {
    && |s.closeChan| <= s.closes + s.readerSends
    && s.closes <= 1
    && s.readerSends == (if s.readerDone then 1 else 0)
    && (ClosedSession(true) in s.closeChan || ClosedSession(false) in s.closeChan ==> s.closes == 1)
  }

  /**
   The manager has not closed a session it tracks, and a session that is finished is not tracked any more, or is just
   being unregistered.
  */
  ghost predicate Inv(m: Manager) {
    && Tracks(m)
    && (forall r :: 0 <= r < |m.objs| ==> SessionOk(m.objs[r]))
    && (forall id :: id in m.sessions ==> m.objs[m.sessions[id]].closes == 0)
    && (forall id :: id in m.sessions && m.objs[m.sessions[id]].phase == Finished(false) ==>
          m.processing == Some(Unregistration(id, false)))
    && m.activeGauge == |m.sessions| + m.overwritten
    && (m.stopped ==> m.sessions == map[] && m.processing == None)
  }

  function Empty(): Manager {
    Manager(map[], [], 0, 0, false, None)
  }

  lemma TrackedOnce(m: Manager, a: UUID, b: UUID)
    requires Tracks(m) && a in m.sessions && b in m.sessions && m.sessions[a] == m.sessions[b]
    ensures a == b
  {
  }

  lemma UnregisterKeepsInv(m: Manager, id: UUID, byRemote: bool)
    requires Inv(m)
    ensures Inv(UnregisterSession(m, id, byRemote))
  {
    if id in m.sessions {
      var m' := UnregisterSession(m, id, byRemote);
      assert |m'.sessions| == |m.sessions| - 1 by {
        assert m'.sessions.Keys == m.sessions.Keys - {id};
        assert |m.sessions.Keys| == |m.sessions| && |m'.sessions.Keys| == |m'.sessions|;
      }
      forall k | k in m'.sessions
        ensures m'.objs[m'.sessions[k]] == m.objs[m.sessions[k]]
      {
        if m.sessions[k] == m.sessions[id] {
          TrackedOnce(m, k, id);
        }
      }
    }
  }

  lemma RegisterKeepsInv(m: Manager, id: UUID)
    requires Inv(m) && Listens(m)
    ensures Inv(RegisterSession(m, id))
  {
    var m' := RegisterSession(m, id);
    SizeWith(m.sessions, id, |m.objs|);
    forall r | 0 <= r < |m'.objs|
      ensures SessionOk(m'.objs[r])
    {
      assert r < |m.objs| ==> m'.objs[r] == m.objs[r];
    }
    forall k | k in m'.sessions
      ensures m'.sessions[k] < |m'.objs| && var s := m'.objs[m'.sessions[k]];
              s.id == k && s.closes == 0 && s.phase != Finished(false)
    {
      if k != id {
        assert m'.objs[m'.sessions[k]] == m.objs[m.sessions[k]];
      }
    }
  }

  lemma SizeWith(s: map<UUID, Ref>, id: UUID, r: Ref)
    ensures |s[id := r]| == |s| + if id in s then 0 else 1
  {
    assert s[id := r].Keys == s.Keys + {id};
    assert |s.Keys| == |s| && |s[id := r].Keys| == |s[id := r]|;
  }

  lemma ProcessKeepsInv(m: Manager)
    requires Inv(m) && m.processing.Some?
    ensures Inv(Process(m))
  {
    UnregisterKeepsInv(m, m.processing.value.id, m.processing.value.byRemote);
  }

  lemma HandOverKeepsInv(m: Manager, r: Ref)
    requires Inv(m) && Enabled(m, EndHandsOver(r))
    ensures Inv(Next(m, EndHandsOver(r)))
  {
    var objs := Next(m, EndHandsOver(r)).objs;
    forall id | id in m.sessions
      ensures m.sessions[id] != r ==> objs[m.sessions[id]] == m.objs[m.sessions[id]]
      ensures m.sessions[id] == r ==> id == m.objs[r].id
    {
    }
  }

  lemma NextKeepsInv(m: Manager, e: Event)
    requires Inv(m) && Enabled(m, e)
    ensures Inv(Next(m, e))
  {
    match e
    case Register(id) => RegisterKeepsInv(m, id);
    case Unregister(id, byRemote) =>
    case Processed => ProcessKeepsInv(m);
    case Shutdown => ShutdownKeepsInv(m);
    case ReaderStops(r) => ObjectKeepsInv(m, r, Next(m, e).objs[r]);
    case Receives(r) =>
      ReceivingKeepsOk(m.objs[r]);
      ObjectKeepsInv(m, r, Next(m, e).objs[r]);
    case StopsByItself(r) => ObjectKeepsInv(m, r, Next(m, e).objs[r]);
    case EndHandsOver(r) => HandOverKeepsInv(m, r);
    case EndTimesOut(r) => ObjectKeepsInv(m, r, Next(m, e).objs[r]);
  }

  // A step of one session that the manager has no part in.
  lemma ObjectKeepsInv(m: Manager, r: Ref, s: Session)
    requires Inv(m) && r < |m.objs| && SessionOk(s)
    requires s.id == m.objs[r].id && s.closes == m.objs[r].closes
    requires s.phase == Finished(false) ==> s.closes == 1 || m.objs[r].phase == Finished(false)
    ensures Inv(m.(objs := m.objs[r := s]))
  {
    var objs := m.objs[r := s];
    forall id | id in m.sessions
      ensures var o := objs[m.sessions[id]];
              && o.id == id && o.closes == 0
              && (o.phase == Finished(false) ==> m.processing == Some(Unregistration(id, false)))
    {
      if m.sessions[id] != r {
        assert objs[m.sessions[id]] == m.objs[m.sessions[id]];
      }
    }
  }

  lemma ShutdownKeepsInv(m: Manager)
    requires Inv(m) && Listens(m)
    ensures Inv(ShutdownSessions(m))
  {
    var m' := ShutdownSessions(m);
    forall r | 0 <= r < |m'.objs|
      ensures SessionOk(m'.objs[r])
    {
      if r in m.sessions.Values {
        var id :| id in m.sessions && m.sessions[id] == r;
        assert m.objs[r].closes == 0;
      }
    }
  }

  lemma ReceivingKeepsOk(s: Session)
    requires SessionOk(s) && s.closeChan != []
    ensures SessionOk(AfterReceiving(s))
    ensures AfterReceiving(s).phase == Finished(false) ==> s.closes == 1
  {
    assert forall x :: x in s.closeChan[1..] ==> x in s.closeChan;
    assert s.closeChan[0] in s.closeChan;
  }

  ghost predicate IsRunFrom(start: Manager, states: seq<Manager>, events: seq<Event>) {
    && |states| == |events| + 1
    && states[0] == start
    && forall i :: 0 <= i < |events| ==> StepAt(states, events, i)
  }

  ghost predicate IsRun(states: seq<Manager>, events: seq<Event>) {
    IsRunFrom(Empty(), states, events)
  }

  ghost predicate StepAt(states: seq<Manager>, events: seq<Event>, i: nat)
    requires i < |events| && |states| == |events| + 1
  {
    Tracks(states[i]) && Enabled(states[i], events[i]) && states[i + 1] == Next(states[i], events[i])
  }

  lemma {:induction false} RunKeepsInv(states: seq<Manager>, events: seq<Event>, n: nat)
    requires IsRun(states, events) && n < |states|
    ensures Inv(states[n])
  {
    if n > 0 {
      RunKeepsInv(states, events, n - 1);
      assert StepAt(states, events, n - 1);
      NextKeepsInv(states[n - 1], events[n - 1]);
    }
  }

  /**
   In every state of every run, whoever is going to send finds room: at most two values are ever sent to one session's
   channel, one by the manager and one by the reader; the channel of a tracked session has room for the manager's close,
   and that of a session whose reader still runs for the reader's error. Registering an ID again does not change this.
  */
  lemma CloseNeverBlocks(states: seq<Manager>, events: seq<Event>, n: nat)
    requires IsRun(states, events) && n < |states|
    ensures var m := states[n];
            && (forall r :: 0 <= r < |m.objs| ==>
                  m.objs[r].closes + m.objs[r].readerSends <= 2
                  && |m.objs[r].closeChan| <= 2
                  && (!m.objs[r].readerDone ==> |m.objs[r].closeChan| < 2))
            && (forall id :: id in m.sessions ==>
                  m.sessions[id] < |m.objs| && |m.objs[m.sessions[id]].closeChan| < 2)
  {
    RunKeepsInv(states, events, n);
  }

  // Session r, before and after, and nobody else changed.
  ghost predicate OnlyChanges(m: Manager, m': Manager, r: Ref) {
    && |m'.objs| == |m.objs| && r < |m.objs|
    && (forall q :: 0 <= q < |m.objs| && q != r ==> m'.objs[q] == m.objs[q])
    && m'.objs[r].id == m.objs[r].id
  }

  /**
   What each step of every run does to the session it is about, and that it leaves the others alone. In particular the
   goroutine that serves a session asks for nothing more once it was told to stop by the remote, and unregisters its ID
   after any other reason; and a shutdown tells every tracked session to stop as if by the remote.
  */
  lemma StepsExactly(states: seq<Manager>, events: seq<Event>, n: nat)
    requires IsRun(states, events) && n < |events|
    ensures var m, m' := states[n], states[n + 1];
            match events[n]
            case Register(id) =>
              && m'.sessions == m.sessions[id := |m.objs|]
              && |m'.objs| == |m.objs| + 1 && m'.objs[..|m.objs|] == m.objs
              && m'.objs[|m.objs|].id == id && m'.objs[|m.objs|].closeChan == [] && m'.objs[|m.objs|].phase == Serving
              && m'.activeGauge == m.activeGauge + 1
            case Unregister(id, byRemote) =>
              m'.processing == Some(Unregistration(id, byRemote)) && m'.sessions == m.sessions && m'.objs == m.objs
            case Processed =>
              && m.processing.Some? && m'.processing.None?
              && var u := m.processing.value;
                 && m'.sessions == m.sessions - {u.id}
                 && (u.id !in m.sessions ==> m'.objs == m.objs && m'.activeGauge == m.activeGauge)
                 && (u.id in m.sessions ==>
                       && OnlyChanges(m, m', m.sessions[u.id]) && m'.activeGauge == m.activeGauge - 1
                       && m'.objs[m.sessions[u.id]].closeChan ==
                          m.objs[m.sessions[u.id]].closeChan + [ClosedSession(u.byRemote)])
            case Shutdown =>
              && m'.sessions == map[] && m'.stopped && |m'.objs| == |m.objs|
              && (forall q :: 0 <= q < |m.objs| ==>
                    m'.objs[q].closeChan ==
                    m.objs[q].closeChan + if q in m.sessions.Values then [ClosedSession(true)] else [])
            case ReaderStops(r) =>
              && OnlyChanges(m, m', r) && m'.sessions == m.sessions && m'.objs[r].readerDone
              && m'.objs[r].closeChan == m.objs[r].closeChan + [ReadError]
            case Receives(r) =>
              && OnlyChanges(m, m', r) && m'.sessions == m.sessions
              && m.objs[r].closeChan != [] && m.objs[r].closeChan == [m.objs[r].closeChan[0]] + m'.objs[r].closeChan
              && m'.objs[r].phase ==
                 if m.objs[r].closeChan[0] == ClosedSession(true) then Finished(false) else Unregistering
            case StopsByItself(r) =>
              OnlyChanges(m, m', r) && m'.sessions == m.sessions && m'.objs[r].phase == Unregistering
            case EndHandsOver(r) =>
              && OnlyChanges(m, m', r) && m'.sessions == m.sessions && m'.objs[r].phase == Finished(false)
              && m'.processing == Some(Unregistration(m.objs[r].id, false))
            case EndTimesOut(r) =>
              && OnlyChanges(m, m', r) && m'.sessions == m.sessions && m'.objs[r].phase == Finished(true)
              && m'.processing == m.processing
  {
    assert StepAt(states, events, n);
  }

  /**
   The active-sessions gauge is the number of tracked sessions exactly if no registration replaced a tracked session,
   and after shutdown it is back at zero under the same condition.
  */
  lemma GaugeExactly(states: seq<Manager>, events: seq<Event>, n: nat)
    requires IsRun(states, events) && n < |states|
    ensures states[n].activeGauge == |states[n].sessions| <==> states[n].overwritten == 0
    ensures states[n].stopped ==> (states[n].activeGauge == 0 <==> states[n].overwritten == 0)
  {
    RunKeepsInv(states, events, n);
  }

  /**
   A finished session is not tracked, unless its own request to unregister timed out or the manager has only just
   received it.
  */
  lemma FinishedIsForgotten(states: seq<Manager>, events: seq<Event>, n: nat, r: Ref)
    requires IsRun(states, events) && n < |states| && r < |states[n].objs|
    requires states[n].objs[r].phase.Finished? && r in states[n].sessions.Values
    ensures states[n].objs[r].phase.timedOut ||
            states[n].processing == Some(Unregistration(states[n].objs[r].id, false))
  {
    RunKeepsInv(states, events, n);
  }

  /**
   A session that ends by itself unregisters by ID, not by identity: when the manager carries that out, whatever the
   other goroutines did in between, it closes another session exactly when its ID is tracked for another one. Between
   the hand-over and that step the manager registers and unregisters nothing.
  */
  lemma EndClosesOtherExactly(m: Manager, r: Ref, others: seq<Manager>, events: seq<Event>)
    requires Inv(m) && Enabled(m, EndHandsOver(r))
    requires IsRunFrom(Next(m, EndHandsOver(r)), others, events) && forall e :: e in events ==> e != Processed
    ensures var h := others[|events|];
            && Inv(h) && Enabled(h, Processed) && h.sessions == m.sessions
            && ((exists q :: 0 <= q < |h.objs| && q != r && Next(h, Processed).objs[q] != h.objs[q]) <==>
                m.objs[r].id in m.sessions && m.sessions[m.objs[r].id] != r)
  {
    HandOverKeepsInv(m, r);
    NothingElseProcessed(Next(m, EndHandsOver(r)), others, events);
    var id, h := m.objs[r].id, others[|events|];
    if id in m.sessions && m.sessions[id] != r {
      var q := h.sessions[id];
      assert Next(h, Processed).objs[q].closes == h.objs[q].closes + 1;
    }
  }

  // A manager that is busy with a request stays so until it has carried it out.
  lemma {:induction false} NothingElseProcessed(start: Manager, states: seq<Manager>, events: seq<Event>)
    requires Inv(start) && start.processing.Some?
    requires IsRunFrom(start, states, events) && forall e :: e in events ==> e != Processed
    ensures var h := states[|events|];
            Inv(h) && h.processing == start.processing && h.sessions == start.sessions && |h.objs| == |start.objs|
    decreases |events|
  {
    if events != [] {
      var k := |events| - 1;
      var front, before := states[..k + 1], events[..k];
      forall i | 0 <= i < k
        ensures StepAt(front, before, i)
      {
        assert StepAt(states, events, i);
      }
      assert forall e :: e in before ==> e in events;
      NothingElseProcessed(start, front, before);
      assert StepAt(states, events, k) && events[k] in events;
      NextKeepsInv(states[k], events[k]);
    }
  }

  // One ID registered twice, the first session going idle, and what that leads to.
  function TwiceRegistered(): Manager {
    Manager(map[7 := 1], [NewSession(7), NewSession(7)], 2, 1, false, None)
  }

  function FirstIdle(): Manager {
    TwiceRegistered().(objs := [NewSession(7).(phase := Unregistering), NewSession(7)])
  }

  function FirstHandedOver(): Manager {
    Manager(map[7 := 1], [NewSession(7).(phase := Finished(false)), NewSession(7)], 2, 1, false,
            Some(Unregistration(7, false)))
  }

  function SecondClosed(): Manager {
    Manager(map[], [NewSession(7).(phase := Finished(false)), Closed(NewSession(7), ClosedSession(false))], 1, 1, false,
            None)
  }

  function WitnessStates(): seq<Manager> {
    [Empty(), RegisterSession(Empty(), 7), TwiceRegistered(), FirstIdle(), FirstHandedOver(), SecondClosed()]
  }

  function WitnessEvents(): seq<Event> {
    [Register(7), Register(7), StopsByItself(0), EndHandsOver(0), Processed]
  }

  lemma WitnessRegisters()
    ensures StepAt(WitnessStates(), WitnessEvents(), 0) && StepAt(WitnessStates(), WitnessEvents(), 1)
  {
    var m := RegisterSession(Empty(), 7);
    assert Next(Empty(), Register(7)) == m && Next(m, Register(7)) == TwiceRegistered();
  }

  lemma WitnessEnds()
    ensures StepAt(WitnessStates(), WitnessEvents(), 2) && StepAt(WitnessStates(), WitnessEvents(), 3)
    ensures StepAt(WitnessStates(), WitnessEvents(), 4)
  {
    assert Next(TwiceRegistered(), StopsByItself(0)) == FirstIdle();
    assert Next(FirstIdle(), EndHandsOver(0)) == FirstHandedOver();
    assert map[7 := 1] - {7} == map[];
    assert Next(FirstHandedOver(), Processed) == SecondClosed();
  }

  /** Registering an ID twice and the first session going idle is a run in which that happens. */
  lemma EndClosesOtherWitness()
    ensures exists states: seq<Manager>, events: seq<Event> ::
              && IsRun(states, events) && |events| == 5
              && events[3] == EndHandsOver(0) && events[4] == Processed && states[5].sessions == map[]
              && |states[5].objs| == 2 && states[5].objs[1].closeChan == [ClosedSession(false)]
  {
    WitnessRegisters();
    WitnessEnds();
    assert IsRun(WitnessStates(), WitnessEvents());
  }

  /** The event loop's own operations. A close is only ever called when the channel has room. */
  class SessionManager {
    var sessions: map<UUID, Ref>
    var objs: seq<Session>
    var activeGauge: int
    var stopped: bool
    var processing: Option<Unregistration>
    ghost var overwritten: nat

    constructor ()
      ensures State() == Empty()
    {
      sessions, objs, activeGauge, stopped, processing, overwritten := map[], [], 0, false, None, 0;
    }

    ghost function State(): Manager
      reads this
    {
      Manager(sessions, objs, activeGauge, overwritten, stopped, processing)
    }

    method Register(id: UUID) returns (ref: Ref)
      requires Inv(State()) && Listens(State())
      modifies this
      ensures State() == RegisterSession(old(State()), id) && Inv(State())
      ensures ref == old(|objs|)
    {
      RegisterKeepsInv(State(), id);
      overwritten := overwritten + if id in sessions then 1 else 0;
      ref := |objs|;
      objs := objs + [NewSession(id)];
      sessions := sessions[id := ref];
      activeGauge := activeGauge + 1;
    }

    // Sends the reason; the requires clause is what keeps the send from blocking.
    method Close(ref: Ref, byRemote: bool)
      requires ref < |objs| && |objs[ref].closeChan| < CLOSE_CHAN_CAPACITY
      modifies this`objs
      ensures objs == old(objs)[ref := Closed(old(objs)[ref], ClosedSession(byRemote))]
    {
      var s := objs[ref];
      objs := objs[ref := s.(closeChan := s.closeChan + [ClosedSession(byRemote)], closes := s.closes + 1)];
    }

    method Unregister(id: UUID, byRemote: bool)
      requires Inv(State())
      modifies this`sessions, this`objs, this`activeGauge
      ensures State() == UnregisterSession(old(State()), id, byRemote) && Inv(State())
    {
      UnregisterKeepsInv(State(), id, byRemote);
      if id in sessions {
        var ref := sessions[id];
        sessions := sessions - {id};
        Close(ref, byRemote);
        activeGauge := activeGauge - 1;
      }
    }

    // A request is received at the select, and then carried out.
    method Receive(id: UUID, byRemote: bool)
      requires Inv(State()) && Listens(State())
      modifies this`processing
      ensures State() == Next(old(State()), Event.Unregister(id, byRemote)) && Inv(State())
    {
      processing := Some(Unregistration(id, byRemote));
    }

    method ProcessRequest()
      requires Inv(State()) && processing.Some?
      modifies this`sessions, this`objs, this`activeGauge, this`processing
      ensures State() == Next(old(State()), Processed) && Inv(State())
    {
      ProcessKeepsInv(State());
      Unregister(processing.value.id, processing.value.byRemote);
      processing := None;
    }

    method Shutdown()
      requires Inv(State()) && Listens(State())
      modifies this
      ensures State() == ShutdownSessions(old(State())) && Inv(State())
    {
      ghost var m := State();
      NextKeepsInv(m, Event.Shutdown);
      while sessions != map[]
        invariant Inv(State()) && Listens(State())
        invariant ShutdownSessions(State()) == ShutdownSessions(m)
        decreases |sessions|
      {
        var id :| id in sessions;
        UnregisterThenShutdown(State(), id);
        Unregister(objs[sessions[id]].id, true);
      }
      stopped := true;
      assert objs == ShutdownSessions(State()).objs;
    }
  }

  // Closing one session first makes no difference to the shutdown.
  lemma UnregisterThenShutdown(m: Manager, id: UUID)
    requires Inv(m) && id in m.sessions
    ensures ShutdownSessions(UnregisterSession(m, id, true)) == ShutdownSessions(m)
    ensures |UnregisterSession(m, id, true).sessions| < |m.sessions|
  {
    var u := UnregisterSession(m, id, true);
    ValuesWithout(m.sessions, id);
    assert u.sessions.Keys == m.sessions.Keys - {id};
    assert |m.sessions.Keys| == |m.sessions| && |u.sessions.Keys| == |u.sessions|;
    var x, y := ShutdownSessions(u).objs, ShutdownSessions(m).objs;
    forall i | 0 <= i < |m.objs|
      ensures x[i] == y[i]
    {
      if i == m.sessions[id] {
        assert id in m.sessions && i in m.sessions.Values && i !in u.sessions.Values;
      }
    }
    assert x == y;
  }

  lemma ValuesWithout(s: map<UUID, Ref>, id: UUID)
    requires id in s && forall a, b :: a in s && b in s && s[a] == s[b] ==> a == b
    ensures forall r :: r in (s - {id}).Values <==> r in s.Values && r != s[id]
  {
    forall r
      ensures r in (s - {id}).Values <==> r in s.Values && r != s[id]
    {
      if r in (s - {id}).Values {
        var k :| k in s - {id} && (s - {id})[k] == r;
        assert k in s && s[k] == r;
      }
      if r in s.Values && r != s[id] {
        var k :| k in s && s[k] == r;
        assert k in s - {id} && (s - {id})[k] == r;
      }
    }
  }
}
