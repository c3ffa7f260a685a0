/**
 The supervisor's event loop over the tunnels of one cloudflared. Tunnel goroutines end by handing an error (or nil)
 over an unbuffered channel; failed tunnels wait for a shared backoff timer and are started again together; a chain of
 connected signals tells when every connecting tunnel has connected.
*/
module Supervisor {
  import opened Results

  type Index = nat

  // A signal channel; each is made once.
  type SignalID = nat

  // How a tunnel goroutine ends.
  datatype TunnelError = NoError | ReconnectSignal | Failure

  /**
   The loop's own account of the tunnels (tunnelsActive, tunnelsWaiting, the backoff timer), and beside it where the
   tunnels really are: the indices whose goroutine has not handed over its error yet, and those that ended for good.
  */
  datatype Pool = Pool(
    tunnelsActive: int, tunnelsWaiting: seq<Index>, backoffPending: bool,
    running: multiset<Index>, ended: multiset<Index>)

  /**
   tunnelsConnecting and the next signal to wait for; how many signals were made, and the latest one of each index; and
   which of them belong to a tunnel that has registered (fused), and which have been closed by that tunnel's goroutine.
  */
  datatype Signals = Signals(
    connecting: map<Index, SignalID>, nextIndex: Index, next: Option<SignalID>,
    made: nat, latest: map<Index, SignalID>, fused: set<SignalID>, closed: set<SignalID>)

  /**
   The loop's state. shuttingDown is the loop's own variable; shutdownRequested says that the graceful-shutdown channel
   is closed, and cancelled that the context is. Tunnels see these before the loop may. graceSets counts how often the
   grace period was set.
  */
  datatype State = State(
    haConnections: nat, pool: Pool, signals: Signals, shuttingDown: bool, returned: bool, graceSets: nat,
    shutdownRequested: bool, cancelled: bool)

  datatype Event =
    | ContextDone
    | TunnelEnds(index: Index, err: TunnelError)
    | BackoffExpires
    | NextConnected
    | GracefulShutdown
    // The environment: a tunnel registers with the edge, and later its goroutine closes the signal; a graceful shutdown
    // is requested; the context is cancelled.
    | Fuse(index: Index)
    | Notify(signal: SignalID)
    | RequestShutdown
    | Cancel

  predicate Stopping(s: State) {
    s.shutdownRequested || s.cancelled
  }

  // A tunnel ends with nil only when it is asked to stop.
  predicate Enabled(s: State, e: Event) {
    && !s.returned
    && match e
       case ContextDone => s.cancelled
       case TunnelEnds(index, err) => index in s.pool.running && (err == NoError ==> Stopping(s))
       case BackoffExpires => s.pool.backoffPending
       case NextConnected => s.signals.next.Some? && s.signals.next.value in s.signals.closed
       case GracefulShutdown => s.shutdownRequested
       case Fuse(index) => index in s.pool.running && index in s.signals.connecting
       case Notify(signal) => signal in s.signals.fused
       case RequestShutdown => true
       case Cancel => true
  }

  // newConnectedTunnelSignal.
  function NewSignal(g: Signals, index: Index): Signals {
    g.(made := g.made + 1, latest := g.latest[index := g.made],
       connecting := g.connecting[index := g.made], next := Some(g.made), nextIndex := index)
  }

  function NewSignals(g: Signals, indices: seq<Index>): Signals {
    if indices == [] then g else NewSignal(NewSignals(g, indices[..|indices| - 1]), indices[|indices| - 1])
  }

  // waitForNextTunnel: forget the index; go on with any other connecting tunnel, if there is one.
  ghost predicate WaitForNext(g: Signals, index: Index, g': Signals) {
    var rest := g.connecting - {index};
    if rest == map[] then g' == g.(connecting := rest, next := None)
    else
      && g'.nextIndex in rest
      && g' == g.(connecting := rest, nextIndex := g'.nextIndex, next := Some(rest[g'.nextIndex]))
  }

  // A tunnel that failed reconnects at once, waits or, with the context cancelled, ends for good.
  ghost predicate AfterFailure(s: State, index: Index, err: TunnelError, s': State)
    requires err != NoError
  {
    var p := s.pool;
    match err
    case ReconnectSignal =>
      s' == s.(pool := p.(tunnelsActive := p.tunnelsActive + 1, running := p.running + multiset{index}),
               signals := NewSignal(s.signals, index))
    case Failure =>
      if s.cancelled then s' == s.(pool := p.(ended := p.ended + multiset{index}))
      else
        && WaitForNext(s.signals, index, s'.signals)
        && s' == s.(pool := p.(tunnelsWaiting := p.tunnelsWaiting + [index], backoffPending := true),
                    signals := s'.signals)
  }

  // One goroutine less.
  function Departed(p: Pool, index: Index): Pool {
    p.(tunnelsActive := p.tunnelsActive - 1, running := p.running - multiset{index})
  }

  ghost predicate TunnelEnded(s: State, index: Index, err: TunnelError, s': State) {
    var p := Departed(s.pool, index);
    if err == NoError || s.shuttingDown then
      s' == s.(pool := p.(ended := p.ended + multiset{index}), returned := p.tunnelsActive == 0)
    else AfterFailure(s.(pool := p), index, err, s')
  }

  // Everyone who waits is started again.
  function Restarted(p: Pool): Pool {
    p.(tunnelsActive := p.tunnelsActive + |p.tunnelsWaiting|, running := p.running + multiset(p.tunnelsWaiting),
       tunnelsWaiting := [], backoffPending := false)
  }

  function Max0(n: int): nat {
    if n < 0 then 0 else n
  }

  // As many errors are received as there are active tunnels by the loop's count. With fewer goroutines than that
  // left to send one, the loop would wait forever.
  ghost predicate Drained(p: Pool, p': Pool, taken: multiset<Index>) {
    && taken <= p.running && |taken| == Max0(p.tunnelsActive)
    && p' == p.(tunnelsActive := p.tunnelsActive - |taken|, running := p.running - taken, ended := p.ended + taken)
  }

  ghost predicate Next(s: State, e: Event, s': State) {
    && Enabled(s, e)
    && match e
       case ContextDone =>
         && (exists taken :: Drained(s.pool, s'.pool, taken))
         && s' == s.(pool := s'.pool, returned := true)
       case TunnelEnds(index, err) => TunnelEnded(s, index, err, s')
       case BackoffExpires =>
         s' == s.(pool := Restarted(s.pool), signals := NewSignals(s.signals, s.pool.tunnelsWaiting))
       case NextConnected =>
         && WaitForNext(s.signals, s.signals.nextIndex, s'.signals)
         && s' == s.(signals := s'.signals,
                     graceSets := s.graceSets +
                                  if s'.signals.connecting == map[] && s.pool.tunnelsWaiting == [] then 1 else 0)
       case GracefulShutdown => s' == s.(shuttingDown := true)
       case Fuse(index) =>
         s' == s.(signals := s.signals.(fused := s.signals.fused + {s.signals.connecting[index]}))
       case Notify(signal) => s' == s.(signals := s.signals.(closed := s.signals.closed + {signal}))
       case RequestShutdown => s' == s.(shutdownRequested := true)
       case Cancel => s' == s.(cancelled := true)
  }

  function NoSignals(): Signals {
    Signals(map[], 0, None, 0, map[], {}, {})
  }

  // 0, 1, ..., n-1 as a multiset.
  function Indices(n: nat): multiset<Index> {
    if n == 0 then multiset{} else Indices(n - 1) + multiset{n - 1}
  }

  // The indices initialize starts after the first tunnel has connected, in order.
  function LaterIndices(haConnections: nat): (rest: seq<Index>)
    ensures |rest| == (if haConnections == 0 then 0 else haConnections - 1)
    ensures forall i :: 0 <= i < |rest| ==> rest[i] == i + 1
  {
    seq(if haConnections == 0 then 0 else haConnections - 1, i => i + 1)
  }

  // What initialize leaves behind when the first tunnel connected. That one runs even if no connection is to be had.
  function Initialized(haConnections: nat): State {
    var rest := LaterIndices(haConnections);
    State(haConnections, Pool(haConnections, [], false, multiset{0} + multiset(rest), multiset{}),
          NewSignals(NoSignals(), rest), false, false, 0, false, false)
  }

  // What it leaves behind when the first tunnel ended with a nil error instead, being asked to stop: initialize, if it
  // receives that nil first, returns it, so the loop begins with its counter at haConnections and no tunnel started.
  function InitializedByNil(haConnections: nat, shutdownRequested: bool, cancelled: bool): State {
    State(haConnections, Pool(haConnections, [], false, multiset{}, multiset{0}), NoSignals(), false, false, 0,
          shutdownRequested, cancelled)
  }

  /** Every configured index is in exactly one place, once: running, waiting or ended. */
  ghost predicate Census(s: State) {
    s.pool.running + multiset(s.pool.tunnelsWaiting) + s.pool.ended == Indices(s.haConnections)
  }

  /** The next signal is the connecting map's entry under nextIndex, and there is none exactly when the map is empty. */
  ghost predicate Chain(g: Signals) {
    && (g.next.None? <==> g.connecting == map[])
    && (g.next.Some? ==> g.nextIndex in g.connecting && g.connecting[g.nextIndex] == g.next.value)
  }

  // Signals are not shared, and only existing ones are fused or closed.
  ghost predicate Distinct(g: Signals) {
    && (forall i :: i in g.connecting ==> g.connecting[i] < g.made)
    && (forall i, j :: i in g.connecting && j in g.connecting && i != j ==> g.connecting[i] != g.connecting[j])
    && (forall sig :: sig in g.fused ==> sig < g.made)
    && g.closed <= g.fused
  }

  // Only running tunnels and ended ones are in the connecting map.
  ghost predicate ConnectingKnown(s: State) {
    forall i :: i in s.signals.connecting ==> i in s.pool.running || i in s.pool.ended
  }

  /** What holds in every reachable state of the loop. */
  ghost predicate Inv(s: State) {
    && Census(s)
    && s.pool.tunnelsActive == |s.pool.running|
    && (s.pool.tunnelsWaiting != [] <==> s.pool.backoffPending)
    && (s.returned ==> s.pool.running == multiset{})
    && Chain(s.signals)
    && Distinct(s.signals)
    && ConnectingKnown(s)
  }

  lemma NewSignalKeeps(g: Signals, index: Index)
    requires Chain(g) && Distinct(g)
    ensures Chain(NewSignal(g, index)) && Distinct(NewSignal(g, index))
  {
    assert index in NewSignal(g, index).connecting;
  }

  lemma {:induction false} NewSignalsKeep(g: Signals, indices: seq<Index>)
    requires Chain(g) && Distinct(g)
    ensures var g' := NewSignals(g, indices);
            && Chain(g') && Distinct(g')
            && (forall i :: i in g'.connecting <==> i in g.connecting || i in indices)
            && (forall i :: i in g.connecting && i !in indices ==> g'.connecting[i] == g.connecting[i])
            && g'.fused == g.fused
  {
    if indices != [] {
      var k := |indices| - 1;
      var m := NewSignals(g, indices[..k]);
      NewSignalsKeep(g, indices[..k]);
      NewSignalKeeps(m, indices[k]);
      assert NewSignals(g, indices) == NewSignal(m, indices[k]);
      assert forall i :: i in indices <==> i in indices[..k] || i == indices[k] by {
        assert indices == indices[..k] + [indices[k]];
      }
    }
  }

  lemma {:induction false} IndicesAre(n: nat)
    ensures |Indices(n)| == n
    ensures forall i: Index :: Indices(n)[i] == if i < n then 1 else 0
  {
    if n > 0 {
      IndicesAre(n - 1);
    }
  }

  lemma {:induction false} LaterIndicesAre(haConnections: nat)
    requires haConnections >= 1
    ensures multiset{0} + multiset(LaterIndices(haConnections)) == Indices(haConnections)
  {
    var rest := LaterIndices(haConnections);
    if haConnections == 1 {
      assert rest == [];
      assert Indices(1) == Indices(0) + multiset{0};
    } else {
      LaterIndicesAre(haConnections - 1);
      var before := LaterIndices(haConnections - 1);
      assert rest == before + [haConnections - 1];
    }
  }

  lemma InitialCensus(haConnections: nat)
    requires haConnections >= 1
    ensures Census(Initialized(haConnections)) && |Initialized(haConnections).pool.running| == haConnections
  {
    LaterIndicesAre(haConnections);
    IndicesAre(haConnections);
    var running := Initialized(haConnections).pool.running;
    assert running + multiset([]) + multiset{} == running;
  }

  lemma InitialSignals(haConnections: nat)
    ensures var s := Initialized(haConnections); Chain(s.signals) && Distinct(s.signals) && ConnectingKnown(s)
  {
    var s, rest := Initialized(haConnections), LaterIndices(haConnections);
    NewSignalsKeep(NoSignals(), rest);
    forall i | i in s.signals.connecting
      ensures i in s.pool.running
    {
      assert i in multiset(rest);
    }
  }

  // With no connection to make, one tunnel runs all the same; and a first tunnel that ended counts as running.
  lemma InitialMiscount(haConnections: nat, shutdownRequested: bool, cancelled: bool)
    ensures haConnections == 0 ==> !Census(Initialized(haConnections))
    ensures haConnections == 0 ==> !Census(InitializedByNil(haConnections, shutdownRequested, cancelled))
    ensures haConnections > 0 ==> InitializedByNil(haConnections, shutdownRequested, cancelled).pool.tunnelsActive != 0
  {
    if haConnections == 0 {
      var p, q := Initialized(0).pool, InitializedByNil(0, shutdownRequested, cancelled).pool;
      assert 0 in p.running + multiset(p.tunnelsWaiting) + p.ended;
      assert 0 in q.running + multiset(q.tunnelsWaiting) + q.ended;
    }
  }

  /**
   The loop starts with its books in order exactly when the first tunnel connected and there is at least one connection
   to make.
  */
  lemma InitialInv(haConnections: nat, shutdownRequested: bool, cancelled: bool)
    ensures Inv(Initialized(haConnections)) <==> haConnections >= 1
    ensures !Inv(InitializedByNil(haConnections, shutdownRequested, cancelled))
  {
    InitialMiscount(haConnections, shutdownRequested, cancelled);
    if haConnections >= 1 {
      InitialCensus(haConnections);
      InitialSignals(haConnections);
    }
  }

  // Taking one running index out.
  lemma TakeOut(p: Pool, index: Index)
    requires index in p.running
    ensures p.running - multiset{index} + multiset{index} == p.running
    ensures |p.running - multiset{index}| == |p.running| - 1
    ensures |p.running - multiset{index}| == 0 <==> p.running - multiset{index} == multiset{}
  {
  }

  lemma EndForGood(s: State, index: Index, s': State)
    requires Inv(s) && index in s.pool.running
    requires s'.pool == Departed(s.pool, index).(ended := s.pool.ended + multiset{index})
    requires s' == s.(pool := s'.pool, returned := s'.returned)
    requires s'.returned ==> s'.pool.tunnelsActive == 0
    ensures Inv(s')
  {
    TakeOut(s.pool, index);
    assert Census(s') by {
      MovedToEnd(s.pool.running, multiset(s.pool.tunnelsWaiting), s.pool.ended, index);
    }
    forall i | i in s'.signals.connecting
      ensures i in s'.pool.running || i in s'.pool.ended
    {
      assert i in s.signals.connecting;
    }
  }

  lemma MovedToEnd(running: multiset<Index>, waiting: multiset<Index>, ended: multiset<Index>, index: Index)
    requires index in running
    ensures running - multiset{index} + waiting + (ended + multiset{index}) == running + waiting + ended
  {
  }

  lemma EndToReconnect(s: State, index: Index, s': State)
    requires Inv(s) && Next(s, TunnelEnds(index, ReconnectSignal), s') && !s.shuttingDown
    ensures Inv(s')
  {
    TakeOut(s.pool, index);
    assert s'.pool == s.pool;
    assert [index][..0] == [];
    NewSignalsKeep(s.signals, [index]);
  }

  lemma EndToWait(s: State, index: Index, s': State)
    requires Inv(s) && Next(s, TunnelEnds(index, Failure), s') && !s.shuttingDown && !s.cancelled
    ensures Inv(s')
  {
    TakeOut(s.pool, index);
    var p, p' := s.pool, s'.pool;
    assert Census(s') by {
      assert multiset(p'.tunnelsWaiting) == multiset(p.tunnelsWaiting) + multiset{index};
      MovedOver(p.running, multiset(p.tunnelsWaiting), p.ended, index);
    }
    forall i | i in s'.signals.connecting
      ensures i in p'.running || i in p'.ended
    {
      assert i in s.signals.connecting && i != index;
    }
  }

  // An index that stops running and starts waiting is still counted once.
  lemma MovedOver(running: multiset<Index>, waiting: multiset<Index>, ended: multiset<Index>, index: Index)
    requires index in running
    ensures running - multiset{index} + (waiting + multiset{index}) + ended == running + waiting + ended
  {
  }

  // The whole of a multiset is the only part of its size.
  lemma WholePart(part: multiset<Index>, all: multiset<Index>)
    requires part <= all
    ensures |all - part| == |all| - |part| && all - part + part == all
    ensures |part| == |all| ==> part == all
  {
    assert all == (all - part) + part;
    if |part| == |all| {
      assert |all - part| == 0;
      assert all - part == multiset{};
    }
  }

  lemma DoneKeepsInv(s: State, s': State)
    requires Inv(s) && Next(s, ContextDone, s')
    ensures Inv(s')
  {
    var taken :| Drained(s.pool, s'.pool, taken);
    WholePart(taken, s.pool.running);
    assert s'.pool.running == multiset{} && taken == s.pool.running;
    AllEnded(s.pool.running, multiset(s.pool.tunnelsWaiting), s.pool.ended);
    assert s'.signals == s.signals;
  }

  lemma AllEnded(running: multiset<Index>, waiting: multiset<Index>, ended: multiset<Index>)
    ensures multiset{} + waiting + (ended + running) == running + waiting + ended
  {
  }

  lemma ExpiryKeepsInv(s: State, s': State)
    requires Inv(s) && Next(s, BackoffExpires, s')
    ensures Inv(s')
  {
    NewSignalsKeep(s.signals, s.pool.tunnelsWaiting);
    assert forall i :: i in s.pool.tunnelsWaiting <==> i in multiset(s.pool.tunnelsWaiting);
    assert s'.pool.running + multiset(s'.pool.tunnelsWaiting) + s'.pool.ended
        == s.pool.running + multiset(s.pool.tunnelsWaiting) + s.pool.ended;
  }

  // The other events leave the pool alone.
  lemma SignalsKeepInv(s: State, e: Event, s': State)
    requires Inv(s) && Next(s, e, s') && !e.ContextDone? && !e.TunnelEnds? && !e.BackoffExpires?
    ensures Inv(s') && s'.pool == s.pool
  {
  }

  // Whether the loop gives up a tunnel that hands over this error.
  predicate EndsForGood(s: State, err: TunnelError) {
    err == NoError || s.shuttingDown || (err == Failure && s.cancelled)
  }

  lemma NextKeepsInv(s: State, e: Event, s': State)
    requires Inv(s) && Next(s, e, s')
    ensures Inv(s') && s'.haConnections == s.haConnections
  {
    if e.ContextDone? {
      DoneKeepsInv(s, s');
    } else if e.BackoffExpires? {
      ExpiryKeepsInv(s, s');
    } else if !e.TunnelEnds? {
      SignalsKeepInv(s, e, s');
    } else if EndsForGood(s, e.err) {
      EndForGood(s, e.index, s');
    } else if e.err == ReconnectSignal {
      EndToReconnect(s, e.index, s');
    } else {
      EndToWait(s, e.index, s');
    }
  }

  // A run of the loop: its states and the events between them.
  ghost predicate IsRun(haConnections: nat, states: seq<State>, events: seq<Event>) {
    && haConnections >= 1
    && |states| == |events| + 1
    && states[0] == Initialized(haConnections)
    && forall i :: 0 <= i < |events| ==> StepAt(states, events, i)
  }

  ghost predicate StepAt(states: seq<State>, events: seq<Event>, i: nat)
    requires i < |events| && |states| == |events| + 1
  {
    Next(states[i], events[i], states[i + 1])
  }

  lemma {:induction false} RunKeepsInv(haConnections: nat, states: seq<State>, events: seq<Event>, n: nat)
    requires IsRun(haConnections, states, events) && n < |states|
    ensures Inv(states[n]) && states[n].haConnections == haConnections
  {
    if n == 0 {
      InitialInv(haConnections, true, false);
    } else {
      RunKeepsInv(haConnections, states, events, n - 1);
      assert StepAt(states, events, n - 1);
      NextKeepsInv(states[n - 1], events[n - 1], states[n]);
    }
  }

  /**
   In every state of every run: the counter is the number of goroutines that still have an error to hand over; no index
   runs twice or waits twice; every configured index is either running, waiting or ended, and in only one of these; the
   timer is pending exactly when someone waits; and Run's return ends the run, with no goroutine left to block on its
   send.
  */
  lemma TunnelsAccountedFor(haConnections: nat, states: seq<State>, events: seq<Event>, n: nat)
    requires IsRun(haConnections, states, events) && n < |states|
    ensures var p := states[n].pool;
            && p.tunnelsActive == |p.running|
            && (forall i: Index ::
                  p.running[i] + multiset(p.tunnelsWaiting)[i] + p.ended[i] == if i < haConnections then 1 else 0)
            && |p.running| + |p.tunnelsWaiting| + |p.ended| == haConnections
            && (p.tunnelsWaiting != [] <==> p.backoffPending)
            && (states[n].returned ==> |p.running| == 0 && n == |events|)
  {
    RunKeepsInv(haConnections, states, events, n);
    if states[n].returned {
      ReturnedIsFinal(haConnections, states, events, n);
    }
    IndicesAre(haConnections);
    var p := states[n].pool;
    var all := p.running + multiset(p.tunnelsWaiting) + p.ended;
    assert all == Indices(haConnections);
    forall i: Index
      ensures p.running[i] + multiset(p.tunnelsWaiting)[i] + p.ended[i] == if i < haConnections then 1 else 0
    {
      assert all[i] == Indices(haConnections)[i];
    }
  }

  /** The connected-signal chain, in every state of every run; nobody who waits is in it. */
  lemma SignalChain(haConnections: nat, states: seq<State>, events: seq<Event>, n: nat)
    requires IsRun(haConnections, states, events) && n < |states|
    ensures var g := states[n].signals;
            && (g.next.None? <==> g.connecting == map[])
            && (g.next.Some? ==> g.nextIndex in g.connecting && g.connecting[g.nextIndex] == g.next.value)
            && (forall i :: i in g.connecting ==> i < haConnections && i !in states[n].pool.tunnelsWaiting)
  {
    RunKeepsInv(haConnections, states, events, n);
    IndicesAre(haConnections);
    var p := states[n].pool;
    forall i | i in states[n].signals.connecting
      ensures i < haConnections && i !in p.tunnelsWaiting
    {
      assert (p.running + multiset(p.tunnelsWaiting) + p.ended)[i] == Indices(haConnections)[i];
      assert i in p.tunnelsWaiting <==> i in multiset(p.tunnelsWaiting);
    }
  }

  /**
   A running tunnel started by the loop has either registered since its latest start or is still awaited under that
   start's own signal.
  */
  ghost predicate Followed(s: State) {
    forall i :: i in s.pool.running && i in s.signals.latest ==> FollowedIndex(s.signals, i)
  }

  ghost predicate FollowedIndex(g: Signals, i: Index)
    requires i in g.latest
  {
    if i in g.connecting then g.connecting[i] == g.latest[i] else g.latest[i] in g.fused
  }

  lemma {:induction false} NewSignalsFollow(g: Signals, indices: seq<Index>)
    ensures var g' := NewSignals(g, indices);
            && g'.fused == g.fused
            && (forall i :: i in indices ==> i in g'.latest && i in g'.connecting && FollowedIndex(g', i))
            && (forall i :: i !in indices ==>
                  && (i in g'.latest <==> i in g.latest) && (i in g.latest ==> g'.latest[i] == g.latest[i])
                  && (i in g'.connecting <==> i in g.connecting)
                  && (i in g.connecting ==> g'.connecting[i] == g.connecting[i]))
  {
    if indices != [] {
      var k := |indices| - 1;
      NewSignalsFollow(g, indices[..k]);
      assert indices == indices[..k] + [indices[k]];
      assert NewSignals(g, indices) == NewSignal(NewSignals(g, indices[..k]), indices[k]);
    }
  }

  // An index that has just stopped running does not run any more.
  lemma RunsOnce(s: State, index: Index)
    requires Census(s) && index in s.pool.running
    ensures index !in s.pool.running - multiset{index}
  {
    IndicesAre(s.haConnections);
    assert (s.pool.running + multiset(s.pool.tunnelsWaiting) + s.pool.ended)[index] == Indices(s.haConnections)[index];
  }

  // What a tunnel's end can do to the signals.
  ghost predicate MovedOn(g: Signals, index: Index, g': Signals) {
    g' == g || g' == NewSignal(g, index) || WaitForNext(g, index, g')
  }

  lemma EndMovesOn(s: State, index: Index, err: TunnelError, s': State)
    requires Next(s, TunnelEnds(index, err), s')
    ensures MovedOn(s.signals, index, s'.signals)
    ensures forall i :: i in s'.pool.running && i != index ==> i in s.pool.running
    ensures index in s'.pool.running && index !in s.pool.running - multiset{index} ==>
              s'.signals == NewSignal(s.signals, index)
  {
  }

  lemma OtherIsFollowed(g: Signals, index: Index, g': Signals, i: Index)
    requires MovedOn(g, index, g') && i != index
    ensures i in g.latest <==> i in g'.latest
    ensures i in g.latest ==> (FollowedIndex(g, i) <==> FollowedIndex(g', i))
  {
  }

  lemma EndKeepsFollowed(s: State, index: Index, err: TunnelError, s': State)
    requires Census(s) && Followed(s) && Next(s, TunnelEnds(index, err), s')
    ensures Followed(s')
  {
    RunsOnce(s, index);
    EndMovesOn(s, index, err, s');
    forall i | i in s'.pool.running && i in s'.signals.latest
      ensures FollowedIndex(s'.signals, i)
    {
      if i != index {
        OtherIsFollowed(s.signals, index, s'.signals, i);
      }
    }
  }

  lemma ExpiryKeepsFollowed(s: State, s': State)
    requires Followed(s) && Next(s, BackoffExpires, s')
    ensures Followed(s')
  {
    var waiting := s.pool.tunnelsWaiting;
    NewSignalsFollow(s.signals, waiting);
    forall i | i in s'.pool.running && i in s'.signals.latest
      ensures FollowedIndex(s'.signals, i)
    {
      assert i in multiset(waiting) <==> i in waiting;
      if i !in waiting {
        assert i in s.pool.running && i in s.signals.latest;
        assert FollowedIndex(s.signals, i);
      }
    }
  }

  lemma OthersKeepFollowed(s: State, e: Event, s': State)
    requires Inv(s) && Followed(s) && Next(s, e, s') && !e.TunnelEnds? && !e.BackoffExpires?
    ensures Followed(s')
  {
    if e.ContextDone? {
      DoneKeepsInv(s, s');
    } else {
      forall i | i in s'.pool.running && i in s'.signals.latest
        ensures FollowedIndex(s'.signals, i)
      {
        assert i in s.pool.running && FollowedIndex(s.signals, i);
      }
    }
  }

  lemma {:induction false} RunKeepsFollowed(haConnections: nat, states: seq<State>, events: seq<Event>, n: nat)
    requires IsRun(haConnections, states, events) && n < |states|
    ensures Followed(states[n])
  {
    if n == 0 {
      NewSignalsFollow(NoSignals(), LaterIndices(haConnections));
    } else {
      var s, e, s' := states[n - 1], events[n - 1], states[n];
      RunKeepsFollowed(haConnections, states, events, n - 1);
      RunKeepsInv(haConnections, states, events, n - 1);
      assert StepAt(states, events, n - 1);
      if e.TunnelEnds? {
        EndKeepsFollowed(s, e.index, e.err, s');
      } else if e.BackoffExpires? {
        ExpiryKeepsFollowed(s, s');
      } else {
        OthersKeepFollowed(s, e, s');
      }
    }
  }

  // Every tunnel the loop started and that still runs has registered since its latest start.
  ghost predicate AllRegistered(s: State) {
    forall i :: i in s.pool.running && i in s.signals.latest ==> s.signals.latest[i] in s.signals.fused
  }

  // The signal of the only tunnel that is still in the connecting map fires, and nobody waits.
  ghost predicate SetsGrace(s: State, e: Event) {
    e == NextConnected && s.signals.connecting.Keys == {s.signals.nextIndex} && s.pool.tunnelsWaiting == []
  }

  lemma GraceStep(s: State, e: Event, s': State)
    requires Inv(s) && Followed(s) && Next(s, e, s')
    ensures s'.graceSets == s.graceSets + if SetsGrace(s, e) then 1 else 0
    ensures SetsGrace(s, e) ==> AllRegistered(s') && s'.pool.tunnelsWaiting == []
  {
    var rest := s.signals.connecting - {s.signals.nextIndex};
    if e == NextConnected {
      assert rest == map[] <==> rest.Keys == {};
      assert s.signals.connecting.Keys == rest.Keys + {s.signals.nextIndex};
    }
    if SetsGrace(s, e) {
      OthersKeepFollowed(s, e, s');
      forall i | i in s'.pool.running && i in s'.signals.latest
        ensures s'.signals.latest[i] in s'.signals.fused
      {
        assert FollowedIndex(s'.signals, i);
      }
    }
  }

  /**
   Exactly when the supervisor sets the grace period of its backoff, each time, in every run: when the signal of the
   only tunnel that is still in the connecting map fires and nobody waits. Every running tunnel has then registered
   since it was last started.
  */
  lemma GraceSetExactly(haConnections: nat, states: seq<State>, events: seq<Event>, n: nat)
    requires IsRun(haConnections, states, events) && n < |events|
    ensures states[n + 1].graceSets == states[n].graceSets + if SetsGrace(states[n], events[n]) then 1 else 0
    ensures SetsGrace(states[n], events[n]) ==>
              AllRegistered(states[n + 1]) && states[n + 1].pool.tunnelsWaiting == []
  {
    RunKeepsInv(haConnections, states, events, n);
    RunKeepsFollowed(haConnections, states, events, n);
    assert StepAt(states, events, n);
    GraceStep(states[n], events[n], states[n + 1]);
  }

  /** After initialization every index but the first is in the connecting map, and the last one's signal is next. */
  lemma InitiallyConnecting(haConnections: nat)
    requires haConnections >= 1
    ensures var g := Initialized(haConnections).signals;
            && (forall i :: i in g.connecting <==> 1 <= i < haConnections)
            && (g.next.Some? ==> g.nextIndex == haConnections - 1)
            && g.fused == {} && g.closed == {}
  {
    var rest := LaterIndices(haConnections);
    NewSignalsKeep(NoSignals(), rest);
    NewSignalsAre(NoSignals(), rest);
    forall i
      ensures i in rest <==> 1 <= i < haConnections
    {
      if 1 <= i < haConnections {
        assert rest[i - 1] == i;
      }
    }
  }

  // The signals of tunnels started together are made in the order of their indices; the last one's is next.
  lemma {:induction false} NewSignalsAre(g: Signals, indices: seq<Index>)
    ensures var g' := NewSignals(g, indices);
            && g'.made == g.made + |indices| && g'.closed == g.closed && g'.fused == g.fused
            && (forall i :: i in indices ==> i in g'.connecting && g.made <= g'.connecting[i] < g'.made)
            && (forall i :: i !in indices ==> (i in g'.connecting <==> i in g.connecting))
            && (forall i :: i !in indices && i in g.connecting ==> g'.connecting[i] == g.connecting[i])
            && (indices != [] ==> g'.nextIndex == indices[|indices| - 1] && g'.next == Some(g'.made - 1))
            && (indices == [] ==> g' == g)
  {
    if indices != [] {
      var k := |indices| - 1;
      NewSignalsAre(g, indices[..k]);
      assert forall i :: i in indices <==> i in indices[..k] || i == indices[k] by {
        assert indices == indices[..k] + [indices[k]];
      }
      assert NewSignals(g, indices) == NewSignal(NewSignals(g, indices[..k]), indices[k]);
    }
  }

  /**
   In every run, a tunnel that ends with a reconnect signal while the loop is not shutting down runs again at once:
   nothing changes for the pool, and the tunnel is connecting under a signal made in that step, which is the next one.
  */
  lemma ReconnectsAtOnce(haConnections: nat, states: seq<State>, events: seq<Event>, n: nat, i: Index)
    requires IsRun(haConnections, states, events) && n < |events|
    requires events[n] == TunnelEnds(i, ReconnectSignal) && !states[n].shuttingDown
    ensures var p, p', g, g' := states[n].pool, states[n + 1].pool, states[n].signals, states[n + 1].signals;
            && i in p'.running && p'.running == p.running && p'.ended == p.ended
            && p'.tunnelsWaiting == p.tunnelsWaiting && p'.backoffPending == p.backoffPending
            && p'.tunnelsActive == p.tunnelsActive
            && g'.made == g.made + 1 && g'.connecting == g.connecting[i := g.made]
            && g'.nextIndex == i && g'.next == Some(g.made) && g'.fused == g.fused
            && !states[n + 1].returned
  {
    assert StepAt(states, events, n);
    TakeOut(states[n].pool, i);
  }

  /**
   In every run, a tunnel that fails while the loop is neither shutting down nor cancelled stops running and is put at
   the end of the waiting list, with the timer pending. It is not connecting any more; everyone else still is, under the
   same signal, and if there is anyone the next signal is one of theirs.
  */
  lemma FailureWaits(haConnections: nat, states: seq<State>, events: seq<Event>, n: nat, i: Index)
    requires IsRun(haConnections, states, events) && n < |events|
    requires events[n] == TunnelEnds(i, Failure) && !states[n].shuttingDown && !states[n].cancelled
    ensures var p, p', g, g' := states[n].pool, states[n + 1].pool, states[n].signals, states[n + 1].signals;
            && i !in p'.running && p'.running == p.running - multiset{i} && p'.ended == p.ended
            && p'.tunnelsWaiting == p.tunnelsWaiting + [i] && p'.backoffPending
            && p'.tunnelsActive == p.tunnelsActive - 1
            && g'.connecting == g.connecting - {i} && g'.made == g.made && g'.fused == g.fused
            && (g'.next.None? <==> g'.connecting == map[])
            && (g'.next.Some? ==> g'.nextIndex in g'.connecting && g'.next.value == g'.connecting[g'.nextIndex])
            && !states[n + 1].returned
  {
    RunKeepsInv(haConnections, states, events, n);
    RunKeepsInv(haConnections, states, events, n + 1);
    assert StepAt(states, events, n);
    RunsOnce(states[n], i);
  }

  /**
   In every run, a tunnel that ends with nil, or during shutdown, or fails with the context cancelled, has ended for
   good; the waiting list, the timer and the signals stay as they are.
  */
  lemma EndedForGood(haConnections: nat, states: seq<State>, events: seq<Event>, n: nat, i: Index, err: TunnelError)
    requires IsRun(haConnections, states, events) && n < |events| && events[n] == TunnelEnds(i, err)
    requires err == NoError || states[n].shuttingDown || (err == Failure && states[n].cancelled)
    ensures var p, p' := states[n].pool, states[n + 1].pool;
            && i !in p'.running && p'.running == p.running - multiset{i} && p'.ended == p.ended + multiset{i}
            && p'.tunnelsWaiting == p.tunnelsWaiting && p'.backoffPending == p.backoffPending
            && p'.tunnelsActive == p.tunnelsActive - 1
            && states[n + 1].signals == states[n].signals
  {
    RunKeepsInv(haConnections, states, events, n);
    assert StepAt(states, events, n);
    RunsOnce(states[n], i);
  }

  /**
   In every run, when the timer fires everyone who waited runs again and nobody waits. Each of them is connecting under
   a signal of its own made in that step; the next signal is that of the last one. Nobody else is affected.
  */
  lemma AllStartAgain(haConnections: nat, states: seq<State>, events: seq<Event>, n: nat)
    requires IsRun(haConnections, states, events) && n < |events| && events[n] == BackoffExpires
    ensures var p, p', g, g' := states[n].pool, states[n + 1].pool, states[n].signals, states[n + 1].signals;
            var waiting := p.tunnelsWaiting;
            && waiting != [] && p'.running == p.running + multiset(waiting) && p'.ended == p.ended
            && p'.tunnelsWaiting == [] && !p'.backoffPending
            && p'.tunnelsActive == p.tunnelsActive + |waiting|
            && g'.fused == g.fused
            && (forall i :: i in waiting ==> i in g'.connecting && g.made <= g'.connecting[i] < g'.made)
            && (forall i, j :: i in waiting && j in waiting && i != j ==> g'.connecting[i] != g'.connecting[j])
            && (forall i :: i !in waiting ==> (i in g'.connecting <==> i in g.connecting))
            && (forall i :: i !in waiting && i in g.connecting ==> g'.connecting[i] == g.connecting[i])
            && g'.nextIndex == waiting[|waiting| - 1] && g'.next == Some(g'.connecting[g'.nextIndex])
  {
    RunKeepsInv(haConnections, states, events, n);
    RunKeepsInv(haConnections, states, events, n + 1);
    assert StepAt(states, events, n);
    NewSignalsAre(states[n].signals, states[n].pool.tunnelsWaiting);
  }

  /**
   In every run: a connected signal takes exactly its own index out of the connecting map, a cancelled context ends
   every running tunnel and Run, and neither touches anything else of the pool. The environment's events do no more than
   they say.
  */
  lemma OtherEventsDoNoMore(haConnections: nat, states: seq<State>, events: seq<Event>, n: nat)
    requires IsRun(haConnections, states, events) && n < |events|
    ensures var s, s' := states[n], states[n + 1];
            match events[n]
            case NextConnected =>
              && s.signals.nextIndex in s.signals.connecting
              && s.signals.connecting[s.signals.nextIndex] in s.signals.closed
              && s'.pool == s.pool && s'.signals.connecting == s.signals.connecting - {s.signals.nextIndex}
              && s'.signals.fused == s.signals.fused && !s'.returned
            case ContextDone =>
              && s'.pool.running == multiset{} && s'.pool.ended == s.pool.ended + s.pool.running
              && s'.pool.tunnelsWaiting == s.pool.tunnelsWaiting && s'.returned
            case GracefulShutdown => s.shutdownRequested && s' == s.(shuttingDown := true)
            case Fuse(i) =>
              && i in s.signals.connecting
              && s' == s.(signals := s.signals.(fused := s.signals.fused + {s.signals.connecting[i]}))
            case Notify(sig) => s' == s.(signals := s.signals.(closed := s.signals.closed + {sig}))
            case RequestShutdown => s' == s.(shutdownRequested := true)
            case Cancel => s' == s.(cancelled := true)
            case _ => true
  {
    RunKeepsInv(haConnections, states, events, n);
    assert StepAt(states, events, n);
    if events[n] == ContextDone {
      AllDrained(states[n], states[n + 1]);
    }
  }

  /**
   What the select may take next, in every state of every run before Run returns: the end of any running tunnel, with
   nil if a stop was asked for; the timer whenever somebody waits; the next connected signal once it is closed; and
   cancellation and shutdown once they are there.
  */
  lemma ReadyExactly(haConnections: nat, states: seq<State>, events: seq<Event>, n: nat, i: Index)
    requires IsRun(haConnections, states, events) && n < |states| && !states[n].returned
    ensures var s := states[n];
            && (Enabled(s, TunnelEnds(i, ReconnectSignal)) <==> i in s.pool.running)
            && (Enabled(s, TunnelEnds(i, Failure)) <==> i in s.pool.running)
            && (Enabled(s, TunnelEnds(i, NoError)) <==> i in s.pool.running && (s.shutdownRequested || s.cancelled))
            && (Enabled(s, BackoffExpires) <==> s.pool.tunnelsWaiting != [])
            && (Enabled(s, NextConnected) <==>
                s.signals.connecting != map[] && s.signals.next.Some? && s.signals.next.value in s.signals.closed)
            && (Enabled(s, ContextDone) <==> s.cancelled)
            && (Enabled(s, GracefulShutdown) <==> s.shutdownRequested)
            && (Enabled(s, Fuse(i)) <==> i in s.pool.running && i in s.signals.connecting)
  {
    RunKeepsInv(haConnections, states, events, n);
  }

  lemma AllDrained(s: State, s': State)
    requires s.pool.tunnelsActive == |s.pool.running| && Next(s, ContextDone, s')
    ensures s'.pool.running == multiset{} && s'.pool.ended == s.pool.ended + s.pool.running
  {
    var taken :| Drained(s.pool, s'.pool, taken);
    WholePart(taken, s.pool.running);
  }

  // The tunnel ended without ever registering and is still in the connecting map.
  ghost predicate Stuck(s: State, i: Index) {
    && i in s.pool.ended
    && i in s.signals.connecting && s.signals.connecting[i] !in s.signals.fused
  }

  lemma EndedIsNowhereElse(s: State, i: Index)
    requires Inv(s) && i in s.pool.ended
    ensures i !in s.pool.running && i !in s.pool.tunnelsWaiting
  {
    IndicesAre(s.haConnections);
    assert (s.pool.running + multiset(s.pool.tunnelsWaiting) + s.pool.ended)[i] == Indices(s.haConnections)[i];
    assert i in s.pool.tunnelsWaiting <==> i in multiset(s.pool.tunnelsWaiting);
  }

  lemma StuckStays(s: State, e: Event, s': State, i: Index)
    requires Inv(s) && Next(s, e, s') && Stuck(s, i)
    ensures Stuck(s', i) && s'.graceSets == s.graceSets
  {
    EndedIsNowhereElse(s, i);
    if e.BackoffExpires? {
      NewSignalsKeep(s.signals, s.pool.tunnelsWaiting);
    } else if e.ContextDone? {
      var taken :| Drained(s.pool, s'.pool, taken);
      assert i in s.pool.ended + taken;
    } else if e.TunnelEnds? {
      StuckStaysAtEnd(s, e.index, e.err, s', i);
    } else if e.NextConnected? {
      assert s.signals.nextIndex != i;
    }
  }

  lemma StuckStaysAtEnd(s: State, index: Index, err: TunnelError, s': State, i: Index)
    requires Next(s, TunnelEnds(index, err), s') && Stuck(s, i) && i !in s.pool.running
    ensures Stuck(s', i) && s'.graceSets == s.graceSets
  {
    assert i in s.pool.ended + multiset{index} && i != index;
  }

  /**
   An index that ended without ever registering, while still in the connecting map, stays there for the rest of the run,
   and from then on the grace period is not set any more, however many tunnels connect.
  */
  lemma {:induction false} GraceBlockedForGood(
    haConnections: nat, states: seq<State>, events: seq<Event>, m: nat, n: nat, i: Index)
    requires IsRun(haConnections, states, events) && m <= n < |states|
    requires Stuck(states[m], i)
    ensures Stuck(states[n], i) && states[n].graceSets == states[m].graceSets
    ensures forall k :: m <= k < n ==> !SetsGrace(states[k], events[k])
    decreases n
  {
    if m < n {
      GraceBlockedForGood(haConnections, states, events, m, n - 1, i);
      StuckStaysInRun(haConnections, states, events, n - 1, i);
    }
  }

  lemma StuckStaysInRun(haConnections: nat, states: seq<State>, events: seq<Event>, k: nat, i: Index)
    requires IsRun(haConnections, states, events) && k < |events| && Stuck(states[k], i)
    ensures Stuck(states[k + 1], i) && states[k + 1].graceSets == states[k].graceSets
    ensures !SetsGrace(states[k], events[k])
  {
    GraceSetExactly(haConnections, states, events, k);
    RunKeepsInv(haConnections, states, events, k);
    assert StepAt(states, events, k);
    StuckStays(states[k], events[k], states[k + 1], i);
  }

  // The supervisor is still waiting for the signal of a running tunnel that has not registered.
  ghost predicate Awaited(s: State, i: Index) {
    && i in s.pool.running
    && i in s.signals.connecting && s.signals.connecting[i] !in s.signals.fused
  }

  lemma NobodyElseGetsStuck(s: State, e: Event, s': State, i: Index)
    requires Inv(s) && Next(s, e, s') && !Stuck(s, i)
    requires !e.ContextDone? && !e.TunnelEnds?
    ensures !Stuck(s', i)
  {
    if i in s.pool.ended {
      EndedIsNowhereElse(s, i);
    }
    if e.BackoffExpires? {
      NewSignalsKeep(s.signals, s.pool.tunnelsWaiting);
    }
  }

  lemma StuckByEnding(s: State, index: Index, err: TunnelError, s': State, i: Index)
    requires Inv(s) && Next(s, TunnelEnds(index, err), s') && !Stuck(s, i)
    ensures Stuck(s', i) <==> Awaited(s, i) && i == index && EndsForGood(s, err)
  {
    assert i in s.pool.ended ==> i !in s.pool.running by {
      if i in s.pool.ended {
        EndedIsNowhereElse(s, i);
      }
    }
    var forGood := EndsForGood(s, err);
    assert i in s'.pool.ended <==> i in s.pool.ended || (forGood && i == index);
    if forGood {
      assert s'.signals == s.signals;
    }
  }

  lemma StuckByContext(s: State, s': State, i: Index)
    requires Inv(s) && Next(s, ContextDone, s') && !Stuck(s, i)
    ensures Stuck(s', i) <==> Awaited(s, i)
  {
    var taken :| Drained(s.pool, s'.pool, taken);
    WholePart(taken, s.pool.running);
    assert i in s.pool.ended + taken <==> i in s.pool.ended || i in taken;
  }

  /** A tunnel becomes stuck exactly when it ends for good, unregistered, while the supervisor waits for its signal. */
  lemma StuckBegins(s: State, e: Event, s': State, i: Index)
    requires Inv(s) && Next(s, e, s') && !Stuck(s, i)
    ensures Stuck(s', i) <==>
              Awaited(s, i) &&
              (e == ContextDone || (e.TunnelEnds? && e.index == i && EndsForGood(s, e.err)))
  {
    if e.ContextDone? {
      StuckByContext(s, s', i);
    } else if e.TunnelEnds? {
      StuckByEnding(s, e.index, e.err, s', i);
    } else {
      NobodyElseGetsStuck(s, e, s', i);
    }
  }

  // Nothing ends for good, and the loop does not shut down or return, unless it is asked to.
  ghost predicate NothingLost(s: State) {
    !Stopping(s) ==> s.pool.ended == multiset{} && !s.shuttingDown && !s.returned
  }

  /**
   In every run, as long as neither a graceful shutdown is requested nor the context cancelled: no tunnel has ended for
   good, so every configured index is running or waiting; everyone in the connecting map is running, so nobody is stuck;
   and Run has not returned.
  */
  lemma {:induction false} NothingLostBeforeStop(haConnections: nat, states: seq<State>, events: seq<Event>, n: nat)
    requires IsRun(haConnections, states, events) && n < |states|
    ensures var s := states[n];
            && NothingLost(s)
            && (!Stopping(s) ==>
                  && s.pool.running + multiset(s.pool.tunnelsWaiting) == Indices(haConnections)
                  && forall i :: i in s.signals.connecting ==> i in s.pool.running && !Stuck(s, i))
  {
    RunKeepsInv(haConnections, states, events, n);
    if n > 0 {
      NothingLostBeforeStop(haConnections, states, events, n - 1);
      assert StepAt(states, events, n - 1);
      NextKeepsNothingLost(states[n - 1], events[n - 1], states[n]);
    }
    var p := states[n].pool;
    if !Stopping(states[n]) {
      assert p.running + multiset(p.tunnelsWaiting) + p.ended == p.running + multiset(p.tunnelsWaiting);
    }
  }

  lemma NextKeepsNothingLost(s: State, e: Event, s': State)
    requires NothingLost(s) && Next(s, e, s')
    ensures NothingLost(s')
    ensures Stopping(s) ==> Stopping(s')
  {
  }

  /**
   Run returns on a tunnel's end exactly when that was the last running one and it ended with nil or during shutdown.
   Whoever is waiting then is never started again.
  */
  lemma ReturnOnTunnelEnd(s: State, index: Index, err: TunnelError, s': State)
    requires s.pool.tunnelsActive == |s.pool.running| && Next(s, TunnelEnds(index, err), s')
    ensures s'.returned <==> s.pool.running == multiset{index} && (err == NoError || s.shuttingDown)
    ensures s'.returned ==> s'.pool.tunnelsWaiting == s.pool.tunnelsWaiting
  {
    TakeOut(s.pool, index);
    var left := s.pool.running - multiset{index};
    assert left == multiset{} <==> s.pool.running == multiset{index} by {
      assert s.pool.running == left + multiset{index};
    }
  }

  /** A run is over once Run has returned. */
  lemma ReturnedIsFinal(haConnections: nat, states: seq<State>, events: seq<Event>, n: nat)
    requires IsRun(haConnections, states, events) && n < |states| && states[n].returned
    ensures n == |events|
  {
    forall i | 0 <= i < |events|
      ensures !states[i].returned
    {
      assert StepAt(states, events, i);
    }
  }

  // By how much the counter exceeds the goroutines there are.
  function Gap(p: Pool): int {
    p.tunnelsActive - |p.running|
  }

  lemma EndKeepsGap(s: State, index: Index, err: TunnelError, s': State)
    requires Next(s, TunnelEnds(index, err), s')
    ensures Gap(s'.pool) == Gap(s.pool)
    ensures s'.returned ==> Gap(s.pool) <= 0
  {
    TakeOut(s.pool, index);
    var left := s.pool.running - multiset{index};
    assert |left + multiset{index}| == |left| + 1;
  }

  lemma DoneKeepsGap(s: State, s': State)
    requires Next(s, ContextDone, s') && s.pool.tunnelsActive >= 0
    ensures Gap(s'.pool) == Gap(s.pool) <= 0
  {
    var taken :| Drained(s.pool, s'.pool, taken);
    WholePart(taken, s.pool.running);
  }

  lemma NextKeepsGap(s: State, e: Event, s': State)
    requires Next(s, e, s') && s.pool.tunnelsActive >= 0
    ensures Gap(s'.pool) == Gap(s.pool)
    ensures s'.returned ==> Gap(s.pool) <= 0
  {
    if e.ContextDone? {
      DoneKeepsGap(s, s');
    } else if e.TunnelEnds? {
      EndKeepsGap(s, e.index, e.err, s');
    } else if e.BackoffExpires? {
      assert |multiset(s.pool.tunnelsWaiting)| == |s.pool.tunnelsWaiting|;
    }
  }

  /**
   A first tunnel that ends with nil before it connects strands the supervisor: from there on the counter stays
   haConnections ahead of the goroutines, so that, whatever happens and even if the context is cancelled, Run never
   returns.
  */
  lemma {:induction false} StrandedByNil(
    haConnections: nat, shutdownRequested: bool, cancelled: bool, states: seq<State>, events: seq<Event>, n: nat)
    requires haConnections >= 1 && |states| == |events| + 1
    requires states[0] == InitializedByNil(haConnections, shutdownRequested, cancelled)
    requires forall i :: 0 <= i < |events| ==> StepAt(states, events, i)
    requires n < |states|
    ensures Gap(states[n].pool) == haConnections && !states[n].returned
  {
    if n > 0 {
      StrandedByNil(haConnections, shutdownRequested, cancelled, states, events, n - 1);
      assert StepAt(states, events, n - 1);
      NextKeepsGap(states[n - 1], events[n - 1], states[n]);
    }
  }

  lemma InitializedTwo()
    ensures Initialized(2) ==
            State(2, Pool(2, [], false, multiset{0, 1}, multiset{}),
                  Signals(map[1 := 0], 1, Some(0), 1, map[1 := 0], {}, {}), false, false, 0, false, false)
  {
    assert LaterIndices(2) == [1];
    assert [1][..0] == [];
    assert NewSignals(NoSignals(), [1]) == NewSignal(NewSignals(NoSignals(), []), 1);
  }

  /** Two tunnels, one failing and the other asked to stop before the timer fires: Run returns with tunnel 0 waiting. */
  lemma ReturnWithWaiting()
    ensures exists states: seq<State>, events: seq<Event> ::
              IsRun(2, states, events) && |events| == 3 && states[3].returned && states[3].pool.tunnelsWaiting == [0]
  {
    InitializedTwo();
    var s0 := Initialized(2);
    var g := s0.signals;
    var events := [TunnelEnds(0, Failure), RequestShutdown, TunnelEnds(1, NoError)];
    assert g.connecting - {0} == g.connecting;
    assert 1 in g.connecting && WaitForNext(g, 0, g);
    assert multiset{0, 1} - multiset{0} == multiset{1};
    var s1 := s0.(pool := Pool(1, [0], true, multiset{1}, multiset{}));
    assert [] + [0] == [0];
    assert Next(s0, events[0], s1);
    var s2 := s1.(shutdownRequested := true);
    var s3 := s2.(pool := Pool(0, [0], true, multiset{}, multiset{1}), returned := true);
    assert Next(s2, events[2], s3);
    var states := [s0, s1, s2, s3];
    assert StepAt(states, events, 0) && StepAt(states, events, 1) && StepAt(states, events, 2);
    assert IsRun(2, states, events);
  }

  lemma InitializedThree()
    ensures Initialized(3) ==
            State(3, Pool(3, [], false, multiset{0, 1, 2}, multiset{}),
                  Signals(map[1 := 0, 2 := 1], 2, Some(1), 2, map[1 := 0, 2 := 1], {}, {}),
                  false, false, 0, false, false)
  {
    assert LaterIndices(3) == [1, 2];
    assert [1, 2][..1] == [1] && [1][..0] == [];
    assert NewSignals(NoSignals(), [1]) == NewSignal(NewSignals(NoSignals(), []), 1);
    assert NewSignals(NoSignals(), [1, 2]) == NewSignal(NewSignals(NoSignals(), [1]), 2);
  }

  /**
   Three tunnels, of which tunnel 1 is asked to stop before it registered: then every tunnel that still runs has
   registered and nobody waits, but the grace period is not set, and by GraceBlockedForGood never will be.
  */
  lemma GraceBlockedWitness()
    ensures exists states: seq<State>, events: seq<Event> ::
              && IsRun(3, states, events) && |events| == 5 && Stuck(states[5], 1)
              && states[5].pool.running == multiset{0, 2} && AllRegistered(states[5])
              && states[5].pool.tunnelsWaiting == [] && states[5].graceSets == 0
  {
    InitializedThree();
    var s0 := Initialized(3);
    var g := s0.signals;
    var s1 := s0.(shutdownRequested := true);
    var s2 := s1.(pool := Pool(2, [], false, multiset{0, 2}, multiset{1}));
    var s3 := s2.(signals := g.(fused := {1}));
    var s4 := s2.(signals := g.(fused := {1}, closed := {1}));
    var left := g.(fused := {1}, closed := {1}, connecting := map[1 := 0], nextIndex := 1, next := Some(0));
    var s5 := s2.(signals := left);
    var states := [s0, s1, s2, s3, s4, s5];
    var events := [RequestShutdown, TunnelEnds(1, NoError), Fuse(2), Notify(1), NextConnected];
    assert StepAt(states, events, 0);
    assert StepAt(states, events, 1) by {
      assert multiset{0, 1, 2} - multiset{1} == multiset{0, 2};
    }
    assert StepAt(states, events, 2) by {
      assert g.connecting[2] == 1;
    }
    assert StepAt(states, events, 3);
    assert StepAt(states, events, 4) by {
      OthersLeft(s4.signals, s5.signals);
    }
    assert IsRun(3, states, events);
  }

  lemma OthersLeft(g: Signals, g': Signals)
    requires g.connecting == map[1 := 0, 2 := 1]
    requires g' == g.(connecting := map[1 := 0], nextIndex := 1, next := Some(0))
    ensures WaitForNext(g, 2, g')
  {
    assert g.connecting - {2} == map[1 := 0];
    assert 1 in g'.connecting;
  }

  /** The supervisor with the variables of its loop; the goroutines and the signals they close are part of it. */
  class EventLoop {
    const haConnections: nat
    var tunnelsActive: int
    var tunnelsWaiting: seq<Index>
    var backoffPending: bool
    var tunnelsConnecting: map<Index, SignalID>
    var nextConnectedIndex: Index
    var nextConnectedSignal: Option<SignalID>
    var shuttingDown: bool
    var returned: bool
    var graceSets: nat
    var shutdownRequested: bool
    var cancelled: bool
    var signalsMade: nat
    var latest: map<Index, SignalID>
    var running: multiset<Index>
    var ended: multiset<Index>
    var fused: set<SignalID>
    var closed: set<SignalID>

    function PoolState(): Pool
      reads this
    {
      Pool(tunnelsActive, tunnelsWaiting, backoffPending, running, ended)
    }

    function SignalState(): Signals
      reads this
    {
      Signals(tunnelsConnecting, nextConnectedIndex, nextConnectedSignal, signalsMade, latest, fused, closed)
    }

    function LoopState(): State
      reads this
    {
      State(haConnections, PoolState(), SignalState(), shuttingDown, returned, graceSets, shutdownRequested, cancelled)
    }

    // initialize: the first tunnel is connected, the others are started one after the other.
    constructor Initialize(haConnections: nat)
      ensures LoopState() == Initialized(haConnections)
    {
      this.haConnections := haConnections;
      tunnelsActive, tunnelsWaiting, backoffPending := haConnections, [], false;
      tunnelsConnecting, nextConnectedIndex, nextConnectedSignal, signalsMade := map[], 0, None, 0;
      shuttingDown, returned, graceSets, shutdownRequested, cancelled := false, false, 0, false, false;
      running, ended, latest, fused, closed := multiset{0}, multiset{}, map[], {}, {};
      new;
      StartEach(LaterIndices(haConnections));
    }

    method NewConnectedTunnelSignal(index: Index)
      modifies this`tunnelsConnecting, this`nextConnectedIndex, this`nextConnectedSignal, this`signalsMade, this`latest
      ensures SignalState() == NewSignal(old(SignalState()), index)
    {
      var sig := signalsMade;
      signalsMade := signalsMade + 1;
      latest := latest[index := sig];
      tunnelsConnecting := tunnelsConnecting[index := sig];
      nextConnectedSignal := Some(sig);
      nextConnectedIndex := index;
    }

    method StartTunnel(index: Index)
      modifies this`tunnelsConnecting, this`nextConnectedIndex, this`nextConnectedSignal
      modifies this`signalsMade, this`latest, this`running
      ensures SignalState() == NewSignal(old(SignalState()), index)
      ensures running == old(running) + multiset{index}
    {
      NewConnectedTunnelSignal(index);
      running := running + multiset{index};
    }

    method WaitForNextTunnel(index: Index) returns (more: bool)
      modifies this`tunnelsConnecting, this`nextConnectedIndex, this`nextConnectedSignal
      ensures WaitForNext(old(SignalState()), index, SignalState())
      ensures more <==> tunnelsConnecting != map[]
    {
      tunnelsConnecting := tunnelsConnecting - {index};
      nextConnectedSignal := None;
      if tunnelsConnecting != map[] {
        var k :| k in tunnelsConnecting;
        nextConnectedIndex := k;
        nextConnectedSignal := Some(tunnelsConnecting[k]);
        return true;
      }
      return false;
    }

    // Some goroutine hands over its error.
    method ReceiveError()
      requires |running| > 0
      modifies this`tunnelsActive, this`running, this`ended
      ensures tunnelsActive == old(tunnelsActive) - 1 && |running| == old(|running|) - 1
      ensures ended + running == old(ended + running)
    {
      var index :| index in running;
      TakeOut(PoolState(), index);
      running, ended := running - multiset{index}, ended + multiset{index};
      tunnelsActive := tunnelsActive - 1;
    }

    // The context is cancelled: wait for every active tunnel.
    method DrainTunnels()
      requires tunnelsActive == |running| && !returned && cancelled
      modifies this`tunnelsActive, this`running, this`ended, this`returned
      ensures Next(old(LoopState()), ContextDone, LoopState())
    {
      while tunnelsActive > 0
        invariant tunnelsActive == |running|
        invariant ended + running == old(ended + running)
        invariant !returned
        decreases tunnelsActive
      {
        ReceiveError();
      }
      assert running == multiset{} && ended + multiset{} == ended;
      returned := true;
      ghost var before := old(PoolState());
      assert before.running - before.running == multiset{};
      assert Drained(before, PoolState(), before.running);
    }

    // A tunnel that failed is put on the waiting list; the timer is started if it is not running.
    method WaitForRetry(index: Index)
      modifies this`tunnelsConnecting, this`nextConnectedIndex, this`nextConnectedSignal
      modifies this`tunnelsWaiting, this`backoffPending
      ensures WaitForNext(old(SignalState()), index, SignalState())
      ensures tunnelsWaiting == old(tunnelsWaiting) + [index] && backoffPending
    {
      tunnelsWaiting := tunnelsWaiting + [index];
      var more := WaitForNextTunnel(index);
      if !backoffPending {
        backoffPending := true;
      }
    }

    method HandleFailure(index: Index, err: TunnelError)
      requires err != NoError
      modifies this
      ensures AfterFailure(old(LoopState()), index, err, LoopState())
    {
      if err == ReconnectSignal {
        StartTunnel(index);
        tunnelsActive := tunnelsActive + 1;
      } else if cancelled {
        ended := ended + multiset{index};
      } else {
        WaitForRetry(index);
      }
    }

    method HandleTunnelError(index: Index, err: TunnelError)
      requires Enabled(LoopState(), TunnelEnds(index, err))
      modifies this
      ensures TunnelEnded(old(LoopState()), index, err, LoopState())
    {
      Depart(index);
      if err != NoError && !shuttingDown {
        HandleFailure(index, err);
      } else {
        ended := ended + multiset{index};
        returned := tunnelsActive == 0;
      }
    }

    method Depart(index: Index)
      modifies this`tunnelsActive, this`running
      ensures LoopState() == old(LoopState()).(pool := Departed(old(PoolState()), index))
    {
      tunnelsActive := tunnelsActive - 1;
      running := running - multiset{index};
    }

    // The loops of initialize and of the backoff case: one tunnel after the other is started.
    method StartEach(indices: seq<Index>)
      modifies this`tunnelsConnecting, this`nextConnectedIndex, this`nextConnectedSignal
      modifies this`signalsMade, this`latest, this`running
      ensures SignalState() == NewSignals(old(SignalState()), indices)
      ensures running == old(running) + multiset(indices)
    {
      assert indices[..0] == [];
      for i := 0 to |indices|
        invariant running == old(running) + multiset(indices[..i])
        invariant SignalState() == NewSignals(old(SignalState()), indices[..i])
      {
        assert indices[..i + 1] == indices[..i] + [indices[i]];
        assert indices[..i + 1][..i] == indices[..i];
        StartTunnel(indices[i]);
      }
      assert indices[..|indices|] == indices;
    }

    method HandleBackoff()
      requires Enabled(LoopState(), BackoffExpires)
      modifies this`tunnelsActive, this`tunnelsWaiting, this`backoffPending, this`running
      modifies this`tunnelsConnecting, this`nextConnectedIndex, this`nextConnectedSignal, this`signalsMade, this`latest
      ensures PoolState() == Restarted(old(PoolState()))
      ensures SignalState() == NewSignals(old(SignalState()), old(tunnelsWaiting))
    {
      backoffPending := false;
      StartEach(tunnelsWaiting);
      tunnelsActive := tunnelsActive + |tunnelsWaiting|;
      tunnelsWaiting := [];
    }

    method HandleConnected()
      requires Enabled(LoopState(), NextConnected)
      modifies this
      ensures Next(old(LoopState()), NextConnected, LoopState())
    {
      var more := WaitForNextTunnel(nextConnectedIndex);
      if !more && |tunnelsWaiting| == 0 {
        graceSets := graceSets + 1;
      }
    }

    // The cases of the select.
    method TakeCase(e: Event)
      requires tunnelsActive == |running| && Enabled(LoopState(), e)
      modifies this
      ensures Next(old(LoopState()), e, LoopState())
    {
      match e {
        case ContextDone => DrainTunnels();
        case TunnelEnds(index, err) => HandleTunnelError(index, err);
        case BackoffExpires =>
          HandleBackoff();
          assert LoopState() == old(LoopState()).(pool := PoolState(), signals := SignalState());
        case NextConnected => HandleConnected();
        case GracefulShutdown => shuttingDown := true;
        case Fuse(index) => fused := fused + {tunnelsConnecting[index]};
        case Notify(signal) => closed := closed + {signal};
        case RequestShutdown => shutdownRequested := true;
        case Cancel => cancelled := true;
      }
    }

    // One turn of the select: the case e is taken if it is ready.
    method Handle(e: Event)
      requires Inv(LoopState()) && Enabled(LoopState(), e)
      modifies this
      ensures Next(old(LoopState()), e, LoopState())
      ensures Inv(LoopState())
    {
      TakeCase(e);
      NextKeepsInv(old(LoopState()), e, LoopState());
    }
  }

  lemma LongerRun(haConnections: nat, states: seq<State>, events: seq<Event>, e: Event, s: State)
    requires IsRun(haConnections, states, events) && Next(states[|events|], e, s)
    ensures IsRun(haConnections, states + [s], events + [e])
  {
    var longer, more := states + [s], events + [e];
    forall j | 0 <= j < |more|
      ensures StepAt(longer, more, j)
    {
      if j < |events| {
        assert StepAt(states, events, j);
      }
    }
  }

  /**
   at[i] events were taken from the first i happenings. Each happening is taken if it is ready in the state it meets and
   passed over if it is not.
  */
  ghost predicate Handled(happenings: seq<Event>, states: seq<State>, events: seq<Event>, at: seq<nat>) {
    && |states| == |events| + 1
    && |at| == |happenings| + 1 && at[0] == 0 && at[|happenings|] == |events|
    && forall i :: 0 <= i < |happenings| ==> HandledAt(happenings, states, events, at, i)
  }

  ghost predicate HandledAt(happenings: seq<Event>, states: seq<State>, events: seq<Event>, at: seq<nat>, i: nat)
    requires i < |happenings| && |states| == |events| + 1 && |at| == |happenings| + 1
  {
    && at[i] <= |events|
    && if Enabled(states[at[i]], happenings[i]) then
         at[i] < |events| && events[at[i]] == happenings[i] && at[i + 1] == at[i] + 1
       else at[i + 1] == at[i]
  }

  lemma HandledTaken(happenings: seq<Event>, states: seq<State>, events: seq<Event>, at: seq<nat>, e: Event, s: State)
    requires Handled(happenings, states, events, at) && Enabled(states[|events|], e)
    ensures Handled(happenings + [e], states + [s], events + [e], at + [|events| + 1])
  {
    var k := |happenings|;
    var happenings', states', events', at' := happenings + [e], states + [s], events + [e], at + [|events| + 1];
    forall i | 0 <= i < k
      ensures HandledAt(happenings', states', events', at', i)
    {
      assert HandledAt(happenings, states, events, at, i);
      assert at'[i] == at[i] && at'[i + 1] == at[i + 1];
    }
    assert at'[k] == |events| && at'[k + 1] == |events| + 1;
    assert HandledAt(happenings', states', events', at', k);
  }

  lemma HandledPassed(happenings: seq<Event>, states: seq<State>, events: seq<Event>, at: seq<nat>, e: Event)
    requires Handled(happenings, states, events, at) && !Enabled(states[|events|], e)
    ensures Handled(happenings + [e], states, events, at + [|events|])
  {
    var k := |happenings|;
    var happenings', at' := happenings + [e], at + [|events|];
    forall i | 0 <= i < k
      ensures HandledAt(happenings', states, events, at', i)
    {
      assert HandledAt(happenings, states, events, at, i);
      assert at'[i] == at[i] && at'[i + 1] == at[i + 1];
    }
    assert HandledAt(happenings', states, events, at', k);
  }

  lemma RunGrows(
    haConnections: nat, happenings: seq<Event>, i: nat, states: seq<State>, events: seq<Event>, at: seq<nat>, s: State)
    requires i < |happenings| && IsRun(haConnections, states, events) && Handled(happenings[..i], states, events, at)
    requires Next(states[|events|], happenings[i], s)
    ensures IsRun(haConnections, states + [s], events + [happenings[i]])
    ensures Handled(happenings[..i + 1], states + [s], events + [happenings[i]], at + [|events| + 1])
  {
    LongerRun(haConnections, states, events, happenings[i], s);
    HandledTaken(happenings[..i], states, events, at, happenings[i], s);
    assert happenings[..i + 1] == happenings[..i] + [happenings[i]];
  }

  lemma RunSkips(happenings: seq<Event>, i: nat, states: seq<State>, events: seq<Event>, at: seq<nat>)
    requires i < |happenings| && Handled(happenings[..i], states, events, at)
    requires !Enabled(states[|events|], happenings[i])
    ensures Handled(happenings[..i + 1], states, events, at + [|events|])
  {
    HandledPassed(happenings[..i], states, events, at, happenings[i]);
    assert happenings[..i + 1] == happenings[..i] + [happenings[i]];
  }

  /**
   The loop under any sequence of happenings, exactly those that are not ready being passed over: what it does is a run,
   so everything said about runs holds of it.
  */
  method Run(haConnections: nat, happenings: seq<Event>)
    returns (loop: EventLoop, ghost states: seq<State>, ghost events: seq<Event>, ghost at: seq<nat>)
    requires haConnections >= 1
    ensures IsRun(haConnections, states, events) && states[|events|] == loop.LoopState()
    ensures Handled(happenings, states, events, at)
    ensures loop.returned ==> loop.running == multiset{}
  {
    loop := new EventLoop.Initialize(haConnections);
    states, events, at := [loop.LoopState()], [], [0];
    for i := 0 to |happenings|
      invariant fresh(loop)
      invariant IsRun(haConnections, states, events) && states[|events|] == loop.LoopState()
      invariant Handled(happenings[..i], states, events, at)
    {
      RunKeepsInv(haConnections, states, events, |events|);
      if Enabled(loop.LoopState(), happenings[i]) {
        loop.Handle(happenings[i]);
        RunGrows(haConnections, happenings, i, states, events, at, loop.LoopState());
        states, events, at := states + [loop.LoopState()], events + [happenings[i]], at + [|events| + 1];
      } else {
        RunSkips(happenings, i, states, events, at);
        at := at + [|events|];
      }
    }
    RunKeepsInv(haConnections, states, events, |events|);
    assert happenings[..|happenings|] == happenings;
  }
}
