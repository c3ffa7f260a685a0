/**
 Which protocol a connection uses next. Each connection has its own protocol, a flag that it is in fallback, and a
 backoff handler; what the shared selector answers is asked at each turn and may change in between.
*/
module ProtocolFallback {
  import Backoff
  import opened Results

  datatype Protocol = HTTP2 | QUIC

  // Only QUIC has a fallback.
  function FallbackOf(p: Protocol): Option<Protocol> {
    match p
    case HTTP2 => None
    case QUIC => Some(HTTP2)
  }

  datatype Selector =
    | StaticSelector(current: Protocol)
    | DefaultSelector(current: Protocol)
    | RemoteSelector(current: Protocol, pool: seq<Protocol>, switchThreshold: int, refreshAfter: int, ttl: int)

  // The percentage of each protocol, or None when fetching fails.
  type Fetched = Option<Protocol -> int>

  // The first protocol of the pool whose percentage is above the threshold, else the first of the pool.
  function GetProtocol(pool: seq<Protocol>, percentages: Protocol -> int, threshold: int): Protocol
    requires pool != []
  {
    if exists i :: 0 <= i < |pool| && percentages(pool[i]) > threshold then FirstAbove(pool, percentages, threshold)
    else pool[0]
  }

  function FirstAbove(pool: seq<Protocol>, percentages: Protocol -> int, threshold: int): Protocol
    requires exists i :: 0 <= i < |pool| && percentages(pool[i]) > threshold
  {
    if percentages(pool[0]) > threshold then pool[0]
    else
      assert forall i :: 0 <= i < |pool| && percentages(pool[i]) > threshold ==> i > 0 && pool[i] == pool[1..][i - 1];
      FirstAbove(pool[1..], percentages, threshold)
  }

  ghost predicate ValidSelector(s: Selector) {
    s.RemoteSelector? ==> s.pool != []
  }

  /** The protocol picked is above the threshold with none before it above, or none is and it is the first. */
  lemma {:induction false} GetProtocolExactly(pool: seq<Protocol>, percentages: Protocol -> int, threshold: int)
    requires pool != []
    ensures var p := GetProtocol(pool, percentages, threshold);
            || (exists k :: 0 <= k < |pool| && IsFirstAbove(pool, percentages, threshold, k) && p == pool[k])
            || ((forall i :: 0 <= i < |pool| ==> percentages(pool[i]) <= threshold) && p == pool[0])
  {
    if percentages(pool[0]) > threshold {
      assert IsFirstAbove(pool, percentages, threshold, 0);
    } else if exists i :: 0 <= i < |pool| && percentages(pool[i]) > threshold {
      var i :| 0 <= i < |pool| && percentages(pool[i]) > threshold;
      assert pool[1..][i - 1] == pool[i];
      GetProtocolExactly(pool[1..], percentages, threshold);
      var k :| 0 <= k < |pool| - 1 && IsFirstAbove(pool[1..], percentages, threshold, k)
        && GetProtocol(pool[1..], percentages, threshold) == pool[1..][k];
      forall j | 0 <= j < k + 1
        ensures percentages(pool[j]) <= threshold
      {
        assert j > 0 ==> pool[j] == pool[1..][j - 1];
      }
      assert IsFirstAbove(pool, percentages, threshold, k + 1);
    }
  }

  predicate IsFirstAbove(pool: seq<Protocol>, percentages: Protocol -> int, threshold: int, k: int)
    requires 0 <= k < |pool|
  {
    percentages(pool[k]) > threshold && forall j :: 0 <= j < k ==> percentages(pool[j]) <= threshold
  }

  /** Current: the remote selector refreshes itself once its answer is too old; answered is when the fetch is back. */
  function Current(s: Selector, now: int, fetched: Fetched, answered: int): (Selector, Protocol)
    requires ValidSelector(s)
  {
    match s
    case RemoteSelector(current, pool, threshold, refreshAfter, ttl) =>
      if now < refreshAfter || fetched.None? then (s, current)
      else
        var p := GetProtocol(pool, fetched.value, threshold);
        (s.(current := p, refreshAfter := answered + ttl), p)
    case _ => (s, s.current)
  }

  // One call of Current: when it is made, what fetching would give, and when that is back.
  datatype Call = Call(now: int, fetched: Fetched, answered: int)

  function AfterCalls(s: Selector, calls: seq<Call>): (s': Selector)
    requires ValidSelector(s)
    ensures ValidSelector(s')
  {
    if calls == [] then s
    else
      var c := calls[|calls| - 1];
      Current(AfterCalls(s, calls[..|calls| - 1]), c.now, c.fetched, c.answered).0
  }

  /**
   How a remote selector answers: as long as every call is made before its deadline or fails to fetch, it answers what
   it started with; the first call from the deadline on that fetches gives the first protocol above the threshold, or
   the first of the pool, and from when that is back a new deadline runs for the same time to live.
  */
  lemma {:induction false} RemoteExactly(
    current: Protocol, pool: seq<Protocol>, threshold: int, deadline: int, ttl: int, calls: seq<Call>, c: Call)
    requires pool != [] && forall x :: x in calls ==> x.now < deadline || x.fetched.None?
    ensures var s := RemoteSelector(current, pool, threshold, deadline, ttl);
            var (s', answer) := Current(AfterCalls(s, calls), c.now, c.fetched, c.answered);
            if c.now < deadline || c.fetched.None? then answer == current && s' == s
            else
              && s' == RemoteSelector(answer, pool, threshold, c.answered + ttl, ttl)
              && ((exists k :: 0 <= k < |pool| && IsFirstAbove(pool, c.fetched.value, threshold, k) &&
                               answer == pool[k]) ||
                  ((forall i :: 0 <= i < |pool| ==> c.fetched.value(pool[i]) <= threshold) && answer == pool[0]))
  {
    var s := RemoteSelector(current, pool, threshold, deadline, ttl);
    CallsChangeNothing(s, calls);
    if c.now >= deadline && c.fetched.Some? {
      GetProtocolExactly(pool, c.fetched.value, threshold);
    }
  }

  lemma {:induction false} CallsChangeNothing(s: Selector, calls: seq<Call>)
    requires s.RemoteSelector? && s.pool != [] && forall x :: x in calls ==> x.now < s.refreshAfter || x.fetched.None?
    ensures AfterCalls(s, calls) == s
  {
    if calls != [] {
      var k := |calls| - 1;
      assert forall x :: x in calls[..k] ==> x in calls;
      CallsChangeNothing(s, calls[..k]);
      assert calls[k] in calls;
    }
  }

  /** Fallback: a static selector has none. */
  function Fallback(s: Selector): Option<Protocol> {
    if s.StaticSelector? then None else FallbackOf(s.current)
  }

  // protocolFallback.
  datatype Connection = Connection(backoff: Backoff.Handler, protocol: Protocol, inFallback: bool)

  // What the selector answers during one selection: it is asked for a fallback twice, then for the current protocol.
  datatype Answers = Answers(first: Option<Protocol>, second: Option<Protocol>, current: Protocol)

  // The shared selector as one selection finds it at its three questions: other connections may refresh it in between.
  datatype Asked = Asked(first: Selector, second: Selector, third: Selector, now: int, fetched: Fetched, answered: int)

  // Static and default selectors never change; a remote one changes its current protocol and its deadline only.
  ghost predicate Evolves(s: Selector, s': Selector) {
    if s.RemoteSelector? then
      s'.RemoteSelector? && s' == s.(current := s'.current, refreshAfter := s'.refreshAfter)
    else s' == s
  }

  ghost predicate AnswersOf(q: Asked, a: Answers) {
    && ValidSelector(q.first) && Evolves(q.first, q.second) && Evolves(q.second, q.third)
    && a.first == Fallback(q.first) && a.second == Fallback(q.second)
    && a.current == Current(q.third, q.now, q.fetched, q.answered).1
  }

  function SelectNextProtocol(c: Connection, a: Answers, quicBroken: bool, now: int): (Connection, bool) {
    if Backoff.ReachedMaxRetries(c.backoff) || (a.first.Some? && quicBroken) then
      if a.second.None? then (c, false)
      else if c.protocol == a.second.value then (c, false)
      else (Connection(Backoff.ResetNow(c.backoff, now), a.second.value, true), true)
    else if !c.inFallback then (c.(protocol := a.current), true)
    else (c, true)
  }

  // Connected: the tunnel registered with the edge.
  function Connected(c: Connection, now: int): Connection {
    c.(backoff := Backoff.ResetNow(c.backoff, now), inFallback := false)
  }

  // How the select at the end of Serve comes out; its timer is made in any case.
  datatype Waiting = ContextCancelled | GracefulShutdown | TimerFired

  // What Serve learns on its way to the end.
  datatype Ending = Ending(
    recoverable: bool,
    rotate: bool, connectivity: Option<bool>, rotated: bool,
    contextDone: bool, waiting: Waiting, connectedWithCurrent: bool,
    answers: Answers, quicBroken: bool)

  // The protocol is reconsidered when the (possibly overridden) verdict on the error asks for it and no connection has
  // succeeded with the current protocol.
  predicate Reconsiders(e: Ending) {
    && (e.rotate ==> e.rotated)
    && !e.contextDone && e.waiting == TimerFired
    && (if e.rotate && e.connectivity.Some? then e.connectivity.value else e.recoverable)
    && !e.connectedWithCurrent
  }

  // The tail of Serve, after the tunnel came back with an error.
  function ServeTail(c: Connection, e: Ending, now: int, random: nat): Connection {
    if e.rotate && !e.rotated then c
    else if Backoff.MaxBackoffDuration(c.backoff, now, e.contextDone).None? then c
    else
      var c' := c.(backoff := Backoff.Timer(c.backoff, now, random).0);
      if Reconsiders(e) then SelectNextProtocol(c', e.answers, e.quicBroken, now).0 else c'
  }

  datatype Event =
    | Selected(asked: Asked, answers: Answers, quicBroken: bool, now: int)
    | Registered(now: int)
    | Ended(asked: Asked, ending: Ending, now: int, random: nat)

  function Step(c: Connection, e: Event): Connection {
    match e
    case Selected(_, answers, quicBroken, now) => SelectNextProtocol(c, answers, quicBroken, now).0
    case Registered(now) => Connected(c, now)
    case Ended(_, ending, now, random) => ServeTail(c, ending, now, random)
  }

  ghost predicate Genuine(e: Event) {
    match e
    case Selected(asked, answers, _, _) => AnswersOf(asked, answers)
    case Registered(_) => true
    case Ended(asked, ending, _, _) => AnswersOf(asked, ending.answers)
  }

  function Run(c: Connection, events: seq<Event>): Connection {
    if events == [] then c else Step(Run(c, events[..|events| - 1]), events[|events| - 1])
  }

  function NewConnection(maxRetries: nat, protocol: Protocol): Connection {
    Connection(Backoff.NewBackoff(maxRetries, Backoff.SECOND, true), protocol, false)
  }

  /** A connection in fallback uses HTTP2, after any run, whatever the selectors answered on the way. */
  lemma {:induction false} FallbackIsHTTP2(maxRetries: nat, protocol: Protocol, events: seq<Event>)
    requires forall e :: e in events ==> Genuine(e)
    ensures var c := Run(NewConnection(maxRetries, protocol), events); c.inFallback ==> c.protocol == HTTP2
  {
    if events != [] {
      var k := |events| - 1;
      assert events[k] in events;
      FallbackIsHTTP2(maxRetries, protocol, events[..k]);
    }
  }

  /** From any point in fallback on, the connection stays on HTTP2 and in fallback until it registers. */
  lemma {:induction false} FallbackSticks(c: Connection, events: seq<Event>)
    requires c.inFallback && c.protocol == HTTP2
    requires forall e :: e in events ==> Genuine(e) && !e.Registered?
    ensures Run(c, events).inFallback && Run(c, events).protocol == HTTP2
  {
    if events != [] {
      var k := |events| - 1;
      assert events[k] in events;
      FallbackSticks(c, events[..k]);
    }
  }

  /**
   Under a static selector no connection ever changes its protocol or goes into fallback; nor does it under a default
   selector for HTTP2.
  */
  lemma {:induction false} StaticNeverChanges(maxRetries: nat, s: Selector, events: seq<Event>)
    requires s.StaticSelector? || (s.DefaultSelector? && s.current == HTTP2)
    requires forall e :: e in events ==> Genuine(e) && (!e.Registered? ==> e.asked.first == s)
    ensures var c := Run(NewConnection(maxRetries, s.current), events); c.protocol == s.current && !c.inFallback
  {
    if events != [] {
      var k := |events| - 1;
      assert events[k] in events;
      StaticNeverChanges(maxRetries, s, events[..k]);
    }
  }

  /**
   A default selector for QUIC lets a connection onto HTTP2 only through a fallback. Wherever a run has led, a
   connection that registers and whose tunnel then ends with an error asking for another protocol, QUIC not being
   broken, is on QUIC afterwards exactly if two retries are allowed: with fewer, the timer drawn before the selection
   has used them up.
  */
  lemma DefaultComesBack(maxRetries: nat, events: seq<Event>, e: Ending, at: int, now: int, random: nat)
    requires forall e :: e in events ==> Genuine(e) && (!e.Registered? ==> e.asked.first == DefaultSelector(QUIC))
    requires Reconsiders(e) && !e.quicBroken && e.answers == Answers(Some(HTTP2), Some(HTTP2), QUIC)
    ensures var c := Run(NewConnection(maxRetries, QUIC), events);
            && (c.protocol == HTTP2 ==> c.inFallback || exists e :: e in events && e.Registered?)
            && (ServeTail(Connected(c, at), e, now, random).protocol == QUIC <==> maxRetries >= 2)
  {
    DefaultRun(maxRetries, events);
  }

  lemma {:induction false} DefaultRun(maxRetries: nat, events: seq<Event>)
    requires forall e :: e in events ==> Genuine(e) && (!e.Registered? ==> e.asked.first == DefaultSelector(QUIC))
    ensures var c := Run(NewConnection(maxRetries, QUIC), events);
            && c.backoff.maxRetries == maxRetries && c.backoff.retryForever
            && (c.protocol == HTTP2 ==> c.inFallback || exists e :: e in events && e.Registered?)
  {
    if events != [] {
      var k := |events| - 1;
      assert events[k] in events;
      assert forall e :: e in events[..k] ==> e in events;
      DefaultRun(maxRetries, events[..k]);
    }
  }

  // The selection an event makes: the connection as it meets it, what the selector answers, and whether QUIC is broken.
  function SelectionOf(c: Connection, e: Event): Option<(Connection, Answers, bool)> {
    match e
    case Registered(_) => None
    case Selected(_, answers, quicBroken, _) => Some((c, answers, quicBroken))
    case Ended(_, ending, now, random) =>
      if Reconsiders(ending) then
        Some((c.(backoff := Backoff.Timer(c.backoff, now, random).0), ending.answers, ending.quicBroken))
      else None
  }

  predicate CallsForFallback(c: Connection, a: Answers, quicBroken: bool) {
    Backoff.ReachedMaxRetries(c.backoff) || (a.first.Some? && quicBroken)
  }

  /**
   Every change of protocol in every run has one of two reasons. Either a selection called for the selector's fallback,
   and the connection went from QUIC to HTTP2 and into fallback; or one outside fallback called for none, and the
   connection follows what the selector answers. Without a selection nothing changes.
  */
  lemma EveryChangeHasReason(maxRetries: nat, protocol: Protocol, events: seq<Event>, k: nat)
    requires (forall e :: e in events ==> Genuine(e)) && k < |events|
    ensures var start := NewConnection(maxRetries, protocol);
            var c, c' := Run(start, events[..k]), Run(start, events[..k + 1]);
            c'.protocol != c.protocol ==>
              && SelectionOf(c, events[k]).Some?
              && var (met, a, quicBroken) := SelectionOf(c, events[k]).value;
                 if CallsForFallback(met, a, quicBroken) then
                   c.protocol == QUIC && c'.protocol == HTTP2 && c'.inFallback && a.second == Some(HTTP2)
                 else !c.inFallback && !c'.inFallback && c'.protocol == a.current
  {
    var e := events[k];
    var c := Run(NewConnection(maxRetries, protocol), events[..k]);
    assert events[..k + 1][..k] == events[..k] && e in events;
    if SelectionOf(c, e).Some? {
      var (met, a, quicBroken) := SelectionOf(c, e).value;
      SelectionExactly(met, a, quicBroken, e.now);
    }
    if e.Ended? {
      RetriesForever(maxRetries, protocol, events[..k]);
      ServeChangesProtocolOnly(c, e.ending, e.now, e.random);
    }
  }

  lemma {:induction false} RetriesForever(maxRetries: nat, protocol: Protocol, events: seq<Event>)
    ensures Run(NewConnection(maxRetries, protocol), events).backoff.retryForever
  {
    if events != [] {
      RetriesForever(maxRetries, protocol, events[..|events| - 1]);
    }
  }

  /**
   Exactly when a selection gives up, and exactly when it falls back. It gives up when a fallback is called for and
   there is none other than the protocol in use; it falls back when one is called for and there is.
  */
  lemma SelectionExactly(c: Connection, a: Answers, quicBroken: bool, now: int)
    requires (a.first.Some? ==> a.first.value == HTTP2) && (a.second.Some? ==> a.second.value == HTTP2)
    ensures var (c', ok) := SelectNextProtocol(c, a, quicBroken, now);
            var calledFor := CallsForFallback(c, a, quicBroken);
            && (!ok <==> calledFor && (a.second.None? || c.protocol == HTTP2))
            && (!ok ==> c' == c)
            && (c'.inFallback && c'.protocol != c.protocol <==> calledFor && a.second.Some? && c.protocol == QUIC)
            && (calledFor && a.second.Some? && c.protocol == QUIC ==>
                  c' == Connection(c'.backoff, HTTP2, true) && c'.backoff.retries == 0)
            && (!calledFor && !c.inFallback ==> c' == c.(protocol := a.current))
            && (!calledFor && c.inFallback ==> c' == c)
  {
  }

  /** Serve leaves the protocol alone unless the error asked for another and nobody connected with the current one. */
  lemma ServeChangesProtocolOnly(c: Connection, e: Ending, now: int, random: nat)
    requires c.backoff.retryForever
    ensures ServeTail(c, e, now, random).protocol != c.protocol ==> Reconsiders(e)
    ensures Reconsiders(e) ==>
              ServeTail(c, e, now, random) ==
              SelectNextProtocol(c.(backoff := Backoff.Timer(c.backoff, now, random).0), e.answers, e.quicBroken, now).0
    ensures !Reconsiders(e) && (e.rotate ==> e.rotated) && !e.contextDone ==>
              ServeTail(c, e, now, random) == c.(backoff := Backoff.Timer(c.backoff, now, random).0)
  {
  }

  /**
   What it takes for the end of a tunnel to cost the protocol: a connection on QUIC whose selector offers HTTP2 falls
   back when QUIC is broken exactly if a new address, if it took one, was to be had, the timer fired before it was
   stopped, the verdict on the error, which a connectivity error overrides, asks for it, and no connection has been made
   with the selector's protocol. A registration ends a fallback and forgets the retries, and nothing else.
  */
  lemma ServeFallsBackExactly(c: Connection, e: Ending, now: int, random: nat, at: int)
    requires c.protocol == QUIC && c.backoff.retryForever && e.quicBroken
    requires e.answers.first == Some(HTTP2) && e.answers.second == Some(HTTP2)
    ensures ServeTail(c, e, now, random).protocol == HTTP2 <==>
              && !(e.rotate && !e.rotated)
              && !e.contextDone && e.waiting != ContextCancelled && e.waiting != GracefulShutdown
              && (if e.rotate && e.connectivity == Some(true) then true
                  else if e.rotate && e.connectivity == Some(false) then false else e.recoverable)
              && !e.connectedWithCurrent
    ensures Connected(c, at) == Connection(Connected(c, at).backoff, c.protocol, false)
    ensures Connected(c, at).backoff.retries == 0
  {
  }

  /** The connection of one tunnel, changed in place. */
  class TunnelConnection {
    const handler: Backoff.BackoffHandler
    var protocol: Protocol
    var inFallback: bool

    constructor (maxRetries: nat, protocol: Protocol)
      ensures fresh(handler) && State() == NewConnection(maxRetries, protocol)
    {
      handler := new Backoff.BackoffHandler(maxRetries, Backoff.SECOND, true);
      this.protocol, inFallback := protocol, false;
    }

    function State(): Connection
      reads this, handler
    {
      Connection(handler.State(), protocol, inFallback)
    }

    method OnConnected(now: int)
      modifies this, handler
      ensures State() == Connected(old(State()), now)
    {
      handler.Reset(now);
      inFallback := false;
    }

    method Select(a: Answers, quicBroken: bool, now: int) returns (ok: bool)
      modifies this, handler
      ensures (State(), ok) == SelectNextProtocol(old(State()), a, quicBroken, now)
    {
      if handler.retries == handler.maxRetries || (a.first.Some? && quicBroken) {
        if a.second.None? {
          return false;
        }
        if protocol == a.second.value {
          return false;
        }
        handler.Reset(now);
        protocol := a.second.value;
        inFallback := true;
      } else if !inFallback {
        if protocol != a.current {
          protocol := a.current;
        }
      }
      return true;
    }
  }

  /** The remote selector, changed in place by whoever asks it. */
  class RemoteProtocolSelector {
    var current: Protocol
    const protocolPool: seq<Protocol>
    const switchThreshold: int
    var refreshAfter: int
    const ttl: int

    constructor (current: Protocol, protocolPool: seq<Protocol>, switchThreshold: int, ttl: int, now: int)
      ensures State() == RemoteSelector(current, protocolPool, switchThreshold, now + ttl, ttl)
    {
      this.current, this.protocolPool, this.switchThreshold := current, protocolPool, switchThreshold;
      this.ttl, refreshAfter := ttl, now + ttl;
    }

    function State(): Selector
      reads this
    {
      RemoteSelector(current, protocolPool, switchThreshold, refreshAfter, ttl)
    }

    method CurrentProtocol(now: int, fetched: Fetched, answered: int) returns (protocol: Protocol)
      requires protocolPool != []
      modifies this
      ensures (State(), protocol) == Current(old(State()), now, fetched, answered)
    {
      if now < refreshAfter {
        return current;
      }
      match fetched {
        case None =>
          return current;
        case Some(percentages) =>
          protocol := PickProtocol(protocolPool, percentages, switchThreshold);
          current := protocol;
          refreshAfter := answered + ttl;
      }
    }
  }

  /** getProtocol's loop over the pool. */
  method PickProtocol(pool: seq<Protocol>, percentages: Protocol -> int, threshold: int) returns (p: Protocol)
    requires pool != []
    ensures p == GetProtocol(pool, percentages, threshold)
  {
    for i := 0 to |pool|
      invariant forall j :: 0 <= j < i ==> percentages(pool[j]) <= threshold
    {
      if percentages(pool[i]) > threshold {
        FirstAboveIs(pool, percentages, threshold, i);
        return pool[i];
      }
    }
    return pool[0];
  }

  lemma {:induction false} FirstAboveIs(pool: seq<Protocol>, percentages: Protocol -> int, threshold: int, k: nat)
    requires k < |pool| && IsFirstAbove(pool, percentages, threshold, k)
    ensures GetProtocol(pool, percentages, threshold) == pool[k]
  {
    if k > 0 {
      assert pool[1..][k - 1] == pool[k];
      assert forall j :: 0 <= j < k - 1 ==> pool[1..][j] == pool[j + 1];
      FirstAboveIs(pool[1..], percentages, threshold, k - 1);
    }
  }
}
