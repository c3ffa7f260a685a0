/**
 The ICMP proxy: the echo-ID allocator and the funnel registry working together. A request gets an ID, finds or
 creates the funnel under that ID and goes out with it; closing a funnel releases the ID; a reply finds its way back
 by the ID alone. Requests are taken as atomic steps.
*/
module IcmpProxy {
  import opened EchoIds
  import Funnels
  import opened Results

  // A QUIC connection: the index of its tunnel, and its muxer, of which each reconnection makes a new one.
  datatype Conn = Conn(index: nat, muxer: nat)

  // One flow; conn is the connection of the first request. closeKey is what its close callback releases.
  datatype EchoFlow = EchoFlow(
    src: Addr, closeKey: Flow3Tuple, conn: Conn, assignedEchoID: nat, originalEchoID: int, lastActive: int)

  datatype Proxy = Proxy(ids: Tracker, funnels: map<Funnels.FunnelID, EchoFlow>)

  // The cleanup closes the idle funnels one after the other; here it may close any funnels, in any order.
  datatype Event =
    | Request(key: Flow3Tuple, conn: Conn, now: int)
    | Reply(id: nat, now: int)
    | IdleCleanup(idle: seq<Funnels.FunnelID>)

  // Where a reply goes, over which connection and with which echo ID.
  datatype Returned = Returned(conn: Conn, dst: Addr, echoID: int)

  ghost predicate WellFormed(p: Proxy) {
    Inv(p.ids)
  }

  // The registry is meant to ask whether the funnel belongs to another QUIC connection than the request. It compares
  // the indices only.
  predicate ShouldReplace(p: Proxy, id: nat, conn: Conn) {
    id in p.funnels && p.funnels[id].conn.index != conn.index
  }

  // The request's steps; the second result is the ID the packet goes out with.
  function DoRequest(p: Proxy, key: Flow3Tuple, conn: Conn, now: int): (Proxy, Option<nat>)
    requires WellFormed(p)
  {
    GetOrAssignExactly(p.ids, key);
    var (ids, assignedID) := GetOrAssign(p.ids, key);
    match assignedID
    case None => (p.(ids := ids), None)
    case Some(id) =>
      var flow := EchoFlow(key.srcIP, key, conn, id, key.originalEchoID, now);
      var r := Funnels.GetOrRegister(p.funnels, id, ShouldReplace(p, id, conn), Some(flow));
      var ids' :=
        if r.closed.Some? then Release(ids, r.closed.value.closeKey, r.closed.value.assignedEchoID).0 else ids;
      var f := r.funnel.value;
      (Proxy(ids', r.funnels[id := f.(lastActive := now)]), Some(f.assignedEchoID))
  }

  function DoReply(p: Proxy, id: nat, now: int): (Proxy, Option<Returned>) {
    if id !in p.funnels then (p, None)
    else
      var f := p.funnels[id];
      (p.(funnels := p.funnels[id := f.(lastActive := now)]), Some(Returned(f.conn, f.src, f.originalEchoID)))
  }

  function CloseOne(p: Proxy, id: Funnels.FunnelID): Proxy
    requires WellFormed(p)
  {
    if id !in p.funnels then p
    else
      var f := p.funnels[id];
      Proxy(Release(p.ids, f.closeKey, f.assignedEchoID).0, p.funnels - {id})
  }

  function CloseAll(p: Proxy, ids: seq<Funnels.FunnelID>): Proxy
    requires WellFormed(p)
    ensures WellFormed(CloseAll(p, ids))
    decreases |ids|
  {
    if ids == [] then p
    else
      CloseOneKeepsIds(p, ids[0]);
      CloseAll(CloseOne(p, ids[0]), ids[1..])
  }

  lemma CloseOneKeepsIds(p: Proxy, id: Funnels.FunnelID)
    requires WellFormed(p)
    ensures WellFormed(CloseOne(p, id))
  {
    if id in p.funnels {
      ReleaseExactly(p.ids, p.funnels[id].closeKey, p.funnels[id].assignedEchoID);
    }
  }

  function Step(p: Proxy, e: Event): Proxy
    requires WellFormed(p)
  {
    match e
    case Request(key, conn, now) => DoRequest(p, key, conn, now).0
    case Reply(id, now) => DoReply(p, id, now).0
    case IdleCleanup(idle) => CloseAll(p, idle)
  }

  // The step is a request that replaces a funnel of another connection.
  predicate Replaces(p: Proxy, e: Event)
    requires |p.ids.assignment| == MAX_UINT16 && p.ids.nextAssignment <= MAX_UINT16
  {
    e.Request? &&
    var r := GetOrAssign(p.ids, e.key).1;
    r.Some? && ShouldReplace(p, r.value, e.conn)
  }

  /** A tracked flow's ID is the one its own key holds, and every held ID has its flow. */
  ghost predicate Own(p: Proxy) {
    && WellFormed(p)
    && (forall id :: id in p.funnels ==>
          var f := p.funnels[id];
          && f.assignedEchoID == id
          && f.closeKey in p.ids.mapping && p.ids.mapping[f.closeKey] == id
          && f.src == f.closeKey.srcIP && f.originalEchoID == f.closeKey.originalEchoID)
    && (forall key :: key in p.ids.mapping ==> p.ids.mapping[key] in p.funnels)
  }

  lemma StepKeepsIds(p: Proxy, e: Event)
    requires WellFormed(p)
    ensures WellFormed(Step(p, e))
  {
    if e.Request? {
      GetOrAssignExactly(p.ids, e.key);
      var (ids, r) := GetOrAssign(p.ids, e.key);
      if r.Some? && ShouldReplace(p, r.value, e.conn) {
        ReleaseExactly(ids, p.funnels[r.value].closeKey, p.funnels[r.value].assignedEchoID);
      }
    }
  }

  lemma CloseOneKeepsOwn(p: Proxy, id: Funnels.FunnelID)
    requires Own(p)
    ensures Own(CloseOne(p, id))
  {
    CloseOneKeepsIds(p, id);
    if id in p.funnels {
      ReleaseExactly(p.ids, p.funnels[id].closeKey, id);
    }
  }

  lemma {:induction false} CloseAllKeepsOwn(p: Proxy, ids: seq<Funnels.FunnelID>)
    requires Own(p)
    ensures Own(CloseAll(p, ids))
    decreases |ids|
  {
    if ids != [] {
      CloseOneKeepsOwn(p, ids[0]);
      CloseAllKeepsOwn(CloseOne(p, ids[0]), ids[1..]);
    }
  }

  // In an owned state the flow under a request's ID, if any, is the request's own.
  lemma OwnFlow(p: Proxy, key: Flow3Tuple)
    requires Own(p) && GetOrAssign(p.ids, key).1.Some?
    ensures var id := GetOrAssign(p.ids, key).1.value;
            && (id in p.funnels <==> key in p.ids.mapping)
            && (id in p.funnels ==> p.funnels[id].closeKey == key)
  {
    GetOrAssignExactly(p.ids, key);
    var id := GetOrAssign(p.ids, key).1.value;
    if id in p.funnels {
      assert Held(p.ids.mapping, id);
    }
  }

  // A request under an existing flow of its own connection only touches the flow's activity time.
  lemma KnownRequest(p: Proxy, key: Flow3Tuple, conn: Conn, now: int)
    requires Own(p) && key in p.ids.mapping && !Replaces(p, Request(key, conn, now))
    ensures Own(Step(p, Request(key, conn, now)))
  {
    OwnFlow(p, key);
    var id := p.ids.mapping[key];
    var p' := Step(p, Request(key, conn, now));
    assert p' == p.(funnels := p.funnels[id := p.funnels[id].(lastActive := now)]);
  }

  lemma FreshRequest(p: Proxy, key: Flow3Tuple, conn: Conn, now: int)
    requires Own(p) && key !in p.ids.mapping
    ensures Own(Step(p, Request(key, conn, now)))
    ensures !Replaces(p, Request(key, conn, now))
  {
    GetOrAssignExactly(p.ids, key);
    var (ids, r) := GetOrAssign(p.ids, key);
    var p' := Step(p, Request(key, conn, now));
    if r.Some? {
      OwnFlow(p, key);
      var id := r.value;
      var f := EchoFlow(key.srcIP, key, conn, id, key.originalEchoID, now);
      assert p'.ids == ids && p'.funnels == p.funnels[id := f];
      assert ids.mapping == p.ids.mapping[key := id];
    }
  }

  /** Ownership survives a step exactly when the step does not replace a funnel. */
  lemma OwnExactly(p: Proxy, e: Event)
    requires Own(p)
    ensures Own(Step(p, e)) <==> !Replaces(p, e)
  {
    StepKeepsIds(p, e);
    match e
    case Reply(id, now) =>
      var p' := Step(p, e);
      assert p'.ids == p.ids && p'.funnels.Keys == p.funnels.Keys;
    case IdleCleanup(idle) =>
      CloseAllKeepsOwn(p, idle);
    case Request(key, conn, now) =>
      if Replaces(p, e) {
        ReplacementFreesID(p, key, conn, now);
      } else if key in p.ids.mapping {
        KnownRequest(p, key, conn, now);
      } else {
        FreshRequest(p, key, conn, now);
      }
  }

  /** After a replacement the new flow is tracked under an ID that its key no longer holds and that anyone may get. */
  lemma ReplacementFreesID(p: Proxy, key: Flow3Tuple, conn: Conn, now: int)
    requires Own(p) && Replaces(p, Request(key, conn, now))
    ensures var id, p' := GetOrAssign(p.ids, key).1.value, Step(p, Request(key, conn, now));
            && id in p'.funnels && p'.funnels[id].closeKey == key
            && key !in p'.ids.mapping && !Held(p'.ids.mapping, id)
  {
    OwnFlow(p, key);
    GetOrAssignExactly(p.ids, key);
    var (ids, r) := GetOrAssign(p.ids, key);
    ReleaseExactly(ids, key, r.value);
  }

  function Run(p: Proxy, events: seq<Event>): (p': Proxy)
    requires WellFormed(p)
    ensures WellFormed(p')
    decreases |events|
  {
    if events == [] then p
    else
      StepKeepsIds(p, events[0]);
      Run(Step(p, events[0]), events[1..])
  }

  ghost predicate NoReplacement(p: Proxy, events: seq<Event>)
    requires WellFormed(p)
    decreases |events|
  {
    events != [] ==>
      && !Replaces(p, events[0])
      && (StepKeepsIds(p, events[0]);
          NoReplacement(Step(p, events[0]), events[1..]))
  }

  ghost predicate OwnThroughout(p: Proxy, events: seq<Event>)
    requires WellFormed(p)
    decreases |events|
  {
    && Own(p)
    && (events != [] ==>
          (StepKeepsIds(p, events[0]);
           OwnThroughout(Step(p, events[0]), events[1..])))
  }

  function Start(): (p: Proxy)
    ensures WellFormed(p)
  {
    EmptyInv();
    Proxy(EchoIds.Empty(), map[])
  }

  lemma {:induction false} RunKeepsOwn(p: Proxy, events: seq<Event>)
    requires Own(p)
    ensures OwnThroughout(p, events) <==> NoReplacement(p, events)
    ensures NoReplacement(p, events) ==> Own(Run(p, events))
    decreases |events|
  {
    if events != [] {
      OwnExactly(p, events[0]);
      if Own(Step(p, events[0])) {
        RunKeepsOwn(Step(p, events[0]), events[1..]);
      } else {
        StepKeepsIds(p, events[0]);
      }
    }
  }

  /**
   Every run from the empty proxy is owned throughout exactly when it never replaces a funnel. At its end, then, a reply
   under any held ID goes to the source of the key that holds it, with that key's echo ID; under any other ID it is
   dropped; and there are as many held IDs as flows, so none is leaked.
  */
  lemma RepliesFindTheirRequester(events: seq<Event>, key: Flow3Tuple, now: int)
    ensures OwnThroughout(Start(), events) <==> NoReplacement(Start(), events)
    ensures NoReplacement(Start(), events) ==>
              var p := Run(Start(), events);
              && (key in p.ids.mapping ==>
                    var id := p.ids.mapping[key];
                    && id in p.funnels
                    && DoReply(p, id, now).1 == Some(Returned(p.funnels[id].conn, key.srcIP, key.originalEchoID)))
              && (forall id :: !Held(p.ids.mapping, id) ==> DoReply(p, id, now).1 == None)
              && |p.ids.mapping| == |p.funnels|
  {
    EmptyInv();
    assert Own(Start());
    RunKeepsOwn(Start(), events);
    if NoReplacement(Start(), events) {
      var p := Run(Start(), events);
      if key in p.ids.mapping {
        var f := p.funnels[p.ids.mapping[key]];
        assert p.ids.mapping[f.closeKey] == p.ids.mapping[key];
      }
      forall id | id in p.funnels
        ensures Held(p.ids.mapping, id)
      {
        assert p.ids.mapping[p.funnels[id].closeKey] == id;
      }
      NoLeak(p);
    }
  }

  lemma NoLeak(p: Proxy)
    requires Own(p)
    ensures |p.ids.mapping| == |p.funnels|
  {
    forall id
      ensures id in p.ids.mapping.Values <==> id in p.funnels.Keys
    {
      if id in p.funnels {
        assert p.ids.mapping[p.funnels[id].closeKey] == id;
      }
    }
    assert p.ids.mapping.Values == p.funnels.Keys;
    InjectiveSize(p.ids.mapping);
  }

  /** A flow is tracked under the ID it sends with; this holds after replacements too. */
  ghost predicate Labelled(p: Proxy) {
    && WellFormed(p)
    && forall id :: id in p.funnels ==> p.funnels[id].assignedEchoID == id
  }

  // The flow a request finds under its ID and goes out on: one of a connection with the request's index.
  predicate Joins(p: Proxy, id: nat, conn: Conn) {
    id in p.funnels && p.funnels[id].conn.index == conn.index
  }

  // What a request goes out on: the flow it joins, or a new one of its own. Other flows are left alone.
  lemma RequestLeavesFlow(p: Proxy, key: Flow3Tuple, conn: Conn, now: int)
    requires Labelled(p) && GetOrAssign(p.ids, key).1.Some?
    ensures var id := GetOrAssign(p.ids, key).1.value;
            var (p', sent) := DoRequest(p, key, conn, now);
            && sent == Some(id)
            && id in p'.funnels && p'.funnels - {id} == p.funnels - {id}
            && p'.funnels[id] ==
               if Joins(p, id, conn) then p.funnels[id].(lastActive := now)
               else EchoFlow(key.srcIP, key, conn, id, key.originalEchoID, now)
  {
    GetOrAssignExactly(p.ids, key);
    var id := GetOrAssign(p.ids, key).1.value;
    var p' := DoRequest(p, key, conn, now).0;
    var flow := if Joins(p, id, conn) then p.funnels[id].(lastActive := now)
                else EchoFlow(key.srcIP, key, conn, id, key.originalEchoID, now);
    assert p'.funnels == p.funnels[id := flow];
  }

  lemma StepKeepsLabels(p: Proxy, e: Event)
    requires Labelled(p)
    ensures Labelled(Step(p, e))
  {
    StepKeepsIds(p, e);
    match e
    case Reply(id, now) =>
    case IdleCleanup(idle) => CloseAllKeepsLabels(p, idle);
    case Request(key, conn, now) =>
      GetOrAssignExactly(p.ids, key);
      if GetOrAssign(p.ids, key).1.Some? {
        var id, p' := GetOrAssign(p.ids, key).1.value, Step(p, e);
        RequestLeavesFlow(p, key, conn, now);
        forall k | k in p'.funnels
          ensures p'.funnels[k].assignedEchoID == k
        {
          if k != id {
            assert k in p'.funnels - {id} && k in p.funnels - {id};
            assert (p'.funnels - {id})[k] == (p.funnels - {id})[k];
          }
        }
      }
  }

  lemma {:induction false} CloseAllKeepsLabels(p: Proxy, ids: seq<Funnels.FunnelID>)
    requires Labelled(p)
    ensures Labelled(CloseAll(p, ids))
    ensures CloseAll(p, ids).funnels == p.funnels - (set id | id in ids)
    decreases |ids|
  {
    if ids != [] {
      CloseOneKeepsIds(p, ids[0]);
      CloseAllKeepsLabels(CloseOne(p, ids[0]), ids[1..]);
      assert (set id | id in ids) == {ids[0]} + (set id | id in ids[1..]);
    }
  }

  lemma {:induction false} RunKeepsLabels(p: Proxy, events: seq<Event>)
    requires Labelled(p)
    ensures Labelled(Run(p, events))
    decreases |events|
  {
    if events != [] {
      StepKeepsLabels(p, events[0]);
      RunKeepsLabels(Step(p, events[0]), events[1..]);
    }
  }

  // The step closes the flow under id: it replaces it, or it cleans it up.
  predicate Closes(p: Proxy, e: Event, id: nat)
    requires |p.ids.assignment| == MAX_UINT16 && p.ids.nextAssignment <= MAX_UINT16
  {
    match e
    case Reply(_, _) => false
    case IdleCleanup(idle) => id in idle
    case Request(key, _, _) => Replaces(p, e) && GetOrAssign(p.ids, key).1 == Some(id)
  }

  // What a reply depends on.
  predicate SameRequester(a: EchoFlow, b: EchoFlow) {
    a.conn == b.conn && a.src == b.src && a.originalEchoID == b.originalEchoID
  }

  // A flow keeps its connection, source and echo ID exactly until a step closes it.
  lemma FlowStaysExactly(p: Proxy, e: Event, id: nat)
    requires Labelled(p) && id in p.funnels
    ensures var p' := Step(p, e);
            (id in p'.funnels && SameRequester(p'.funnels[id], p.funnels[id])) <==> !Closes(p, e, id)
  {
    match e
    case Reply(_, _) =>
    case IdleCleanup(idle) => CloseAllKeepsLabels(p, idle);
    case Request(key, conn, now) =>
      if GetOrAssign(p.ids, key).1.Some? {
        var own, p' := GetOrAssign(p.ids, key).1.value, Step(p, e);
        RequestLeavesFlow(p, key, conn, now);
        if id != own {
          assert id in p.funnels - {own} && id in p'.funnels - {own};
          assert (p'.funnels - {own})[id] == (p.funnels - {own})[id];
        }
      }
  }

  ghost predicate ClosesDuring(p: Proxy, events: seq<Event>, id: nat)
    requires WellFormed(p)
    decreases |events|
  {
    events != [] &&
    (Closes(p, events[0], id) ||
     (StepKeepsIds(p, events[0]);
      ClosesDuring(Step(p, events[0]), events[1..], id)))
  }

  lemma {:induction false} FlowStaysDuring(p: Proxy, events: seq<Event>, id: nat)
    requires Labelled(p) && id in p.funnels && !ClosesDuring(p, events, id)
    ensures id in Run(p, events).funnels && SameRequester(Run(p, events).funnels[id], p.funnels[id])
    decreases |events|
  {
    if events != [] {
      StepKeepsLabels(p, events[0]);
      FlowStaysExactly(p, events[0], id);
      FlowStaysDuring(Step(p, events[0]), events[1..], id);
    }
  }

  // The request joins a flow that returns to another source or under another echo ID.
  predicate JoinsForeign(p: Proxy, key: Flow3Tuple, conn: Conn)
    requires |p.ids.assignment| == MAX_UINT16 && p.ids.nextAssignment <= MAX_UINT16
  {
    var r := GetOrAssign(p.ids, key).1;
    r.Some? && Joins(p, r.value, conn) &&
    (p.funnels[r.value].src != key.srcIP || p.funnels[r.value].originalEchoID != key.originalEchoID)
  }

  // The request joins a flow that returns over another connection of the same index.
  predicate JoinsStale(p: Proxy, key: Flow3Tuple, conn: Conn)
    requires |p.ids.assignment| == MAX_UINT16 && p.ids.nextAssignment <= MAX_UINT16
  {
    var r := GetOrAssign(p.ids, key).1;
    r.Some? && Joins(p, r.value, conn) && p.funnels[r.value].conn != conn
  }

  /**
   A request in any labelled state is refused exactly when its key is new and all 65535 IDs are held. When it goes out,
   then until its flow is closed, whatever else happens, a reply is returned over the requester's connection to its
   source with its echo ID exactly if the request joined neither a foreign flow nor one of an earlier connection.
   Request and reply both count as traffic.
  */
  lemma RequestThenReply(p: Proxy, key: Flow3Tuple, conn: Conn, now: int, events: seq<Event>, later: int)
    requires Labelled(p)
    ensures var (p', sent) := DoRequest(p, key, conn, now);
            && Labelled(p')
            && (sent.None? <==> key !in p.ids.mapping && |p.ids.mapping| == MAX_UINT16)
            && (sent.Some? ==> sent.value in p'.funnels && p'.funnels[sent.value].lastActive == now)
            && (sent.Some? && !ClosesDuring(p', events, sent.value) ==>
                  var q := Run(p', events);
                  var (q', answer) := DoReply(q, sent.value, later);
                  && answer.Some? && q'.funnels[sent.value].lastActive == later
                  && (answer == Some(Returned(conn, key.srcIP, key.originalEchoID)) <==>
                      !JoinsForeign(p, key, conn) && !JoinsStale(p, key, conn)))
  {
    GetOrAssignExactly(p.ids, key);
    if key !in p.ids.mapping {
      RefusedIffFull(p.ids, key);
    }
    var (p', sent) := DoRequest(p, key, conn, now);
    StepKeepsLabels(p, Request(key, conn, now));
    if GetOrAssign(p.ids, key).1.Some? {
      RequestLeavesFlow(p, key, conn, now);
      if !ClosesDuring(p', events, sent.value) {
        FlowStaysDuring(p', events, sent.value);
      }
    }
  }

  // With ownership no request joins a foreign flow.
  lemma OwnersJoinTheirOwn(p: Proxy, key: Flow3Tuple, conn: Conn)
    requires Own(p)
    ensures Labelled(p) && !JoinsForeign(p, key, conn)
  {
    if GetOrAssign(p.ids, key).1.Some? {
      OwnFlow(p, key);
    }
  }

  /**
   The same over whole runs, replacements included: after any run, a request's replies find the requester until its flow
   is closed exactly if it joined neither a foreign flow nor one of an earlier connection. After a run without
   replacement no request joins a foreign flow, so only the connection can be wrong.
  */
  lemma RepliesExactly(before: seq<Event>, key: Flow3Tuple, conn: Conn, now: int, events: seq<Event>, later: int)
    requires DoRequest(Run(Start(), before), key, conn, now).1.Some?
    ensures var p := Run(Start(), before);
            var (p', sent) := DoRequest(p, key, conn, now);
            && Labelled(p) && Labelled(p')
            && (!ClosesDuring(p', events, sent.value) ==>
                  var answer := DoReply(Run(p', events), sent.value, later).1;
                  (answer == Some(Returned(conn, key.srcIP, key.originalEchoID)) <==>
                   !JoinsForeign(p, key, conn) && !JoinsStale(p, key, conn)))
            && (NoReplacement(Start(), before) ==> !JoinsForeign(p, key, conn))
  {
    EmptyInv();
    assert Own(Start());
    var p := Run(Start(), before);
    RunKeepsLabels(Start(), before);
    RequestThenReply(p, key, conn, now, events, later);
    if NoReplacement(Start(), before) {
      RunKeepsOwn(Start(), before);
      OwnersJoinTheirOwn(p, key, conn);
    }
  }

  const FIRST := Conn(0, 0)
  const SECOND := Conn(1, 1)

  /** The same source asking again over another connection is enough to lose ownership. */
  lemma ReplacementWitness(key: Flow3Tuple)
    ensures var events := [Request(key, FIRST, 0), Request(key, SECOND, 1)];
            !NoReplacement(Start(), events) && !OwnThroughout(Start(), events)
  {
    EmptyInv();
    var first := Request(key, FIRST, 0);
    var second := Request(key, SECOND, 1);
    var events := [first, second];
    assert Own(Start());
    StepKeepsIds(Start(), first);
    var p := Step(Start(), first);
    assert events[1..] == [second];
    RefusedIffFull(Start().ids, key);
    OwnExactly(Start(), first);
    assert Replaces(p, second);
    assert !NoReplacement(p, [second]);
    RunKeepsOwn(Start(), events);
  }

  lemma {:induction false} RunInTwo(p: Proxy, a: seq<Event>, b: seq<Event>)
    requires WellFormed(p)
    ensures Run(p, a + b) == Run(Run(p, a), b)
    decreases |a|
  {
    if a == [] {
      assert a + b == b;
    } else {
      var ab := a + b;
      assert ab != [] && ab[0] == a[0] && ab[1..] == a[1..] + b;
      StepKeepsIds(p, a[0]);
      var q := Step(p, a[0]);
      RunInTwo(q, a[1..], b);
      assert Run(p, ab) == Run(q, ab[1..]);
    }
  }

  // One key asking n times over each of two connections in turn.
  function Alternating(key: Flow3Tuple, n: nat): seq<Event> {
    if n == 0 then [] else Alternating(key, n - 1) + [Request(key, FIRST, 0), Request(key, SECOND, 0)]
  }

  function LeftBehind(key: Flow3Tuple, id: nat): EchoFlow {
    EchoFlow(key.srcIP, key, SECOND, id, key.originalEchoID, 0)
  }

  // What that leaves: no ID is held, but the first n have a flow of the key, and the cursor stands behind them.
  function Abandoned(key: Flow3Tuple, n: nat): Proxy {
    Proxy(EchoIds.Empty().(nextAssignment := n), map id: nat | id < n :: LeftBehind(key, id))
  }

  lemma AbandonedIsLabelled(key: Flow3Tuple, n: nat)
    requires n <= MAX_UINT16
    ensures Labelled(Abandoned(key, n))
  {
    EmptyInv();
  }

  // The first request of a round takes the ID under the cursor.
  lemma RoundBegins(key: Flow3Tuple, n: nat)
    requires n < MAX_UINT16
    ensures WellFormed(Abandoned(key, n))
    ensures var t := EchoIds.Empty().(nextAssignment := n);
            Step(Abandoned(key, n), Request(key, FIRST, 0)) ==
            Proxy(Set(t, key, n), Abandoned(key, n).funnels[n := LeftBehind(key, n).(conn := FIRST)])
  {
    AbandonedIsLabelled(key, n);
    var t := EchoIds.Empty().(nextAssignment := n);
    assert FirstFree(t.assignment, n, MAX_UINT16) == n;
    assert Search(t.assignment, n) == Some(n);
    assert GetOrAssign(t, key) == (Set(t, key, n), Some(n));
  }

  // The second one replaces the flow and so releases the ID.
  lemma RoundEnds(key: Flow3Tuple, n: nat)
    requires n < MAX_UINT16
    ensures var p := Step(Abandoned(key, n), Request(key, FIRST, 0));
            WellFormed(p) && Step(p, Request(key, SECOND, 0)) == Abandoned(key, n + 1)
  {
    RoundBegins(key, n);
    StepKeepsIds(Abandoned(key, n), Request(key, FIRST, 0));
    var t := EchoIds.Empty().(nextAssignment := n);
    var p := Step(Abandoned(key, n), Request(key, FIRST, 0));
    var q := Step(p, Request(key, SECOND, 0));
    assert map[key := n] - {key} == map[];
    assert t.assignment[n := true][n := false] == t.assignment;
    assert q.ids == EchoIds.Empty().(nextAssignment := n + 1);
    assert q.funnels == Abandoned(key, n + 1).funnels;
  }

  lemma {:induction false} AlternatingAbandons(key: Flow3Tuple, n: nat)
    requires n <= MAX_UINT16
    ensures Run(Start(), Alternating(key, n)) == Abandoned(key, n)
  {
    if n == 0 {
      assert Abandoned(key, 0).funnels == map[];
    } else {
      var round := [Request(key, FIRST, 0), Request(key, SECOND, 0)];
      AlternatingAbandons(key, n - 1);
      RunInTwo(Start(), Alternating(key, n - 1), round);
      RoundEnds(key, n - 1);
      var p := Step(Abandoned(key, n - 1), round[0]);
      assert round[1..] == [round[1]] && round[1..][1..] == [];
      assert Run(p, round[1..]) == Step(p, round[1]);
    }
  }

  /**
   Replies do go to the wrong source: once a key has alternated between two connections until the cursor is at the end
   of the IDs, any other source that asks over the second connection gets ID 0 and joins the flow left under it, so the
   reply to it is returned to the first source.
  */
  lemma MisdeliveredWitness(key: Flow3Tuple, other: Flow3Tuple)
    requires key.srcIP != other.srcIP
    ensures var p := Run(Start(), Alternating(key, MAX_UINT16));
            && WellFormed(p)
            && var (p', sent) := DoRequest(p, other, SECOND, 0);
            && sent == Some(0)
            && DoReply(p', 0, 0).1 == Some(Returned(SECOND, key.srcIP, key.originalEchoID))
            && DoReply(p', 0, 0).1 != Some(Returned(SECOND, other.srcIP, other.originalEchoID))
  {
    AlternatingAbandons(key, MAX_UINT16);
    AbandonedIsLabelled(key, MAX_UINT16);
    var p := Abandoned(key, MAX_UINT16);
    assert FirstFree(p.ids.assignment, 0, MAX_UINT16) == 0;
    assert GetOrAssign(p.ids, other).1 == Some(0);
    RequestLeavesFlow(p, other, SECOND, 0);
    assert 0 in p.funnels && p.funnels[0] == LeftBehind(key, 0);
  }

  // FIRST after a reconnection.
  const AGAIN := Conn(0, 2)

  // One key's flow over FIRST, last active at the given time.
  function Reconnected(key: Flow3Tuple, lastActive: int): Proxy {
    Proxy(Set(EchoIds.Empty(), key, 0), map[0 := EchoFlow(key.srcIP, key, FIRST, 0, key.originalEchoID, lastActive)])
  }

  function AskingAgain(key: Flow3Tuple, times: seq<int>): seq<Event> {
    seq(|times|, i requires 0 <= i < |times| => Request(key, AGAIN, times[i]))
  }

  lemma FirstRequest(key: Flow3Tuple)
    ensures !Replaces(Start(), Request(key, FIRST, 0))
    ensures Step(Start(), Request(key, FIRST, 0)) == Reconnected(key, 0)
    ensures WellFormed(Reconnected(key, 0))
  {
    EmptyInv();
    StepKeepsIds(Start(), Request(key, FIRST, 0));
    assert FirstFree(EchoIds.Empty().assignment, 0, MAX_UINT16) == 0;
    assert Search(EchoIds.Empty().assignment, 0) == Some(0);
  }

  lemma {:induction false} AskingAgainStays(key: Flow3Tuple, before: int, times: seq<int>)
    requires WellFormed(Reconnected(key, before))
    ensures var last := if times == [] then before else times[|times| - 1];
            && NoReplacement(Reconnected(key, before), AskingAgain(key, times))
            && Run(Reconnected(key, before), AskingAgain(key, times)) == Reconnected(key, last)
    decreases |times|
  {
    if times != [] {
      var p, events := Reconnected(key, before), AskingAgain(key, times);
      assert Step(p, events[0]) == Reconnected(key, times[0]);
      StepKeepsIds(p, events[0]);
      assert events[1..] == AskingAgain(key, times[1..]);
      AskingAgainStays(key, times[0], times[1..]);
    }
  }

  /**
   Once its tunnel has reconnected under the same index, a key that keeps asking never gets its replies over the new
   connection: they are returned over the old one, and every request keeps that flow from going idle. No funnel is
   replaced on the way.
  */
  lemma ReconnectWitness(key: Flow3Tuple, times: seq<int>)
    requires times != []
    ensures var events := [Request(key, FIRST, 0)] + AskingAgain(key, times);
            var p := Run(Start(), events);
            && NoReplacement(Start(), events)
            && 0 in p.funnels && p.funnels[0].lastActive == times[|times| - 1]
            && (forall now :: DoRequest(p, key, AGAIN, now).1 == Some(0))
            && (forall now :: DoReply(p, 0, now).1 == Some(Returned(FIRST, key.srcIP, key.originalEchoID)))
  {
    var first := Request(key, FIRST, 0);
    var events := [first] + AskingAgain(key, times);
    FirstRequest(key);
    AskingAgainStays(key, 0, times);
    assert events[0] == first && events[1..] == AskingAgain(key, times);
    assert Run(Start(), events) == Run(Step(Start(), first), events[1..]);
  }
}
