/**
 The orchestrator of configuration updates. An update is taken over as a whole or not at all; each one that is taken
 over starts its origins under a channel of its own, and closing that channel later stops them.
*/
module Orchestrator {
  import Numerals
  import opened Results

  type Uint64 = n: nat | n < Numerals.TWO_TO_THE_64
  type Int32 = n: int | -0x8000_0000 <= n < 0x8000_0000

  // An ingress rule, a proxy shutdown channel: each known by a number.
  type Rule = nat
  type ChannelID = nat

  datatype WarpRouting = WarpRouting(maxActiveFlows: Uint64)

  // The parsed remote configuration.
  datatype RemoteConfig = RemoteConfig(rules: seq<Rule>, warpRouting: WarpRouting)

  // What the origin proxy was built from.
  datatype Proxy = Proxy(rules: seq<Rule>, internalRules: seq<Rule>)

  /** The part that never changes: the rules built in, the rules used when there are none, and the local flag. */
  datatype Static = Static(internalRules: seq<Rule>, defaultRules: seq<Rule>, maxActiveFlowsFlag: Numerals.Bytes)

  /**
   The orchestrator's fields, the limit of the flow limiter it shares, and the channels: how many were made, how often
   each was closed, and which of them belong to an update whose origins did not start.
  */
  datatype State = State(
    currentVersion: Int32, proxy: Option<Proxy>, rules: seq<Rule>, warpRouting: WarpRouting, limit: Uint64,
    shutdown: bool, proxyShutdownC: Option<ChannelID>,
    channels: nat, closes: multiset<ChannelID>, failed: set<ChannelID>)

  // overrideMaxActiveFlows: the local flag, when given, decides.
  function OverrideMaxActiveFlows(flag: Numerals.Bytes, remote: WarpRouting): Result<WarpRouting> {
    if flag == [] then Ok(remote)
    else
      var n := Numerals.ParseUint(flag, 10, 64);
      if n.Err? then Err
      else
        Numerals.WidthOf64();
        Ok(WarpRouting(n.value))
  }

  datatype Response = Response(lastAppliedVersion: Int32, failed: bool)

  /** updateIngress; originsStart says whether every origin service of the new rules starts. */
  function UpdateIngress(c: Static, s: State, config: RemoteConfig, originsStart: bool): (State, bool) {
    if s.shutdown then (s, false)
    else
      var warpRouting := OverrideMaxActiveFlows(c.maxActiveFlowsFlag, config.warpRouting);
      if warpRouting.Err? then (s, false)
      else
        var rules := if config.rules == [] then c.defaultRules else config.rules;
        var channel := s.channels;
        if !originsStart then (s.(channels := channel + 1, failed := s.failed + {channel}), false)
        else
          (s.(limit := warpRouting.value.maxActiveFlows,
              proxy := Some(Proxy(rules, c.internalRules)),
              rules := rules, warpRouting := warpRouting.value,
              closes := if s.proxyShutdownC.Some? then s.closes + multiset{s.proxyShutdownC.value} else s.closes,
              proxyShutdownC := Some(channel), channels := channel + 1), true)
  }

  // parsed is None when the configuration is not valid JSON.
  function UpdateConfig(c: Static, s: State, version: Int32, parsed: Option<RemoteConfig>, originsStart: bool)
    : (State, Response)
  {
    if s.currentVersion >= version then (s, Response(s.currentVersion, false))
    else if parsed.None? then (s, Response(s.currentVersion, true))
    else
      var (s', ok) := UpdateIngress(c, s, parsed.value, originsStart);
      if !ok then (s', Response(s.currentVersion, true))
      else (s'.(currentVersion := version), Response(version, false))
  }

  // waitToCloseLastProxy, once the shutdown channel is closed.
  function CloseLastProxy(s: State): State {
    if s.proxyShutdownC.None? then s
    else s.(closes := s.closes + multiset{s.proxyShutdownC.value}, proxyShutdownC := None)
  }

  datatype Event =
    | Update(version: Int32, parsed: Option<RemoteConfig>, originsStart: bool)
    | ShutdownBegins
    | LastProxyClosed

  predicate Enabled(s: State, e: Event) {
    e.LastProxyClosed? ==> s.shutdown
  }

  function Next(c: Static, s: State, e: Event): State {
    match e
    case Update(version, parsed, originsStart) => UpdateConfig(c, s, version, parsed, originsStart).0
    case ShutdownBegins => s.(shutdown := true)
    case LastProxyClosed => CloseLastProxy(s)
  }

  // Before the constructor's own updateIngress.
  function Blank(local: RemoteConfig): State {
    State(-1, None, local.rules, local.warpRouting, local.warpRouting.maxActiveFlows, false, None, 0, multiset{}, {})
  }

  // NewOrchestrator starts from the local configuration; it fails if that cannot be applied.
  function NewOrchestrator(c: Static, local: RemoteConfig, originsStart: bool): Option<State> {
    var (s, ok) := UpdateIngress(c, Blank(local), local, originsStart);
    if ok then Some(s) else None
  }

  // The channel belongs to an update that was taken over.
  predicate Applied(s: State, ch: ChannelID) {
    ch < s.channels && ch !in s.failed
  }

  ghost predicate Inv(c: Static, s: State) {
    && s.currentVersion >= -1
    && s.limit == s.warpRouting.maxActiveFlows
    && (c.maxActiveFlowsFlag != [] ==> Numerals.ParseUint(c.maxActiveFlowsFlag, 10, 64) == Ok(s.limit))
    && s.proxy == Some(Proxy(s.rules, c.internalRules))
    && (forall ch :: ch in s.failed ==> ch < s.channels)
    && (s.proxyShutdownC.Some? ==> Applied(s, s.proxyShutdownC.value))
    && (s.proxyShutdownC.None? ==> s.shutdown)
    && (forall ch: ChannelID :: s.closes[ch] == if Applied(s, ch) && Some(ch) != s.proxyShutdownC then 1 else 0)
    && (forall ch: ChannelID :: s.proxyShutdownC.Some? && Applied(s, ch) ==> ch <= s.proxyShutdownC.value)
  }

  lemma UpdateIngressExactly(c: Static, s: State, config: RemoteConfig, originsStart: bool)
    ensures UpdateIngress(c, s, config, originsStart).1 <==>
              && !s.shutdown && originsStart
              && (c.maxActiveFlowsFlag == [] || Numerals.ParseUint(c.maxActiveFlowsFlag, 10, 64).Ok?)
  {
  }

  lemma NewOrchestratorInv(c: Static, local: RemoteConfig, originsStart: bool)
    requires NewOrchestrator(c, local, originsStart).Some?
    ensures Inv(c, NewOrchestrator(c, local, originsStart).value)
  {
    Numerals.WidthOf64();
    var s := NewOrchestrator(c, local, originsStart).value;
  }

  /**
   A new orchestrator starts from the local configuration, or not at all: its rules, or the default ones if it has none,
   with the local flag's limit if there is one, no version yet, and one channel, which is open.
  */
  lemma StartsFromLocal(c: Static, local: RemoteConfig, originsStart: bool)
    ensures NewOrchestrator(c, local, originsStart).Some? <==>
              originsStart && (c.maxActiveFlowsFlag == [] || Numerals.ParseUint(c.maxActiveFlowsFlag, 10, 64).Ok?)
    ensures NewOrchestrator(c, local, originsStart).Some? ==>
              var s := NewOrchestrator(c, local, originsStart).value;
              && s.rules == (if local.rules == [] then c.defaultRules else local.rules)
              && s.proxy == Some(Proxy(s.rules, c.internalRules))
              && (c.maxActiveFlowsFlag == [] ==> s.limit == local.warpRouting.maxActiveFlows)
              && (c.maxActiveFlowsFlag != [] ==> Numerals.ParseUint(c.maxActiveFlowsFlag, 10, 64) == Ok(s.limit))
              && s.warpRouting.maxActiveFlows == s.limit
              && s.currentVersion == -1 && !s.shutdown
              && s.proxyShutdownC == Some(0) && s.channels == 1 && s.closes == multiset{} && s.failed == {}
  {
    Numerals.WidthOf64();
  }

  lemma UpdateKeepsInv(c: Static, s: State, version: Int32, parsed: Option<RemoteConfig>, originsStart: bool)
    requires Inv(c, s)
    ensures Inv(c, UpdateConfig(c, s, version, parsed, originsStart).0)
  {
    var s' := UpdateConfig(c, s, version, parsed, originsStart).0;
    if s'.channels != s.channels {
      Numerals.WidthOf64();
      assert forall ch :: Applied(s', ch) <==> Applied(s, ch) || (ch == s.channels && s'.failed == s.failed);
    }
  }

  lemma NextKeepsInv(c: Static, s: State, e: Event)
    requires Inv(c, s) && Enabled(s, e)
    ensures Inv(c, Next(c, s, e))
  {
    if e.Update? {
      UpdateKeepsInv(c, s, e.version, e.parsed, e.originsStart);
    } else {
      assert forall ch :: Applied(Next(c, s, e), ch) == Applied(s, ch);
    }
  }

  ghost predicate IsRun(c: Static, states: seq<State>, events: seq<Event>) {
    && |states| == |events| + 1
    && (exists local, originsStart :: NewOrchestrator(c, local, originsStart) == Some(states[0]))
    && forall i :: 0 <= i < |events| ==> StepAt(c, states, events, i)
  }

  ghost predicate StepAt(c: Static, states: seq<State>, events: seq<Event>, i: nat)
    requires i < |events| && |states| == |events| + 1
  {
    Enabled(states[i], events[i]) && states[i + 1] == Next(c, states[i], events[i])
  }

  lemma {:induction false} RunKeepsInv(c: Static, states: seq<State>, events: seq<Event>, n: nat)
    requires IsRun(c, states, events) && n < |states|
    ensures Inv(c, states[n])
  {
    if n == 0 {
      var local, originsStart :| NewOrchestrator(c, local, originsStart) == Some(states[0]);
      NewOrchestratorInv(c, local, originsStart);
    } else {
      RunKeepsInv(c, states, events, n - 1);
      assert StepAt(c, states, events, n - 1);
      NextKeepsInv(c, states[n - 1], events[n - 1]);
    }
  }

  /**
   All or nothing: an update answers with the version in force afterwards; it is taken over exactly if it is newer,
   valid and startable before shutdown; taken over, the proxy, the stored rules, the stored limit and the limiter all
   come from it (or the limit from the local flag); otherwise none of them changes.
  */
  lemma UpdateAllOrNothing(c: Static, s: State, version: Int32, parsed: Option<RemoteConfig>, originsStart: bool)
    requires Inv(c, s)
    ensures var (s', r) := UpdateConfig(c, s, version, parsed, originsStart);
            var takenOver := version > s.currentVersion && parsed.Some? && originsStart && !s.shutdown;
            && r.lastAppliedVersion == s'.currentVersion
            && s'.currentVersion == (if takenOver then version else s.currentVersion)
            && (r.failed <==> version > s.currentVersion && !takenOver)
            && (takenOver ==>
                  && s'.warpRouting.maxActiveFlows == s'.limit
                  && s'.limit ==
                     (if c.maxActiveFlowsFlag == [] then parsed.value.warpRouting.maxActiveFlows else s.limit)
                  && s'.rules == (if parsed.value.rules == [] then c.defaultRules else parsed.value.rules)
                  && s'.proxy == Some(Proxy(s'.rules, c.internalRules)))
            && (!takenOver ==>
                  && s' == s.(channels := s'.channels, failed := s'.failed)
                  && (s'.channels != s.channels ==> parsed.Some? && !originsStart && !s.shutdown))
  {
    if parsed.Some? {
      UpdateIngressExactly(c, s, parsed.value, originsStart);
    }
  }

  /** Versions never go down over a run, and two different updates that were taken over have different versions. */
  lemma {:induction false} VersionsIncrease(c: Static, states: seq<State>, events: seq<Event>, m: nat, n: nat)
    requires IsRun(c, states, events) && m < n < |states|
    ensures states[m].currentVersion <= states[n].currentVersion
    ensures states[m].proxyShutdownC != states[n].proxyShutdownC && states[n].proxyShutdownC.Some? ==>
              states[m].currentVersion < states[n].currentVersion
    decreases n
  {
    RunKeepsInv(c, states, events, n - 1);
    assert StepAt(c, states, events, n - 1);
    if m < n - 1 {
      VersionsIncrease(c, states, events, m, n - 1);
      if states[n - 1].proxyShutdownC.None? {
        assert states[n].proxyShutdownC.None?;
      }
    }
  }

  /**
   The channels in every state of every run: none is closed twice; of those whose update was taken over exactly the
   latest is open, and after shutdown none; of those whose origins failed to start none is ever closed.
  */
  lemma ChannelsExactly(c: Static, states: seq<State>, events: seq<Event>, n: nat, ch: ChannelID)
    requires IsRun(c, states, events) && n < |states|
    ensures var s := states[n];
            && s.closes[ch] <= 1
            && (Applied(s, ch) ==>
                  (s.closes[ch] == 0 <==> s.proxyShutdownC == Some(ch))
                  && (s.closes[ch] == 0 <==>
                      s.proxyShutdownC.Some? && forall other: ChannelID :: Applied(s, other) ==> other <= ch))
            && (!Applied(s, ch) ==> s.closes[ch] == 0)
            && (s.limit == s.warpRouting.maxActiveFlows)
            && (c.maxActiveFlowsFlag != [] ==> Numerals.ParseUint(c.maxActiveFlowsFlag, 10, 64) == Ok(s.limit))
  {
    RunKeepsInv(c, states, events, n);
  }

  /** After the last proxy was closed nothing changes any more, whatever updates still arrive. */
  lemma {:induction false} FinalAfterShutdown(c: Static, states: seq<State>, events: seq<Event>, m: nat, n: nat)
    requires IsRun(c, states, events) && m <= n < |states|
    requires states[m].shutdown && states[m].proxyShutdownC.None?
    ensures states[n] == states[m]
    decreases n
  {
    if m < n {
      FinalAfterShutdown(c, states, events, m, n - 1);
      assert StepAt(c, states, events, n - 1);
    }
  }

  /** Shutdown is noted and nothing else; the last proxy is closed then, by closing the one channel that is open. */
  lemma StopsExactly(c: Static, states: seq<State>, events: seq<Event>, n: nat)
    requires IsRun(c, states, events) && n < |events| && !events[n].Update?
    ensures var s, s' := states[n], states[n + 1];
            if events[n].ShutdownBegins? then s' == s.(shutdown := true)
            else
              && s.shutdown && s'.proxyShutdownC == None
              && s' == s.(proxyShutdownC := None, closes := s'.closes)
              && s'.closes == s.closes + if s.proxyShutdownC.Some? then multiset{s.proxyShutdownC.value} else multiset{}
  {
    assert StepAt(c, states, events, n);
  }

  /**
   When it is all over, every channel that was made has been closed exactly if no update ever failed to start its
   origins; what such an update had started before failing is never told to stop.
  */
  lemma AllClosedExactly(c: Static, states: seq<State>, events: seq<Event>, n: nat)
    requires IsRun(c, states, events) && n < |states|
    requires states[n].shutdown && states[n].proxyShutdownC.None?
    ensures (forall ch: ChannelID :: ch < states[n].channels ==> states[n].closes[ch] == 1) <==> states[n].failed == {}
  {
    RunKeepsInv(c, states, events, n);
    var s := states[n];
    if s.failed != {} {
      var ch :| ch in s.failed;
      assert s.closes[ch] == 0;
    }
  }

  /** A failed start leaves its channel open for good: one update whose origins do not start, then shutdown. */
  lemma FailedStartWitness(local: RemoteConfig, config: RemoteConfig)
    ensures var c := Static([], [0], []);
            exists states: seq<State>, events: seq<Event> ::
              && IsRun(c, states, events) && |events| == 3
              && states[3].shutdown && states[3].proxyShutdownC.None?
              && states[3].channels == 2 && states[3].closes[1] == 0
  {
    var c := Static([], [0], []);
    UpdateIngressExactly(c, Blank(local), local, true);
    var s0 := NewOrchestrator(c, local, true).value;
    assert NewOrchestrator(c, local, true) == Some(s0);
    var events := [Update(0, Some(config), false), ShutdownBegins, LastProxyClosed];
    var s1 := s0.(channels := 2, failed := {1});
    var s2 := s1.(shutdown := true);
    var s3 := s2.(proxyShutdownC := None, closes := multiset{0});
    assert s1 == Next(c, s0, events[0]);
    assert s2 == Next(c, s1, events[1]);
    assert s3 == Next(c, s2, events[2]);
    var states := [s0, s1, s2, s3];
    assert StepAt(c, states, events, 0) && StepAt(c, states, events, 1) && StepAt(c, states, events, 2);
    assert IsRun(c, states, events);
    assert s3.closes == multiset{0};
  }

  /** The orchestrator, its fields updated under one lock. */
  class Orchestrator {
    const fixed: Static
    var currentVersion: Int32
    var proxy: Option<Proxy>
    var rules: seq<Rule>
    var warpRouting: WarpRouting
    var limit: Uint64
    var shutdown: bool
    var proxyShutdownC: Option<ChannelID>
    var channels: nat
    var closes: multiset<ChannelID>
    var failed: set<ChannelID>

    function Fields(): State
      reads this
    {
      State(currentVersion, proxy, rules, warpRouting, limit, shutdown, proxyShutdownC, channels, closes, failed)
    }

    constructor (c: Static, local: RemoteConfig)
      ensures fixed == c && Fields() == Blank(local)
    {
      fixed := c;
      currentVersion, proxy, rules, warpRouting := -1, None, local.rules, local.warpRouting;
      limit := local.warpRouting.maxActiveFlows;
      shutdown, proxyShutdownC, channels, closes, failed := false, None, 0, multiset{}, {};
    }

    // Closing a channel a second time would panic.
    method CloseChannel(ch: ChannelID)
      requires closes[ch] == 0
      modifies this`closes
      ensures closes == old(closes) + multiset{ch}
    {
      closes := closes + multiset{ch};
    }

    method Ingress(config: RemoteConfig, originsStart: bool) returns (ok: bool)
      requires proxyShutdownC.Some? ==> closes[proxyShutdownC.value] == 0
      modifies this
      ensures (Fields(), ok) == UpdateIngress(fixed, old(Fields()), config, originsStart)
    {
      if shutdown {
        return false;
      }
      var merged := OverrideMaxActiveFlows(fixed.maxActiveFlowsFlag, config.warpRouting);
      if merged.Err? {
        return false;
      }
      var newRules := config.rules;
      if |newRules| == 0 {
        newRules := fixed.defaultRules;
      }
      var newChannel := channels;
      channels := channels + 1;
      if !originsStart {
        failed := failed + {newChannel};
        return false;
      }
      limit := merged.value.maxActiveFlows;
      proxy := Some(Proxy(newRules, fixed.internalRules));
      rules := newRules;
      warpRouting := merged.value;
      if proxyShutdownC.Some? {
        CloseChannel(proxyShutdownC.value);
      }
      proxyShutdownC := Some(newChannel);
      return true;
    }

    method Update(version: Int32, parsed: Option<RemoteConfig>, originsStart: bool) returns (r: Response)
      requires Inv(fixed, Fields())
      modifies this
      ensures (Fields(), r) == UpdateConfig(fixed, old(Fields()), version, parsed, originsStart)
      ensures Inv(fixed, Fields())
    {
      UpdateKeepsInv(fixed, Fields(), version, parsed, originsStart);
      if currentVersion >= version {
        return Response(currentVersion, false);
      }
      if parsed.None? {
        return Response(currentVersion, true);
      }
      var ok := Ingress(parsed.value, originsStart);
      if !ok {
        return Response(currentVersion, true);
      }
      currentVersion := version;
      return Response(currentVersion, false);
    }

    method WaitToCloseLastProxy()
      requires Inv(fixed, Fields()) && shutdown
      modifies this
      ensures Fields() == CloseLastProxy(old(Fields())) && Inv(fixed, Fields())
    {
      NextKeepsInv(fixed, Fields(), LastProxyClosed);
      if proxyShutdownC.Some? {
        CloseChannel(proxyShutdownC.value);
        proxyShutdownC := None;
      }
    }
  }
}
