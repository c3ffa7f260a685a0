/**
 The registry of funnels. A funnel leaves the registry by being closed: when it is replaced, unregistered or idle. The
 maps below say who is in the registry afterwards and who was closed; the class carries this out on funnel objects.
*/
module Funnels {
  import opened Results

  type FunnelID = nat

  // What GetOrRegister does: the registry afterwards, the funnel returned, whether it is new, and who was closed.
  datatype Registration<F> = Registration(funnels: map<FunnelID, F>, funnel: Option<F>, isNew: bool, closed: Option<F>)

  /** newFunnel is None when creating the funnel fails; a replaced funnel is then gone all the same. */
  function GetOrRegister<F>(funnels: map<FunnelID, F>, id: FunnelID, shouldReplace: bool, newFunnel: Option<F>)
    : Registration<F>
  {
    if id in funnels && !shouldReplace then Registration(funnels, Some(funnels[id]), false, None)
    else
      var closed := if id in funnels then Some(funnels[id]) else None;
      match newFunnel
      case None => Registration(funnels - {id}, None, false, closed)
      case Some(f) => Registration(funnels[id := f], Some(f), true, closed)
  }

  // A funnel as a value.
  datatype Record = Record(identity: nat, lastActive: int, closes: nat)

  /** The registry with every funnel it ever took in, numbered in that order. */
  datatype Registry = Registry(funnels: map<FunnelID, nat>, records: seq<Record>)

  ghost predicate Numbered(r: Registry) {
    && (forall id :: id in r.funnels ==> r.funnels[id] < |r.records|)
    && (forall i, j :: i in r.funnels && j in r.funnels && r.funnels[i] == r.funnels[j] ==> i == j)
  }

  function ClosedOnce(records: seq<Record>, k: nat): seq<Record>
    requires k < |records|
  {
    records[k := records[k].(closes := records[k].closes + 1)]
  }

  // A funnel is only made when it is needed, and making it may fail.
  function Registered(r: Registry, id: FunnelID, shouldReplace: bool, newFunnel: Option<Record>): Registry
    requires Numbered(r)
  {
    var next := if newFunnel.Some? then Some(|r.records|) else None;
    var g := GetOrRegister(r.funnels, id, shouldReplace, next);
    var records := if g.closed.Some? then ClosedOnce(r.records, g.closed.value) else r.records;
    Registry(g.funnels, if g.isNew then records + [newFunnel.value] else records)
  }

  function Dropped(r: Registry, id: FunnelID): Registry
    requires Numbered(r) && id in r.funnels
  {
    Registry(r.funnels - {id}, ClosedOnce(r.records, r.funnels[id]))
  }

  function Added(r: Registry, id: FunnelID, record: Record): Registry {
    Registry(r.funnels[id := |r.records|], r.records + [record])
  }

  function Unregistered(r: Registry, id: FunnelID, identity: nat): Registry
    requires Numbered(r)
  {
    if id in r.funnels && r.records[r.funnels[id]].identity == identity then Dropped(r, id) else r
  }

  function IdleIn(r: Registry, now: int, idleTimeout: int): set<FunnelID>
    requires Numbered(r)
  {
    set id | id in r.funnels && now > r.records[r.funnels[id]].lastActive + idleTimeout
  }

  // The records of the given funnels are closed, each once.
  function AllClosed(r: Registry, ids: set<FunnelID>): seq<Record> {
    seq(|r.records|, k requires 0 <= k < |r.records| =>
        if exists id :: id in ids && id in r.funnels && r.funnels[id] == k then
          r.records[k].(closes := r.records[k].closes + 1)
        else r.records[k])
  }

  function Without(r: Registry, ids: set<FunnelID>): Registry {
    Registry(r.funnels - ids, AllClosed(r, ids))
  }

  function CleanedUp(r: Registry, now: int, idleTimeout: int): Registry
    requires Numbered(r)
  {
    Without(r, IdleIn(r, now, idleTimeout))
  }

  function Touched(r: Registry, id: FunnelID, now: int): Registry
    requires Numbered(r)
  {
    if id !in r.funnels then r
    else r.(records := r.records[r.funnels[id] := r.records[r.funnels[id]].(lastActive := now)])
  }

  class Funnel {
    // How often Close was called.
    var closes: nat
    var lastActive: int
    // What Equal compares.
    const identity: nat

    constructor (identity: nat, now: int)
      ensures Shows(Record(identity, now, 0))
    {
      closes, lastActive, this.identity := 0, now, identity;
    }

    predicate Shows(r: Record)
      reads this
    {
      identity == r.identity && lastActive == r.lastActive && closes == r.closes
    }

    method Close()
      modifies this`closes
      ensures closes == old(closes) + 1
    {
      closes := closes + 1;
    }

    method UpdateLastActive(now: int)
      modifies this`lastActive
      ensures lastActive == now
    {
      lastActive := now;
    }
  }

  class FunnelTracker {
    var funnels: map<FunnelID, Funnel>
    // Every funnel that was ever in the registry, in order, and what the registry should be.
    ghost var arrivals: seq<Funnel>
    ghost var registry: Registry

    /** The tracker holds what the registry says, and each funnel ever taken in was closed as often as it says. */
    ghost predicate Valid()
      reads this, arrivals
    {
      && Numbered(registry)
      && |arrivals| == |registry.records|
      && (forall i, j :: 0 <= i < j < |arrivals| ==> arrivals[i] != arrivals[j])
      && (forall k :: 0 <= k < |arrivals| ==> arrivals[k].Shows(registry.records[k]))
      && funnels.Keys == registry.funnels.Keys
      && (forall id :: id in funnels ==> funnels[id] == arrivals[registry.funnels[id]])
    }

    constructor ()
      ensures Valid() && registry == Registry(map[], []) && arrivals == []
    {
      funnels, arrivals, registry := map[], [], Registry(map[], []);
    }

    method Get(id: FunnelID) returns (funnel: Option<Funnel>)
      requires Valid()
      ensures funnel.Some? <==> id in registry.funnels
      ensures funnel.Some? ==> funnel.value == arrivals[registry.funnels[id]]
    {
      funnel := if id in funnels then Some(funnels[id]) else None;
    }

    // Closes the funnel under id and drops it.
    method CloseAndDelete(id: FunnelID)
      requires Valid() && id in funnels
      modifies this`funnels, this`registry, arrivals
      ensures Valid() && registry == Dropped(old(registry), id)
      ensures funnels == old(funnels) - {id}
    {
      funnels[id].Close();
      registry := Dropped(registry, id);
      funnels := funnels - {id};
    }

    method Insert(id: FunnelID, newFunnel: Funnel)
      requires Valid() && id !in funnels && newFunnel !in arrivals
      modifies this
      ensures Valid() && arrivals == old(arrivals) + [newFunnel]
      ensures registry == Added(old(registry), id, RecordOf(newFunnel))
      ensures funnels == old(funnels)[id := newFunnel]
    {
      funnels := funnels[id := newFunnel];
      registry := Added(registry, id, RecordOf(newFunnel));
      arrivals := arrivals + [newFunnel];
    }

    /** newFunnel is what making a funnel would give; it is taken in only when it is needed. */
    method GetOrRegisterFunnel(id: FunnelID, shouldReplace: bool, newFunnel: Option<Funnel>)
      returns (funnel: Option<Funnel>, isNew: bool)
      requires Valid()
      requires newFunnel.Some? ==> newFunnel.value !in arrivals
      modifies this, arrivals
      ensures Valid()
      ensures registry == Registered(old(registry), id, shouldReplace, old(RecordOfOption(newFunnel)))
      ensures isNew <==> newFunnel.Some? && (id !in old(funnels) || shouldReplace)
      ensures funnel == if id in old(funnels) && !shouldReplace then Some(old(funnels)[id]) else newFunnel
      ensures arrivals == if isNew then old(arrivals) + [newFunnel.value] else old(arrivals)
    {
      RegisteredInSteps(registry, id, shouldReplace, RecordOfOption(newFunnel));
      if id in funnels {
        if !shouldReplace {
          return Some(funnels[id]), false;
        }
        CloseAndDelete(id);
      }
      if newFunnel.None? {
        return None, false;
      }
      Insert(id, newFunnel.value);
      return newFunnel, true;
    }

    /** Closes the registered funnel if it equals the given one, which need not be the same object. */
    method Unregister(id: FunnelID, funnel: Funnel) returns (deleted: bool)
      requires Valid()
      modifies this`funnels, this`registry, arrivals
      ensures Valid() && registry == Unregistered(old(registry), id, funnel.identity)
      ensures deleted <==> id !in registry.funnels
    {
      if id !in funnels {
        return true;
      }
      if funnels[id].identity == funnel.identity {
        CloseAndDelete(id);
        return true;
      }
      return false;
    }

    method CloseIfIdle(id: FunnelID, now: int, idleTimeout: int)
      requires Valid() && id in registry.funnels
      modifies this`funnels, this`registry, arrivals
      ensures Valid()
      ensures registry ==
              if id in IdleIn(old(registry), now, idleTimeout) then Dropped(old(registry), id) else old(registry)
    {
      if now > funnels[id].lastActive + idleTimeout {
        CloseAndDelete(id);
      }
    }

    /** Closes and drops exactly the funnels without traffic for longer than the timeout. */
    method Cleanup(now: int, idleTimeout: int)
      requires Valid()
      modifies this`funnels, this`registry, arrivals
      ensures Valid() && registry == CleanedUp(old(registry), now, idleTimeout)
    {
      ghost var start, idle := registry, IdleIn(registry, now, idleTimeout);
      var todo := funnels.Keys;
      NoneGone(start, idle);
      while todo != {}
        invariant Valid() && todo <= registry.funnels.Keys && registry == Without(start, idle - todo)
        decreases todo
      {
        var id :| id in todo;
        OneMoreGone(start, idle, todo, id);
        CloseIfIdle(id, now, idleTimeout);
        todo := todo - {id};
      }
      assert idle - todo == idle;
    }

    // A packet for the funnel under id.
    method Traffic(id: FunnelID, now: int)
      requires Valid()
      modifies this`registry, arrivals
      ensures Valid() && registry == Touched(old(registry), id, now)
    {
      var funnel := Get(id);
      registry := Touched(registry, id, now);
      if funnel.Some? {
        funnel.value.UpdateLastActive(now);
      }
    }
  }

  function RecordOf(f: Funnel): Record
    reads f
  {
    Record(f.identity, f.lastActive, f.closes)
  }

  function RecordOfOption(f: Option<Funnel>): Option<Record>
    reads if f.Some? then {f.value} else {}
  {
    if f.Some? then Some(RecordOf(f.value)) else None
  }

  lemma RegisteredInSteps(r: Registry, id: FunnelID, shouldReplace: bool, record: Option<Record>)
    requires Numbered(r)
    ensures var dropped := if id in r.funnels then Dropped(r, id) else r;
            Registered(r, id, shouldReplace, record) ==
            if id in r.funnels && !shouldReplace then r
            else if record.None? then dropped
            else Added(dropped, id, record.value)
  {
  }

  lemma NoneGone(r: Registry, idle: set<FunnelID>)
    requires Numbered(r) && idle <= r.funnels.Keys
    ensures Without(r, idle - r.funnels.Keys) == r
  {
    assert idle - r.funnels.Keys == {};
    assert r.funnels - {} == r.funnels;
  }

  lemma OneMoreGone(r: Registry, idle: set<FunnelID>, todo: set<FunnelID>, id: FunnelID)
    requires Numbered(r) && id in r.funnels && id in todo
    ensures var now := Without(r, idle - todo);
            && id in now.funnels && Numbered(now) && now.records[now.funnels[id]] == r.records[r.funnels[id]]
            && Without(r, idle - (todo - {id})) == if id in idle then Dropped(now, id) else now
  {
    var gone := idle - todo;
    if id in idle {
      assert idle - (todo - {id}) == gone + {id};
      DroppedOne(r, gone, id);
    } else {
      assert idle - (todo - {id}) == gone;
    }
  }

  lemma DroppedOne(r: Registry, gone: set<FunnelID>, id: FunnelID)
    requires Numbered(r) && id in r.funnels && id !in gone
    ensures id in Without(r, gone).funnels && Numbered(Without(r, gone))
    ensures Dropped(Without(r, gone), id) == Without(r, gone + {id})
  {
    var a, b := Dropped(Without(r, gone), id), Without(r, gone + {id});
    assert a.funnels == b.funnels;
    forall k | 0 <= k < |r.records|
      ensures a.records[k] == b.records[k]
    {
      assert id in gone + {id};
    }
  }

  datatype Op =
    | Register(id: FunnelID, shouldReplace: bool, identity: nat, created: bool)
    | Unregister(id: FunnelID, identity: nat)
    | Cleanup(idleTimeout: int)
    | Traffic(id: FunnelID)

  function Next(r: Registry, op: Op, now: int): Registry
    requires Numbered(r)
  {
    match op
    case Register(id, shouldReplace, identity, created) =>
      Registered(r, id, shouldReplace, if created then Some(Record(identity, now, 0)) else None)
    case Unregister(id, identity) => Unregistered(r, id, identity)
    case Cleanup(idleTimeout) => CleanedUp(r, now, idleTimeout)
    case Traffic(id) => Touched(r, id, now)
  }

  /**
   An operation closes exactly the funnels it takes out of the registry, each once; it never closes one that it takes in
   or that had left before.
  */
  lemma LeavingIsClosing(r: Registry, op: Op, now: int)
    requires Numbered(r)
    ensures var r' := Next(r, op, now);
            && Numbered(r') && |r.records| <= |r'.records|
            && (forall k :: 0 <= k < |r.records| ==>
                  r'.records[k].closes ==
                  r.records[k].closes + if k in r.funnels.Values && k !in r'.funnels.Values then 1 else 0)
            && (forall k :: |r.records| <= k < |r'.records| ==> k in r'.funnels.Values && r'.records[k].closes == 0)
            && (forall k :: k in r'.funnels.Values ==> k in r.funnels.Values || |r.records| <= k)
  {
    var r' := Next(r, op, now);
    Arriving(r, op, now);
    forall k | 0 <= k < |r.records|
      ensures r'.records[k].closes ==
              r.records[k].closes + if k in r.funnels.Values && k !in r'.funnels.Values then 1 else 0
    {
      if k in r.funnels.Values {
        var id :| id in r.funnels && r.funnels[id] == k;
        LeavingOne(r, op, now, id);
      }
    }
  }

  // The numbering is kept, and what is tracked afterwards was tracked before or is new.
  lemma Arriving(r: Registry, op: Op, now: int)
    requires Numbered(r)
    ensures var r' := Next(r, op, now);
            && Numbered(r') && |r.records| <= |r'.records|
            && (forall k :: |r.records| <= k < |r'.records| ==> k in r'.funnels.Values && r'.records[k].closes == 0)
            && (forall k :: k in r'.funnels.Values ==> k in r.funnels.Values || |r.records| <= k)
  {
    var r' := Next(r, op, now);
    forall k | k in r'.funnels.Values
      ensures k in r.funnels.Values || |r.records| <= k
    {
      var id :| id in r'.funnels && r'.funnels[id] == k;
      assert (id in r.funnels && r.funnels[id] == k) || k == |r.records|;
    }
    if |r.records| < |r'.records| {
      assert op.id in r'.funnels && r'.funnels[op.id] == |r.records|;
    }
  }

  // One tracked funnel under an operation: it stays under its ID, or it is closed.
  lemma LeavingOne(r: Registry, op: Op, now: int, id: FunnelID)
    requires Numbered(r) && id in r.funnels
    ensures var k, r' := r.funnels[id], Next(r, op, now);
            && k < |r'.records|
            && r'.records[k].closes == r.records[k].closes + (if k in r'.funnels.Values then 0 else 1)
  {
    var k, r' := r.funnels[id], Next(r, op, now);
    forall j | j in r'.funnels && r'.funnels[j] == k
      ensures j == id
    {
      assert j in r.funnels && r.funnels[j] == k;
    }
    if id in r'.funnels && r'.funnels[id] == k {
      assert k in r'.funnels.Values;
    }
  }

  function Run(ops: seq<Op>, times: seq<int>): (r: Registry)
    requires |times| == |ops|
    ensures Numbered(r)
  {
    if ops == [] then Registry(map[], [])
    else
      var k := |ops| - 1;
      LeavingIsClosing(Run(ops[..k], times[..k]), ops[k], times[k]);
      Next(Run(ops[..k], times[..k]), ops[k], times[k])
  }

  /** After any run every funnel ever taken in is still there and was never closed, or is gone and was closed once. */
  lemma {:induction false} ClosedExactlyOnce(ops: seq<Op>, times: seq<int>, k: nat)
    requires |times| == |ops| && k < |Run(ops, times).records|
    ensures Run(ops, times).records[k].closes == if k in Run(ops, times).funnels.Values then 0 else 1
  {
    var n := |ops| - 1;
    var r := Run(ops[..n], times[..n]);
    LeavingIsClosing(r, ops[n], times[n]);
    if k < |r.records| {
      ClosedExactlyOnce(ops[..n], times[..n], k);
    }
  }

  // A run of the registry: its states, the operations between them and their times.
  ghost predicate IsRun(states: seq<Registry>, ops: seq<Op>, times: seq<int>) {
    && |times| == |ops| && |states| == |ops| + 1
    && states[0] == Registry(map[], [])
    && forall i :: 0 <= i < |ops| ==> StepAt(states, ops, times, i)
  }

  ghost predicate StepAt(states: seq<Registry>, ops: seq<Op>, times: seq<int>, i: nat)
    requires i < |ops| && |times| == |ops| && |states| == |ops| + 1
  {
    Numbered(states[i]) && states[i + 1] == Next(states[i], ops[i], times[i])
  }

  // The states of such a run are what Run says, so there is one for any operations.
  lemma {:induction false} RunExists(ops: seq<Op>, times: seq<int>) returns (states: seq<Registry>)
    requires |times| == |ops|
    ensures IsRun(states, ops, times) && states[|ops|] == Run(ops, times)
    decreases |ops|
  {
    if ops == [] {
      states := [Registry(map[], [])];
    } else {
      var k := |ops| - 1;
      var before := RunExists(ops[..k], times[..k]);
      states := before + [Run(ops, times)];
      forall i | 0 <= i < |ops|
        ensures StepAt(states, ops, times, i)
      {
        if i < k {
          assert StepAt(before, ops[..k], times[..k], i);
        }
      }
    }
  }

  /**
   Registering, after any operations: a funnel under the ID stays, with nothing changed, unless it should be replaced;
   otherwise the new one takes its place, and if making that fails there is none. Other IDs are not affected.
  */
  lemma RegisterExactly(states: seq<Registry>, ops: seq<Op>, times: seq<int>, n: nat)
    requires IsRun(states, ops, times) && n < |ops| && ops[n].Register?
    ensures var r, r', op := states[n], states[n + 1], ops[n];
            if op.id in r.funnels && !op.shouldReplace then r' == r
            else if !op.created then r'.funnels == r.funnels - {op.id} && |r'.records| == |r.records|
            else
              && r'.funnels == r.funnels[op.id := |r.records|] && |r'.records| == |r.records| + 1
              && r'.records[|r.records|] == Record(op.identity, times[n], 0)
  {
    assert StepAt(states, ops, times, n);
  }

  /** Unregistering, after any operations: the funnel under the ID goes exactly if it equals the given one. */
  lemma UnregisterExactly(states: seq<Registry>, ops: seq<Op>, times: seq<int>, n: nat)
    requires IsRun(states, ops, times) && n < |ops| && ops[n].Unregister?
    ensures Numbered(states[n])
    ensures var r, r', op := states[n], states[n + 1], ops[n];
            r'.funnels ==
            if op.id in r.funnels && r.records[r.funnels[op.id]].identity == op.identity then r.funnels - {op.id}
            else r.funnels
  {
    assert StepAt(states, ops, times, n);
  }

  // The n-th operation takes funnel k in under id, or is traffic of the funnel k that is there.
  ghost predicate Activates(states: seq<Registry>, ops: seq<Op>, times: seq<int>, n: nat, id: FunnelID, k: nat)
    requires IsRun(states, ops, times) && n < |ops|
  {
    && id in states[n + 1].funnels && states[n + 1].funnels[id] == k
    && (ops[n] == Traffic(id) || (ops[n].Register? && ops[n].id == id && k == |states[n].records|))
  }

  // From behind the m-th operation to the n-th, funnel k is there under id and has no traffic.
  ghost predicate QuietUnder(states: seq<Registry>, ops: seq<Op>, times: seq<int>, m: nat, n: nat, id: FunnelID, k: nat)
    requires IsRun(states, ops, times) && n <= |ops|
  {
    forall j :: m < j <= n ==>
                  && id in states[j].funnels && states[j].funnels[id] == k
                  && (j < n ==> ops[j] != Traffic(id))
  }

  lemma ActivitySet(states: seq<Registry>, ops: seq<Op>, times: seq<int>, n: nat, id: FunnelID, k: nat)
    requires IsRun(states, ops, times) && n < |ops| && Activates(states, ops, times, n, id, k)
    ensures k < |states[n + 1].records| && states[n + 1].records[k].lastActive == times[n]
  {
    assert StepAt(states, ops, times, n);
    if ops[n].Register? {
      RegisterExactly(states, ops, times, n);
    }
  }

  // Only traffic under its own ID changes a tracked funnel's last activity and nothing changes its identity.
  lemma ActivityKept(r: Registry, op: Op, now: int, id: FunnelID)
    requires Numbered(r) && id in r.funnels
    ensures var k, r' := r.funnels[id], Next(r, op, now);
            && k < |r'.records| && r'.records[k].identity == r.records[k].identity
            && (op != Traffic(id) ==> r'.records[k].lastActive == r.records[k].lastActive)
  {
  }

  lemma {:induction false} ActivityStays(
    states: seq<Registry>, ops: seq<Op>, times: seq<int>, m: nat, n: nat, id: FunnelID, k: nat)
    requires IsRun(states, ops, times) && m < n <= |ops|
    requires Activates(states, ops, times, m, id, k) && QuietUnder(states, ops, times, m, n, id, k)
    ensures k < |states[n].records| && states[n].records[k].lastActive == times[m]
    decreases n
  {
    if n == m + 1 {
      ActivitySet(states, ops, times, m, id, k);
    } else {
      var last := n - 1;
      assert QuietUnder(states, ops, times, m, last, id, k);
      ActivityStays(states, ops, times, m, last, id, k);
      assert id in states[last].funnels && states[last].funnels[id] == k && ops[last] != Traffic(id);
      QuietStep(states, ops, times, last, id);
    }
  }

  lemma QuietStep(states: seq<Registry>, ops: seq<Op>, times: seq<int>, n: nat, id: FunnelID)
    requires IsRun(states, ops, times) && n < |ops| && id in states[n].funnels && ops[n] != Traffic(id)
    ensures var r, r' := states[n], states[n + 1];
            var k := r.funnels[id];
            k < |r.records| && k < |r'.records| && r'.records[k].lastActive == r.records[k].lastActive
  {
    assert StepAt(states, ops, times, n);
    ActivityKept(states[n], ops[n], times[n], id);
  }

  // A funnel found under an ID was there before the last operation, or that one activated it.
  lemma ThereBefore(states: seq<Registry>, ops: seq<Op>, times: seq<int>, n: nat, id: FunnelID)
    requires IsRun(states, ops, times) && n < |ops| && id in states[n + 1].funnels
    ensures var r, k := states[n], states[n + 1].funnels[id];
            Activates(states, ops, times, n, id, k) || (id in r.funnels && r.funnels[id] == k && ops[n] != Traffic(id))
  {
    assert StepAt(states, ops, times, n);
  }

  // Every funnel there is has a last activity.
  lemma {:induction false} LastActivity(states: seq<Registry>, ops: seq<Op>, times: seq<int>, n: nat, id: FunnelID)
    returns (m: nat)
    requires IsRun(states, ops, times) && n <= |ops| && id in states[n].funnels
    ensures var k := states[n].funnels[id];
            m < n && Activates(states, ops, times, m, id, k) && QuietUnder(states, ops, times, m, n, id, k)
    decreases n
  {
    assert n > 0 by {
      assert states[0].funnels == map[];
    }
    var last := n - 1;
    var k := states[n].funnels[id];
    ThereBefore(states, ops, times, last, id);
    if Activates(states, ops, times, last, id, k) {
      m := last;
    } else {
      m := LastActivity(states, ops, times, last, id);
      forall j | m < j <= n
        ensures id in states[j].funnels && states[j].funnels[id] == k && (j < n ==> ops[j] != Traffic(id))
      {
        if j <= last {
          assert QuietUnder(states, ops, times, m, last, id, k);
        }
      }
    }
  }

  /**
   A cleanup, after any operations, drops a funnel exactly if more than the timeout has passed since it was taken in or
   last had traffic, whichever was the later; the others stay under their IDs.
  */
  lemma CleanupExactly(states: seq<Registry>, ops: seq<Op>, times: seq<int>, n: nat, id: FunnelID)
    returns (m: nat)
    requires IsRun(states, ops, times) && n < |ops| && ops[n].Cleanup? && id in states[n].funnels
    ensures var r, r' := states[n], states[n + 1];
            && m < n && Activates(states, ops, times, m, id, r.funnels[id])
            && QuietUnder(states, ops, times, m, n, id, r.funnels[id])
            && (id in r'.funnels <==> times[n] <= times[m] + ops[n].idleTimeout)
            && (id in r'.funnels ==> r'.funnels[id] == r.funnels[id])
            && (forall x :: x in r'.funnels ==> x in r.funnels)
  {
    var k := states[n].funnels[id];
    m := LastActivity(states, ops, times, n, id);
    ActivityStays(states, ops, times, m, n, id, k);
    assert id in states[n].funnels && states[n].funnels[id] == k;
    assert StepAt(states, ops, times, n);
  }

  method Perform(tracker: FunnelTracker, op: Op, now: int)
    requires tracker.Valid()
    modifies tracker, tracker.arrivals
    ensures tracker.Valid() && tracker.registry == Next(old(tracker.registry), op, now)
    ensures |old(tracker.arrivals)| <= |tracker.arrivals|
    ensures forall k :: 0 <= k < |old(tracker.arrivals)| ==> tracker.arrivals[k] == old(tracker.arrivals)[k]
    ensures forall k :: |old(tracker.arrivals)| <= k < |tracker.arrivals| ==> fresh(tracker.arrivals[k])
  {
    match op
    case Register(id, shouldReplace, identity, created) =>
      var newFunnel: Option<Funnel> := None;
      if created {
        var f := new Funnel(identity, now);
        newFunnel := Some(f);
      }
      var funnel, isNew := tracker.GetOrRegisterFunnel(id, shouldReplace, newFunnel);
    case Unregister(id, identity) =>
      var f := new Funnel(identity, now);
      var deleted := tracker.Unregister(id, f);
    case Cleanup(idleTimeout) =>
      tracker.Cleanup(now, idleTimeout);
    case Traffic(id) =>
      tracker.Traffic(id, now);
  }

  /**
   The tracker under any sequence of operations at any times, every new funnel being a new object, is what the run of
   the registry says; so each funnel it ever took in is still there and was never closed, or is gone and was closed
   once.
  */
  method AnyRun(ops: seq<Op>, times: seq<int>) returns (tracker: FunnelTracker)
    requires |times| == |ops|
    ensures tracker.Valid() && tracker.registry == Run(ops, times)
    ensures forall k :: 0 <= k < |tracker.arrivals| ==>
              tracker.arrivals[k].closes == if k in Run(ops, times).funnels.Values then 0 else 1
  {
    tracker := new FunnelTracker();
    for i := 0 to |ops|
      invariant fresh(tracker) && tracker.Valid()
      invariant forall k :: 0 <= k < |tracker.arrivals| ==> fresh(tracker.arrivals[k])
      invariant tracker.registry == Run(ops[..i], times[..i])
    {
      Perform(tracker, ops[i], times[i]);
      RunSnoc(ops, times, i);
    }
    assert ops[..|ops|] == ops && times[..|ops|] == times;
    ArrivalsClosedOnce(tracker, ops, times);
  }

  lemma ArrivalsClosedOnce(tracker: FunnelTracker, ops: seq<Op>, times: seq<int>)
    requires |times| == |ops| && tracker.Valid() && tracker.registry == Run(ops, times)
    ensures forall k :: 0 <= k < |tracker.arrivals| ==>
              tracker.arrivals[k].closes == if k in Run(ops, times).funnels.Values then 0 else 1
  {
    forall k | 0 <= k < |tracker.arrivals|
      ensures tracker.arrivals[k].closes == if k in Run(ops, times).funnels.Values then 0 else 1
    {
      ClosedExactlyOnce(ops, times, k);
      assert tracker.arrivals[k].Shows(tracker.registry.records[k]);
    }
  }

  lemma RunSnoc(ops: seq<Op>, times: seq<int>, i: nat)
    requires |times| == |ops| && i < |ops|
    ensures Run(ops[..i + 1], times[..i + 1]) == Next(Run(ops[..i], times[..i]), ops[i], times[i])
  {
    assert ops[..i + 1][..i] == ops[..i] && times[..i + 1][..i] == times[..i];
  }
}
