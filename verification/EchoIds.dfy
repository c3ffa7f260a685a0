/**
 The allocator that gives every (source, destination, echo ID) of an ICMP echo its own 16-bit echo ID. IDs are handed
 out in cyclic order, so a released ID is reused as late as possible.
*/
module EchoIds {
  import opened Results
  import opened Text

  const MAX_UINT16: nat := 65535

  // netip.Addr: the bytes of an address.
  type Addr = seq<Byte>

  datatype Flow3Tuple = Flow3Tuple(srcIP: Addr, dstIP: Addr, originalEchoID: int)

  // The three fields of echoIDTracker.
  datatype Tracker = Tracker(mapping: map<Flow3Tuple, nat>, assignment: seq<bool>, nextAssignment: nat)

  ghost predicate Held(mapping: map<Flow3Tuple, nat>, id: nat) {
    exists key :: key in mapping && mapping[key] == id
  }

  /** No ID is held twice, the array marks exactly the held IDs, and the cursor is a 16-bit number. */
  ghost predicate Inv(t: Tracker) {
    && |t.assignment| == MAX_UINT16
    && t.nextAssignment <= MAX_UINT16
    && (forall key :: key in t.mapping ==> t.mapping[key] < MAX_UINT16)
    && (forall a, b :: a in t.mapping && b in t.mapping && t.mapping[a] == t.mapping[b] ==> a == b)
    && (forall id :: 0 <= id < MAX_UINT16 ==> (t.assignment[id] <==> Held(t.mapping, id)))
  }

  function Empty(): Tracker {
    Tracker(map[], seq(MAX_UINT16, _ => false), 0)
  }

  lemma EmptyInv()
    ensures Inv(Empty())
  {
  }

  // Where the search begins: a cursor behind the last ID starts over.
  function Start(t: Tracker): nat {
    if t.nextAssignment == MAX_UINT16 then 0 else t.nextAssignment
  }

  // The first free index in [lo, hi), or hi.
  function FirstFree(a: seq<bool>, lo: nat, hi: nat): (id: nat)
    requires lo <= hi <= |a|
    ensures lo <= id <= hi
    ensures forall j :: lo <= j < id ==> a[j]
    ensures id < hi ==> !a[id]
    decreases hi - lo
  {
    if lo == hi || !a[lo] then lo else FirstFree(a, lo + 1, hi)
  }

  // The two searches: from the cursor to the end, then from the beginning to the cursor.
  function Search(a: seq<bool>, start: nat): Option<nat>
    requires start < |a|
  {
    var high := FirstFree(a, start, |a|);
    if high < |a| then Some(high)
    else
      var low := FirstFree(a, 0, start);
      if low < start then Some(low) else None
  }

  function Set(t: Tracker, key: Flow3Tuple, id: nat): Tracker
    requires id < |t.assignment|
  {
    Tracker(t.mapping[key := id], t.assignment[id := true], id + 1)
  }

  function GetOrAssign(t: Tracker, key: Flow3Tuple): (r: (Tracker, Option<nat>))
    requires |t.assignment| == MAX_UINT16 && t.nextAssignment <= MAX_UINT16
  {
    if key in t.mapping then (t, Some(t.mapping[key]))
    else
      match Search(t.assignment, Start(t))
      case Some(id) => (Set(t, key, id), Some(id))
      case None => (t.(nextAssignment := Start(t)), None)
  }

  function Release(t: Tracker, key: Flow3Tuple, assignedID: nat): (r: (Tracker, bool))
    requires |t.assignment| == MAX_UINT16
    requires forall k :: k in t.mapping ==> t.mapping[k] < MAX_UINT16
  {
    if key in t.mapping && t.mapping[key] == assignedID then
      (t.(mapping := t.mapping - {key}, assignment := t.assignment[assignedID := false]), true)
    else (t, false)
  }

  // How many steps a search that begins at the cursor takes to the ID, going on from 65534 to 0.
  function StepsFrom(cursor: nat, id: nat): nat {
    (id - cursor) % 65535
  }

  lemma StepsAre(cursor: nat, id: nat)
    requires cursor <= 65535 && id < 65535
    ensures StepsFrom(cursor, id) ==
            if cursor == 65535 then id else if cursor <= id then id - cursor else id - cursor + 65535
  {
  }

  lemma SearchFindsNearest(t: Tracker, id: nat, j: nat)
    requires |t.assignment| == MAX_UINT16 && t.nextAssignment <= MAX_UINT16
    requires Search(t.assignment, Start(t)) == Some(id) && j < MAX_UINT16 && !t.assignment[j]
    ensures id < MAX_UINT16 && StepsFrom(t.nextAssignment, id) <= StepsFrom(t.nextAssignment, j)
  {
    StepsAre(t.nextAssignment, id);
    StepsAre(t.nextAssignment, j);
  }

  /**
   A held key keeps its ID and nothing changes. A new key gets the free ID that comes first in cyclic order from the
   cursor, and is refused only if every one of the 65535 IDs is held.
  */
  lemma GetOrAssignExactly(t: Tracker, key: Flow3Tuple)
    requires Inv(t)
    ensures var (t', r) := GetOrAssign(t, key);
            && Inv(t')
            && (r.Some? <==> key in t'.mapping)
            && (r.Some? ==> t'.mapping[key] == r.value && t'.mapping - {key} == t.mapping - {key})
            && (r.None? ==> t'.mapping == t.mapping && forall id :: 0 <= id < MAX_UINT16 ==> Held(t.mapping, id))
            && (key in t.mapping ==> t' == t)
            && (key !in t.mapping && r.Some? ==>
                  && r.value < 65535 && !Held(t.mapping, r.value)
                  && t'.nextAssignment == r.value + 1
                  && forall id :: 0 <= id < 65535 && !Held(t.mapping, id) ==>
                       StepsFrom(t.nextAssignment, r.value) <= StepsFrom(t.nextAssignment, id))
            && (r.None? ==> t'.nextAssignment == t.nextAssignment % 65535)
  {
    if key !in t.mapping {
      match Search(t.assignment, Start(t))
      case Some(id) =>
        SetKeepsInv(t, key, id);
        forall j | 0 <= j < MAX_UINT16 && !Held(t.mapping, j)
          ensures StepsFrom(t.nextAssignment, id) <= StepsFrom(t.nextAssignment, j)
        {
          assert !t.assignment[j];
          SearchFindsNearest(t, id, j);
        }
      case None =>
        forall id | 0 <= id < MAX_UINT16
          ensures Held(t.mapping, id)
        {
          assert t.assignment[id];
        }
    }
  }

  lemma SetKeepsInv(t: Tracker, key: Flow3Tuple, id: nat)
    requires Inv(t) && key !in t.mapping && id < MAX_UINT16 && !t.assignment[id]
    ensures Inv(Set(t, key, id))
    ensures Set(t, key, id).mapping - {key} == t.mapping - {key}
  {
    var t' := Set(t, key, id);
    assert !Held(t.mapping, id);
    forall i | 0 <= i < MAX_UINT16
      ensures t'.assignment[i] <==> Held(t'.mapping, i)
    {
      if Held(t.mapping, i) {
        var k :| k in t.mapping && t.mapping[k] == i;
        assert k in t'.mapping && t'.mapping[k] == i;
      }
      if i == id {
        assert t'.mapping[key] == i;
      } else if Held(t'.mapping, i) {
        var k :| k in t'.mapping && t'.mapping[k] == i;
        assert k in t.mapping;
      }
    }
  }

  /** Release frees the ID of a key that holds it, and is without effect for any other pair. */
  lemma ReleaseExactly(t: Tracker, key: Flow3Tuple, assignedID: nat)
    requires Inv(t)
    ensures var (t', done) := Release(t, key, assignedID);
            && Inv(t')
            && (done <==> key in t.mapping && t.mapping[key] == assignedID)
            && (done ==> t'.mapping == t.mapping - {key} && !Held(t'.mapping, assignedID))
            && (!done ==> t' == t)
            && t'.nextAssignment == t.nextAssignment
  {
    var (t', done) := Release(t, key, assignedID);
    if done {
      forall i | 0 <= i < MAX_UINT16
        ensures t'.assignment[i] <==> Held(t'.mapping, i)
      {
        if Held(t.mapping, i) {
          var k :| k in t.mapping && t.mapping[k] == i;
          if i != assignedID {
            assert k in t'.mapping && t'.mapping[k] == i;
          }
        }
        if Held(t'.mapping, i) {
          var k :| k in t'.mapping && t'.mapping[k] == i;
          assert k in t.mapping && k != key;
        }
      }
    }
  }

  /** Assigning and releasing are inverse: what is left differs from the start in the cursor only. */
  lemma AssignThenRelease(t: Tracker, key: Flow3Tuple)
    requires Inv(t) && key !in t.mapping && GetOrAssign(t, key).1.Some?
    ensures var (t', r) := GetOrAssign(t, key);
            Inv(t') && Release(t', key, r.value) == (t.(nextAssignment := r.value + 1), true)
  {
    GetOrAssignExactly(t, key);
    var (t', r) := GetOrAssign(t, key);
    assert t.mapping[key := r.value] - {key} == t.mapping;
    assert t.assignment[r.value := true][r.value := false] == t.assignment;
  }

  datatype Op = Assign(key: Flow3Tuple) | Free(key: Flow3Tuple, id: nat)

  function Next(t: Tracker, op: Op): Tracker
    requires |t.assignment| == MAX_UINT16 && t.nextAssignment <= MAX_UINT16
    requires forall k :: k in t.mapping ==> t.mapping[k] < MAX_UINT16
  {
    match op
    case Assign(key) => GetOrAssign(t, key).0
    case Free(key, id) => Release(t, key, id).0
  }

  ghost predicate IsRun(states: seq<Tracker>, ops: seq<Op>) {
    && |states| == |ops| + 1
    && states[0] == Empty()
    && forall i :: 0 <= i < |ops| ==> StepAt(states, ops, i)
  }

  ghost predicate StepAt(states: seq<Tracker>, ops: seq<Op>, i: nat)
    requires i < |ops| && |states| == |ops| + 1
  {
    Inv(states[i]) && states[i + 1] == Next(states[i], ops[i])
  }

  // The i-th operation hands out id to a new key.
  ghost predicate HandsOut(states: seq<Tracker>, ops: seq<Op>, i: nat, id: nat)
    requires i < |ops| && |states| == |ops| + 1
  {
    && ops[i].Assign? && ops[i].key !in states[i].mapping
    && ops[i].key in states[i + 1].mapping && states[i + 1].mapping[ops[i].key] == id
  }

  // The ID is held in some state after the m-th operation and up to the k-th state.
  ghost predicate HeldSince(states: seq<Tracker>, m: nat, k: nat, id: nat)
    requires k < |states|
  {
    exists j :: m < j <= k && Held(states[j].mapping, id)
  }

  lemma {:induction false} RunKeepsInv(states: seq<Tracker>, ops: seq<Op>, n: nat)
    requires IsRun(states, ops) && n < |states|
    ensures Inv(states[n])
  {
    if n == 0 {
      EmptyInv();
    } else {
      RunKeepsInv(states, ops, n - 1);
      assert StepAt(states, ops, n - 1);
      match ops[n - 1]
      case Assign(key) => GetOrAssignExactly(states[n - 1], key);
      case Free(key, id) => ReleaseExactly(states[n - 1], key, id);
    }
  }

  // How the cursor moves: only when an ID is handed out, and then to behind it.
  lemma CursorMoves(states: seq<Tracker>, ops: seq<Op>, i: nat)
    requires IsRun(states, ops) && i < |ops|
    ensures Inv(states[i]) && Inv(states[i + 1])
    ensures (exists id :: HandsOut(states, ops, i, id)) ||
            states[i + 1].nextAssignment % 65535 == states[i].nextAssignment % 65535
    ensures forall id: nat :: HandsOut(states, ops, i, id) ==>
              && id < 65535 && states[i + 1].nextAssignment == id + 1 && Held(states[i + 1].mapping, id)
              && var c := states[i].nextAssignment;
                 forall y: nat :: y < 65535 && StepsFrom(c, y) < StepsFrom(c, id) ==> Held(states[i].mapping, y)
  {
    RunKeepsInv(states, ops, i);
    RunKeepsInv(states, ops, i + 1);
    assert StepAt(states, ops, i);
    match ops[i]
    case Assign(key) =>
      GetOrAssignExactly(states[i], key);
      var r := GetOrAssign(states[i], key).1;
      if key !in states[i].mapping && r.Some? {
        assert HandsOut(states, ops, i, r.value);
      }
    case Free(key, id) => ReleaseExactly(states[i], key, id);
  }

  // Going on from the cursor c, y comes before z, seen from behind x.
  lemma Between(x: nat, c: nat, y: nat, z: nat)
    requires StepsFrom(x + 1, c) <= StepsFrom(x + 1, y) < StepsFrom(x + 1, z)
    ensures StepsFrom(c, y) < StepsFrom(c, z)
  {
  }

  lemma SameCursor(x: nat, c: nat, d: nat)
    requires c % 65535 == d % 65535
    ensures StepsFrom(x, c) == StepsFrom(x, d)
  {
  }

  lemma OneFurther(x: nat, r: nat, y: nat)
    requires x < 65535 && r < 65535 && y < 65535 && y != r
    requires StepsFrom(x + 1, y) < StepsFrom(x + 1, r + 1)
    ensures r != x && StepsFrom(x + 1, y) < StepsFrom(x + 1, r)
  {
  }

  // What the last operation has to do with an ID that the cursor has passed: it was handed out by it, or passed by it,
  // or passed before.
  lemma LastPassed(states: seq<Tracker>, ops: seq<Op>, k: nat, x: nat, y: nat)
    requires IsRun(states, ops) && k < |ops| && x < 65535 && y < 65535
    requires StepsFrom(x + 1, y) < StepsFrom(x + 1, states[k + 1].nextAssignment)
    ensures || Held(states[k + 1].mapping, y)
            || (exists r: nat :: HandsOut(states, ops, k, r) && StepsFrom(x + 1, y) < StepsFrom(x + 1, r))
            || StepsFrom(x + 1, y) < StepsFrom(x + 1, states[k].nextAssignment)
  {
    CursorMoves(states, ops, k);
    if r :| HandsOut(states, ops, k, r) {
      if y != r {
        OneFurther(x, r, y);
      }
    } else {
      SameCursor(x + 1, states[k + 1].nextAssignment, states[k].nextAssignment);
    }
  }

  // Since x was handed out, every ID the cursor has passed on its way from behind x has been held.
  lemma {:induction false} PassedWereHeld(states: seq<Tracker>, ops: seq<Op>, m: nat, k: nat, x: nat, y: nat)
    requires IsRun(states, ops) && m < k < |states| && HandsOut(states, ops, m, x)
    requires x < 65535 && states[m + 1].nextAssignment == x + 1
    requires y < 65535 && StepsFrom(x + 1, y) < StepsFrom(x + 1, states[k].nextAssignment)
    ensures HeldSince(states, m, k, y)
    decreases k, 0
  {
    if k > m + 1 {
      var last := k - 1;
      LastPassed(states, ops, last, x, y);
      if Held(states[k].mapping, y) {
      } else if r: nat :| HandsOut(states, ops, last, r) && StepsFrom(x + 1, y) < StepsFrom(x + 1, r) {
        PassedEarlier(states, ops, m, last, x, y, r);
      } else {
        PassedWereHeld(states, ops, m, last, x, y);
      }
    }
  }

  // The search that ended at r passed y, or the cursor had passed it before.
  lemma {:induction false} PassedEarlier(states: seq<Tracker>, ops: seq<Op>, m: nat, k: nat, x: nat, y: nat, r: nat)
    requires IsRun(states, ops) && m < k < |ops| && HandsOut(states, ops, m, x) && HandsOut(states, ops, k, r)
    requires x < 65535 && states[m + 1].nextAssignment == x + 1
    requires y < 65535 && StepsFrom(x + 1, y) < StepsFrom(x + 1, r)
    ensures HeldSince(states, m, k, y)
    decreases k, 1
  {
    CursorMoves(states, ops, k);
    var c := states[k].nextAssignment;
    if StepsFrom(x + 1, y) < StepsFrom(x + 1, c) {
      PassedWereHeld(states, ops, m, k, x, y);
    } else {
      Between(x, c, y, r);
      assert Held(states[k].mapping, y);
    }
  }

  /**
   In every run, an ID is handed out again as late as possible: by then every other ID has been held at some time since.
  */
  lemma ReusedLast(states: seq<Tracker>, ops: seq<Op>, m: nat, n: nat, x: nat, y: nat)
    requires IsRun(states, ops) && m < n < |ops|
    requires HandsOut(states, ops, m, x) && HandsOut(states, ops, n, x)
    requires y < 65535 && y != x
    ensures HeldSince(states, m, n, y)
  {
    CursorMoves(states, ops, m);
    PassedEarlier(states, ops, m, n, x, y, x);
  }

  // Distinct numbers below n are at most n, and n of them are all of them.
  lemma {:induction false} Below(s: set<nat>, n: nat)
    requires forall i :: i in s ==> i < n
    ensures |s| <= n
    ensures |s| == n <==> forall i: nat :: i < n ==> i in s
  {
    if n == 0 {
      assert s == {};
    } else {
      var rest := s - {n - 1};
      Below(rest, n - 1);
      if |s| == n {
        assert n - 1 in s;
      }
      if forall i: nat :: i < n ==> i in s {
        assert forall i: nat :: i < n - 1 ==> i in rest;
      }
    }
  }

  lemma {:induction false} InjectiveSize(m: map<Flow3Tuple, nat>)
    requires forall a, b :: a in m && b in m && m[a] == m[b] ==> a == b
    ensures |m.Values| == |m|
    decreases |m|
  {
    if m == map[] {
      assert m.Values == {};
    } else {
      var k :| k in m;
      var rest := m - {k};
      InjectiveSize(rest);
      forall v
        ensures v in m.Values <==> v in rest.Values + {m[k]}
      {
        if v in m.Values {
          var j :| j in m && m[j] == v;
          assert j == k || (j in rest && rest[j] == v);
        }
        if v in rest.Values {
          var j :| j in rest && rest[j] == v;
          assert j in m && m[j] == v;
        }
      }
      assert m.Values == rest.Values + {m[k]};
      assert m[k] !in rest.Values;
      assert m.Keys == rest.Keys + {k};
      assert |m.Keys| == |m| && |rest.Keys| == |rest|;
    }
  }

  /** Refusal in numbers: a new key is refused exactly when 65535 keys hold IDs already. */
  lemma RefusedIffFull(t: Tracker, key: Flow3Tuple)
    requires Inv(t) && key !in t.mapping
    ensures |t.mapping| <= 65535
    ensures GetOrAssign(t, key).1.None? <==> |t.mapping| == 65535
  {
    GetOrAssignExactly(t, key);
    InjectiveSize(t.mapping);
    Below(t.mapping.Values, MAX_UINT16);
    var r := GetOrAssign(t, key).1;
    if r.None? {
      forall i: nat | i < MAX_UINT16
        ensures i in t.mapping.Values
      {
        assert Held(t.mapping, i);
      }
    } else {
      assert r.value !in t.mapping.Values;
    }
  }

  /** The tracker itself: a fixed array, a map and a cursor, updated in place. */
  class EchoIDTracker {
    var mapping: map<Flow3Tuple, nat>
    const assignment: array<bool>
    var nextAssignment: nat

    constructor ()
      ensures fresh(assignment) && assignment.Length == 65535
      ensures State() == Empty()
    {
      mapping := map[];
      assignment := new bool[MAX_UINT16](_ => false);
      nextAssignment := 0;
      new;
      assert assignment[..] == Empty().assignment;
    }

    function State(): Tracker
      reads this, assignment
    {
      Tracker(mapping, assignment[..], nextAssignment)
    }

    method SetID(key: Flow3Tuple, assignedEchoID: nat)
      requires assignedEchoID < assignment.Length
      modifies this, assignment
      ensures State() == Set(old(State()), key, assignedEchoID)
    {
      assignment[assignedEchoID] := true;
      mapping := mapping[key := assignedEchoID];
      nextAssignment := assignedEchoID + 1;
    }

    method GetOrAssignID(key: Flow3Tuple) returns (id: nat, success: bool)
      requires Inv(State())
      modifies this, assignment
      ensures var (t, r) := GetOrAssign(old(State()), key);
              State() == t && success == r.Some? && id == if r.Some? then r.value else 0
      ensures Inv(State())
    {
      assert Inv(GetOrAssign(State(), key).0) by {
        GetOrAssignExactly(State(), key);
      }
      if key in mapping {
        return mapping[key], true;
      }
      if nextAssignment == MAX_UINT16 {
        nextAssignment := 0;
      }
      ghost var a, start := assignment[..], nextAssignment;
      for i := nextAssignment to assignment.Length
        invariant mapping == old(mapping) && assignment[..] == a && nextAssignment == start
        invariant FirstFree(a, start, |a|) == FirstFree(a, i, |a|)
      {
        if !assignment[i] {
          SetID(key, i);
          return i, true;
        }
      }
      for i := 0 to nextAssignment
        invariant mapping == old(mapping) && assignment[..] == a && nextAssignment == start
        invariant FirstFree(a, 0, start) == FirstFree(a, i, start)
      {
        if !assignment[i] {
          SetID(key, i);
          return i, true;
        }
      }
      return 0, false;
    }

    method ReleaseID(key: Flow3Tuple, assignedID: nat) returns (done: bool)
      requires Inv(State())
      modifies this, assignment
      ensures (State(), done) == Release(old(State()), key, assignedID)
      ensures Inv(State())
    {
      ReleaseExactly(State(), key, assignedID);
      if key in mapping && mapping[key] == assignedID {
        mapping := mapping - {key};
        assignment[assignedID] := false;
        return true;
      }
      return false;
    }
  }
}
