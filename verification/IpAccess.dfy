/**
 The IP access policy: the first rule whose network contains the address and whose ports cover the port decides, else
 the default. Port lists are slices of arrays and are sorted in place when a rule is validated, so that they can be
 searched by bisection; what that does to slices that overlap is worked out below.
 Whether a network contains an address is asked of the network, which is an abstract predicate here.
*/
module IpAccess {
  import opened Results
  import opened Text

  type IP = seq<Byte>

  const MIN_PORT := 1
  const MAX_PORT := 65535

  // The part of an array from lo up to but not including hi.
  datatype Slice = Slice(lo: nat, hi: nat)

  predicate Fits(sl: Slice, n: nat) {
    sl.lo <= sl.hi <= n
  }

  function At(s: seq<int>, sl: Slice): seq<int>
    requires Fits(sl, |s|)
  {
    s[sl.lo..sl.hi]
  }

  // A rule; the network may be missing. The ports are a slice of an array that others may hold too.
  datatype Rule = Rule(ipNet: Option<IP -> bool>, base: array<int>, ports: Slice, allow: bool)

  predicate Sliced(r: Rule) {
    Fits(r.ports, r.base.Length)
  }

  function PortsOf(r: Rule): seq<int>
    requires Sliced(r)
    reads r.base
  {
    r.base[r.ports.lo..r.ports.hi]
  }

  predicate Sorted(s: seq<int>) {
    forall i, j :: 0 <= i < j < |s| ==> s[i] <= s[j]
  }

  function Insert(x: int, s: seq<int>): (r: seq<int>)
    ensures |r| == |s| + 1
  {
    if s == [] || x <= s[0] then [x] + s else [s[0]] + Insert(x, s[1..])
  }

  // The sorted arrangement of s.
  function SortedOf(s: seq<int>): (r: seq<int>)
    ensures |r| == |s|
  {
    if s == [] then [] else Insert(s[0], SortedOf(s[1..]))
  }

  lemma PrependSorted(h: int, t: seq<int>)
    requires Sorted(t) && (t != [] ==> h <= t[0])
    ensures Sorted([h] + t)
  {
  }

  lemma {:induction false} InsertSorts(x: int, s: seq<int>)
    requires Sorted(s)
    ensures Sorted(Insert(x, s))
    ensures Insert(x, s) != [] && (Insert(x, s)[0] == x || (s != [] && Insert(x, s)[0] == s[0]))
  {
    if s != [] && x > s[0] {
      InsertSorts(x, s[1..]);
      PrependSorted(s[0], Insert(x, s[1..]));
    } else {
      PrependSorted(x, s);
    }
  }

  lemma {:induction false} InsertAdds(x: int, s: seq<int>)
    ensures multiset(Insert(x, s)) == multiset{x} + multiset(s)
  {
    if s != [] && x > s[0] {
      InsertAdds(x, s[1..]);
      assert s == [s[0]] + s[1..];
    }
  }

  lemma {:induction false} SortedOfSorts(s: seq<int>)
    ensures Sorted(SortedOf(s)) && multiset(SortedOf(s)) == multiset(s)
  {
    if s != [] {
      SortedOfSorts(s[1..]);
      InsertSorts(s[0], SortedOf(s[1..]));
      InsertAdds(s[0], SortedOf(s[1..]));
      assert s == [s[0]] + s[1..];
    }
  }

  lemma HeadIsLeast(a: seq<int>, x: int)
    requires Sorted(a) && x in multiset(a)
    ensures a != [] && a[0] <= x
  {
    assert x in a;
  }

  lemma TailMultiset(a: seq<int>)
    requires a != []
    ensures multiset(a[1..]) == multiset(a) - multiset{a[0]}
  {
    assert a == [a[0]] + a[1..];
  }

  lemma SameHead(a: seq<int>, b: seq<int>)
    requires Sorted(a) && Sorted(b) && multiset(a) == multiset(b) && a != []
    ensures b != [] && a[0] == b[0]
  {
    assert a[0] in multiset(a);
    HeadIsLeast(b, a[0]);
    assert b[0] in multiset(b);
    HeadIsLeast(a, b[0]);
  }

  /** There is only one sorted arrangement, so sort.Ints has no choice. */
  lemma {:induction false} SortedUnique(a: seq<int>, b: seq<int>)
    requires Sorted(a) && Sorted(b) && multiset(a) == multiset(b)
    ensures a == b
  {
    if a == [] {
      assert |multiset(b)| == 0;
    } else {
      SameHead(a, b);
      TailMultiset(a);
      TailMultiset(b);
      SortedUnique(a[1..], b[1..]);
      assert a == [a[0]] + a[1..] && b == [b[0]] + b[1..];
    }
  }

  lemma SameMembers(a: seq<int>, b: seq<int>)
    requires multiset(a) == multiset(b)
    ensures forall x :: x in a <==> x in b
    ensures |a| == |b|
  {
    forall x
      ensures x in a <==> x in b
    {
      assert x in a <==> x in multiset(a);
      assert x in b <==> x in multiset(b);
    }
    assert |multiset(a)| == |a| && |multiset(b)| == |b|;
  }

  lemma SortedAgain(s: seq<int>)
    ensures SortedOf(SortedOf(s)) == SortedOf(s)
  {
    SortedOfSorts(s);
    SortedOfSorts(SortedOf(s));
    SortedUnique(SortedOf(s), SortedOf(SortedOf(s)));
  }

  lemma SortedIsSearchable(s: seq<int>, x: int)
    ensures Sorted(SortedOf(s)) && |SortedOf(s)| == |s| && (x in SortedOf(s) <==> x in s)
  {
    SortedOfSorts(s);
    SameMembers(SortedOf(s), s);
  }

  // What sorting a slice does to the array.
  function SortSlice(s: seq<int>, sl: Slice): (r: seq<int>)
    requires Fits(sl, |s|)
    ensures |r| == |s|
  {
    s[..sl.lo] + SortedOf(At(s, sl)) + s[sl.hi..]
  }

  // sort.Ints.
  method SortInts(a: array<int>, sl: Slice)
    requires Fits(sl, a.Length)
    modifies a
    ensures a[..] == SortSlice(old(a[..]), sl)
  {
    var sorted := SortedOf(At(a[..], sl));
    forall i | 0 <= i < |sorted| {
      a[sl.lo + i] := sorted[i];
    }
  }

  // sort.SearchInts: the first position whose element is not below x.
  method SearchInts(s: seq<int>, x: int) returns (pos: nat)
    requires Sorted(s)
    ensures pos <= |s|
    ensures forall i :: 0 <= i < pos ==> s[i] < x
    ensures forall i :: pos <= i < |s| ==> x <= s[i]
    ensures x in s <==> pos < |s| && s[pos] == x
  {
    var low, high := 0, |s|;
    while low < high
      invariant 0 <= low <= high <= |s|
      invariant forall i :: 0 <= i < low ==> s[i] < x
      invariant forall i :: high <= i < |s| ==> x <= s[i]
    {
      var mid := (low + high) / 2;
      if s[mid] < x {
        low := mid + 1;
      } else {
        high := mid;
      }
    }
    pos := low;
  }

  predicate PortsValid(ports: seq<int>) {
    forall i :: 0 <= i < |ports| ==> MIN_PORT <= ports[i] <= MAX_PORT
  }

  // Whether the rule has a network and, in whatever order, only ports of the allowed range.
  predicate WellFormed(r: Rule)
    requires Sliced(r)
    reads r.base
  {
    r.ipNet.Some? && PortsValid(PortsOf(r))
  }

  /** A rule is well-formed exactly if it has a network and every port is one from 1 to 65535. */
  lemma WellFormedExactly(r: Rule)
    requires Sliced(r)
    ensures WellFormed(r) <==> r.ipNet.Some? && forall p :: p in PortsOf(r) ==> 1 <= p <= 65535
  {
    if WellFormed(r) {
      forall p | p in PortsOf(r)
        ensures 1 <= p <= 65535
      {
        var k :| 0 <= k < |PortsOf(r)| && PortsOf(r)[k] == p;
      }
    }
    assert forall k :: 0 <= k < |PortsOf(r)| ==> PortsOf(r)[k] in PortsOf(r);
  }

  lemma SortingKeepsValidity(s: seq<int>)
    ensures PortsValid(SortedOf(s)) <==> PortsValid(s)
  {
    SortedOfSorts(s);
    SameMembers(s, SortedOf(s));
    var t := SortedOf(s);
    if PortsValid(s) {
      forall i | 0 <= i < |t|
        ensures MIN_PORT <= t[i] <= MAX_PORT
      {
        assert t[i] in s;
      }
    }
    if PortsValid(t) {
      forall i | 0 <= i < |s|
        ensures MIN_PORT <= s[i] <= MAX_PORT
      {
        assert s[i] in t;
      }
    }
  }

  /** Validation sorts the ports as a side effect, except that a rule without a network is refused before that. */
  method Validate(r: Rule) returns (ok: bool)
    requires Sliced(r)
    modifies r.base
    ensures ok <==> old(WellFormed(r))
    ensures r.base[..] == if r.ipNet.Some? then SortSlice(old(r.base[..]), r.ports) else old(r.base[..])
  {
    if r.ipNet.None? {
      return false;
    }
    ghost var before, ports := r.base[..], PortsOf(r);
    SortingKeepsValidity(ports);
    assert At(before, r.ports) == ports;
    if r.ports.hi - r.ports.lo > 0 {
      SortInts(r.base, r.ports);
      SortedAt(before, r.ports);
      assert PortsOf(r) == At(r.base[..], r.ports) == SortedOf(ports);
      ok := InRange(r);
      return ok;
    }
    assert SortSlice(before, r.ports) == before;
    return true;
  }

  // The loop over the ports.
  method InRange(r: Rule) returns (ok: bool)
    requires Sliced(r)
    ensures ok <==> PortsValid(PortsOf(r))
  {
    for i := r.ports.lo to r.ports.hi
      invariant forall k :: r.ports.lo <= k < i ==> MIN_PORT <= r.base[k] <= MAX_PORT
    {
      if r.base[i] < MIN_PORT || r.base[i] > MAX_PORT {
        assert PortsOf(r)[i - r.ports.lo] == r.base[i];
        return false;
      }
    }
    return true;
  }

  lemma SortedAt(s: seq<int>, sl: Slice)
    requires Fits(sl, |s|)
    ensures At(SortSlice(s, sl), sl) == SortedOf(At(s, sl))
  {
  }

  // One slice after the other is sorted, all in the same array.
  function SortAll(s: seq<int>, slices: seq<Slice>): (r: seq<int>)
    requires forall t :: t in slices ==> Fits(t, |s|)
    ensures |r| == |s|
  {
    if slices == [] then s
    else
      var k := |slices| - 1;
      SortSlice(SortAll(s, slices[..k]), slices[k])
  }

  /** Two slices have nothing in common, or everything. */
  predicate Apart(a: Slice, b: Slice) {
    a == b || a.hi <= b.lo || b.hi <= a.lo || a.lo == a.hi || b.lo == b.hi
  }

  predicate AllApart(slices: seq<Slice>) {
    forall i, j :: 0 <= i < |slices| && 0 <= j < |slices| ==> Apart(slices[i], slices[j])
  }

  lemma SortingApart(s: seq<int>, sl: Slice, t: Slice)
    requires Fits(sl, |s|) && Fits(t, |s|) && Apart(sl, t)
    ensures At(SortSlice(s, sl), t) == if sl == t then SortedOf(At(s, t)) else At(s, t)
  {
    if sl == t {
      SortedAt(s, sl);
    } else if t.lo == t.hi {
      assert At(s, t) == [];
    } else if sl.lo == sl.hi {
      assert SortSlice(s, sl) == s;
    }
  }

  // Among slices that are apart, each is sorted as if it were alone.
  lemma {:induction false} EachAlone(s: seq<int>, slices: seq<Slice>, t: Slice)
    requires (forall u :: u in slices ==> Fits(u, |s|) && Apart(u, t)) && Fits(t, |s|)
    ensures At(SortAll(s, slices), t) == if t in slices then SortedOf(At(s, t)) else At(s, t)
  {
    if slices != [] {
      var k := |slices| - 1;
      var front, last := slices[..k], slices[k];
      assert forall u :: u in slices <==> u in front || u == last by {
        assert slices == front + [last];
      }
      EachAlone(s, front, t);
      SortingApart(SortAll(s, front), last, t);
      if last == t {
        SortedAgain(At(s, t));
      }
    }
  }

  /** Every slice ends up as the sorted arrangement of what it held: the same ports, in order. */
  ghost predicate KeepsPorts(s: seq<int>, slices: seq<Slice>)
    requires forall t :: t in slices ==> Fits(t, |s|)
  {
    forall t :: t in slices ==> At(SortAll(s, slices), t) == SortedOf(At(s, t))
  }

  // All 2, except for a 1 at position p.
  ghost predicate Marked(s: seq<int>, p: nat) {
    p < |s| && s[p] == 1 && forall k :: 0 <= k < |s| && k != p ==> s[k] == 2
  }

  function Twos(n: nat): (s: seq<int>)
    ensures |s| == n && forall i :: 0 <= i < n ==> s[i] == 2
  {
    seq(n, _ => 2)
  }

  // Sorting moves the mark to the front of a slice that holds it, and changes nothing else.
  lemma MarkMoves(s: seq<int>, sl: Slice, p: nat)
    requires Fits(sl, |s|) && Marked(s, p)
    ensures Marked(SortSlice(s, sl), if sl.lo <= p < sl.hi then sl.lo else p)
  {
    var x := At(s, sl);
    if sl.lo <= p < sl.hi {
      SortedMark(p - sl.lo, sl.hi - 1 - p);
      assert x == Twos(p - sl.lo) + [1] + Twos(sl.hi - 1 - p);
    } else {
      assert x == Twos(|x|);
      SortedOfSorts(x);
      SortedUnique(SortedOf(x), x);
    }
  }

  lemma {:induction false} SortedTwos(n: nat)
    ensures SortedOf(Twos(n)) == Twos(n)
  {
    if n > 0 {
      SortedTwos(n - 1);
      assert Twos(n)[1..] == Twos(n - 1);
      assert [2] + Twos(n - 1) == Twos(n);
    }
  }

  lemma {:induction false} SortedMark(q: nat, r: nat)
    ensures SortedOf(Twos(q) + [1] + Twos(r)) == [1] + Twos(q + r)
  {
    var x := Twos(q) + [1] + Twos(r);
    if q == 0 {
      assert x[1..] == Twos(r);
      SortedTwos(r);
    } else {
      SortedMark(q - 1, r);
      assert x[1..] == Twos(q - 1) + [1] + Twos(r);
      var rest := [1] + Twos(q - 1 + r);
      assert rest[1..] == Twos(q - 1 + r);
      assert Insert(2, Twos(q - 1 + r)) == [2] + Twos(q - 1 + r) == Twos(q + r);
    }
  }

  // Where the mark ends up: never to the right, and in front of every slice that reaches beyond it.
  lemma {:induction false} MarkEnds(s: seq<int>, slices: seq<Slice>, p: nat) returns (end: nat)
    requires (forall t :: t in slices ==> Fits(t, |s|)) && Marked(s, p)
    ensures Marked(SortAll(s, slices), end) && end <= p
    ensures forall t :: t in slices && p < t.hi ==> end <= t.lo
  {
    if slices == [] {
      end := p;
    } else {
      var k := |slices| - 1;
      var before := MarkEnds(s, slices[..k], p);
      MarkMoves(SortAll(s, slices[..k]), slices[k], before);
      end := if slices[k].lo <= before < slices[k].hi then slices[k].lo else before;
      assert slices == slices[..k] + [slices[k]];
    }
  }

  lemma MarkIn(s: seq<int>, p: nat, t: Slice)
    requires Marked(s, p) && Fits(t, |s|)
    ensures 1 in At(s, t) <==> t.lo <= p < t.hi
  {
    if t.lo <= p < t.hi {
      assert At(s, t)[p - t.lo] == 1;
    }
  }

  // A mark that leaves a slice or enters one: the slice does not keep its ports.
  lemma MarkTells(s: seq<int>, slices: seq<Slice>, p: nat, end: nat, t: Slice)
    requires (forall u :: u in slices ==> Fits(u, |s|)) && t in slices
    requires Marked(s, p) && Marked(SortAll(s, slices), end)
    requires (t.lo <= p < t.hi) != (t.lo <= end < t.hi)
    ensures !KeepsPorts(s, slices)
  {
    MarkIn(s, p, t);
    MarkIn(SortAll(s, slices), end, t);
    SortedIsSearchable(At(s, t), 1);
  }

  // Contents that two overlapping slices, the first not beginning behind the second, do not keep.
  lemma OverlapLoses(n: nat, slices: seq<Slice>, a: Slice, b: Slice) returns (s: seq<int>)
    requires (forall t :: t in slices ==> Fits(t, n)) && a in slices && b in slices
    requires !Apart(a, b) && a.lo <= b.lo && (a.lo == b.lo ==> a.hi < b.hi)
    ensures |s| == n && PortsValid(s) && !KeepsPorts(s, slices)
  {
    var p := if a.lo < b.lo then b.lo else a.hi;
    s := Twos(n)[p := 1];
    var end := MarkEnds(s, slices, p);
    if a.lo < b.lo || end < b.lo {
      MarkTells(s, slices, p, end, b);
    } else {
      MarkTells(s, slices, p, end, a);
    }
  }

  /**
   Validating all the rules whose ports lie in one array leaves every rule its ports, whatever they are, if and only if
   any two of the slices have nothing in common or everything.
  */
  lemma LayoutExactly(n: nat, slices: seq<Slice>)
    requires forall t :: t in slices ==> Fits(t, n)
    ensures (forall s: seq<int> :: |s| == n && PortsValid(s) ==> KeepsPorts(s, slices)) <==> AllApart(slices)
  {
    if AllApart(slices) {
      forall s: seq<int>, t | |s| == n && PortsValid(s) && t in slices
        ensures At(SortAll(s, slices), t) == SortedOf(At(s, t))
      {
        EachAlone(s, slices, t);
      }
    } else {
      var i, j :| 0 <= i < |slices| && 0 <= j < |slices| && !Apart(slices[i], slices[j]);
      var a, b := slices[i], slices[j];
      var s;
      if a.lo < b.lo || (a.lo == b.lo && a.hi < b.hi) {
        s := OverlapLoses(n, slices, a, b);
      } else {
        s := OverlapLoses(n, slices, b, a);
      }
    }
  }

  /** 5 and 9 in one rule, 9 and 1 in the next: the first then has 5 and 1, and not even in order. */
  lemma OverlapWitness()
    ensures SortAll([5, 9, 1], [Slice(0, 2), Slice(1, 3)]) == [5, 1, 9]
  {
    var first, second := Slice(0, 2), Slice(1, 3);
    assert [first, second][..1] == [first] && [first][..0] == [];
    assert At([5, 9, 1], first) == [5, 9] && [5, 9][1..] == [9];
    assert SortedOf([9]) == [9];
    assert SortedOf([5, 9]) == [5, 9];
    assert SortSlice([5, 9, 1], first) == [5, 9, 1];
    assert At([5, 9, 1], second) == [9, 1] && [9, 1][1..] == [1];
    assert SortedOf([1]) == [1];
    assert SortedOf([9, 1]) == Insert(9, [1]) == [1, 9];
    assert SortAll([5, 9, 1], [first]) == [5, 9, 1];
  }

  // As long as the slices sorted so far hold valid ports only, sorting them does not change which slices do.
  lemma {:induction false} ValidityStays(s: seq<int>, slices: seq<Slice>, t: Slice)
    requires (forall u :: u in slices ==> Fits(u, |s|) && PortsValid(At(s, u))) && Fits(t, |s|)
    ensures PortsValid(At(SortAll(s, slices), t)) <==> PortsValid(At(s, t))
  {
    ValidPositions(s, slices);
    var s' := SortAll(s, slices);
    forall k | 0 <= k < |At(s, t)|
      ensures IsPort(At(s', t)[k]) <==> IsPort(At(s, t)[k])
    {
      assert IsPort(s'[t.lo + k]) <==> IsPort(s[t.lo + k]);
    }
    if PortsValid(At(s, t)) {
      forall k | 0 <= k < |At(s', t)|
        ensures MIN_PORT <= At(s', t)[k] <= MAX_PORT
      {
        assert IsPort(At(s, t)[k]);
      }
    }
    if PortsValid(At(s', t)) {
      forall k | 0 <= k < |At(s, t)|
        ensures MIN_PORT <= At(s, t)[k] <= MAX_PORT
      {
        assert IsPort(At(s', t)[k]);
      }
    }
  }

  predicate IsPort(x: int) {
    MIN_PORT <= x <= MAX_PORT
  }

  lemma {:induction false} ValidPositions(s: seq<int>, slices: seq<Slice>)
    requires forall u :: u in slices ==> Fits(u, |s|) && PortsValid(At(s, u))
    ensures forall k :: 0 <= k < |s| ==> (IsPort(SortAll(s, slices)[k]) <==> IsPort(s[k]))
  {
    if slices != [] {
      var n := |slices| - 1;
      var before, sl := SortAll(s, slices[..n]), slices[n];
      ValidPositions(s, slices[..n]);
      forall k | 0 <= k < |At(before, sl)|
        ensures MIN_PORT <= At(before, sl)[k] <= MAX_PORT
      {
        assert IsPort(before[sl.lo + k]) <==> IsPort(s[sl.lo + k]);
        assert At(s, sl)[k] == s[sl.lo + k];
      }
      SortingKeepsValidity(At(before, sl));
      var after := SortSlice(before, sl);
      forall k | 0 <= k < |s|
        ensures IsPort(after[k]) <==> IsPort(before[k])
      {
        if sl.lo <= k < sl.hi {
          assert after[k] == SortedOf(At(before, sl))[k - sl.lo] && before[k] == At(before, sl)[k - sl.lo];
        }
      }
    }
  }

  // What a rule says, as a value: the ports are the ones it was built with, in their original order.
  datatype Spec = Spec(ipNet: IP -> bool, ports: seq<int>, allow: bool)

  predicate Covers(r: Spec, ip: IP, port: int) {
    r.ipNet(ip) && (r.ports == [] || port in r.ports)
  }

  // The verdict, and the position of the rule that decided, if one did.
  function Verdict(rules: seq<Spec>, defaultAllow: bool, ip: IP, port: int): (bool, Option<nat>) {
    match FirstCovering(rules, ip, port)
    case None => (defaultAllow, None)
    case Some(i) => (rules[i].allow, Some(i))
  }

  function FirstCovering(rules: seq<Spec>, ip: IP, port: int): (r: Option<nat>)
    ensures r.Some? ==>
              && r.value < |rules| && rules[r.value].ipNet(ip)
              && (|rules[r.value].ports| == 0 || port in rules[r.value].ports)
    ensures forall i :: 0 <= i < (if r.Some? then r.value else |rules|) ==>
                          !rules[i].ipNet(ip) || (|rules[i].ports| > 0 && port !in rules[i].ports)
  {
    if rules == [] then None
    else if Covers(rules[0], ip, port) then Some(0)
    else
      match FirstCovering(rules[1..], ip, port)
      case None => None
      case Some(i) => Some(i + 1)
  }

  lemma {:induction false} FirstIs(rules: seq<Spec>, ip: IP, port: int, i: nat)
    requires i < |rules| && Covers(rules[i], ip, port) && forall j :: 0 <= j < i ==> !Covers(rules[j], ip, port)
    ensures FirstCovering(rules, ip, port) == Some(i)
  {
    if i > 0 {
      assert !Covers(rules[0], ip, port);
      FirstIs(rules[1..], ip, port, i - 1);
    }
  }

  // The rule at hand still says what its spec says, its ports being sorted by now.
  ghost predicate Carries(r: Rule, s: Spec)
    requires Sliced(r)
    reads r.base
  {
    && r.ipNet == Some(s.ipNet) && r.allow == s.allow
    && PortsOf(r) == SortedOf(s.ports)
  }

  /** A validated policy. rules is what the source keeps; specs is what the rules said when they were handed in. */
  class Policy {
    const defaultAllow: bool
    const rules: seq<Rule>
    ghost const specs: seq<Spec>

    ghost predicate Valid()
      reads this, set r | r in rules :: r.base
    {
      && |rules| == |specs|
      && forall i :: 0 <= i < |rules| ==> Sliced(rules[i]) && Carries(rules[i], specs[i])
    }

    constructor (defaultAllow: bool, rules: seq<Rule>, ghost specs: seq<Spec>)
      ensures this.defaultAllow == defaultAllow && this.rules == rules && this.specs == specs
    {
      this.defaultAllow, this.rules, this.specs := defaultAllow, rules, specs;
    }

    /**
     The verdict of the first rule, in order, that covers the address and port as originally written; else the default.
    */
    method Allowed(ip: IP, port: int) returns (allow: bool, rule: Option<nat>)
      requires Valid()
      ensures (allow, rule) == Verdict(specs, defaultAllow, ip, port)
    {
      if |rules| == 0 {
        return defaultAllow, None;
      }
      for i := 0 to |rules|
        invariant forall j :: 0 <= j < i ==> !Covers(specs[j], ip, port)
      {
        var r := rules[i];
        assert Carries(r, specs[i]);
        SortedIsSearchable(specs[i].ports, port);
        if r.ipNet.value(ip) {
          if r.ports.hi - r.ports.lo == 0 {
            FirstIs(specs, ip, port, i);
            return r.allow, Some(i);
          } else {
            var pos := SearchInts(PortsOf(r), port);
            if pos < r.ports.hi - r.ports.lo && r.base[r.ports.lo + pos] == port {
              FirstIs(specs, ip, port, i);
              return r.allow, Some(i);
            }
          }
        }
      }
      return defaultAllow, None;
    }
  }

  // What the rules say before validation.
  ghost predicate Says(r: Rule, s: Spec)
    requires Sliced(r)
    reads r.base
  {
    r.ipNet == Some(s.ipNet) && r.allow == s.allow && PortsOf(r) == s.ports
  }

  // The slices of one array that the rules have, in order.
  function SlicesOf(rules: seq<Rule>, base: array<int>): seq<Slice> {
    if rules == [] then []
    else
      var k := |rules| - 1;
      SlicesOf(rules[..k], base) + if rules[k].base == base then [rules[k].ports] else []
  }

  lemma {:induction false} SlicesAreRules(rules: seq<Rule>, base: array<int>)
    ensures forall t :: t in SlicesOf(rules, base) ==>
                          exists j :: 0 <= j < |rules| && rules[j].base == base && rules[j].ports == t
    ensures forall j :: 0 <= j < |rules| && rules[j].base == base ==> rules[j].ports in SlicesOf(rules, base)
  {
    if rules != [] {
      var k := |rules| - 1;
      SlicesAreRules(rules[..k], base);
      forall t | t in SlicesOf(rules, base)
        ensures exists j :: 0 <= j < |rules| && rules[j].base == base && rules[j].ports == t
      {
        if t in SlicesOf(rules[..k], base) {
          var j :| 0 <= j < k && rules[..k][j].base == base && rules[..k][j].ports == t;
          assert rules[j].base == base && rules[j].ports == t;
        } else {
          assert rules[k].base == base && rules[k].ports == t;
        }
      }
      forall j | 0 <= j < |rules| && rules[j].base == base
        ensures rules[j].ports in SlicesOf(rules, base)
      {
        if j < k {
          assert rules[..k][j] == rules[j];
        }
      }
    }
  }

  ghost predicate AllSliced(rules: seq<Rule>) {
    forall i :: 0 <= i < |rules| ==> Sliced(rules[i])
  }

  lemma SlicesFit(rules: seq<Rule>, base: array<int>)
    requires AllSliced(rules)
    ensures forall t :: t in SlicesOf(rules, base) ==> Fits(t, base.Length)
  {
    SlicesAreRules(rules, base);
  }

  /** No two rules have part of their ports in common. */
  ghost predicate RulesApart(rules: seq<Rule>) {
    forall i, j :: 0 <= i < |rules| && 0 <= j < |rules| && rules[i].base == rules[j].base ==>
                     Apart(rules[i].ports, rules[j].ports)
  }

  // What a rule's array held on entry, after the first rules have been validated.
  function SortedUpTo(was: seq<int>, rules: seq<Rule>, i: nat, base: array<int>): seq<int>
    requires AllSliced(rules) && i <= |rules| && |was| == base.Length
  {
    SlicesFit(rules[..i], base);
    SortAll(was, SlicesOf(rules[..i], base))
  }

  lemma SortedOneMore(was: seq<int>, rules: seq<Rule>, i: nat, base: array<int>)
    requires AllSliced(rules) && i < |rules| && |was| == base.Length
    ensures SortedUpTo(was, rules, i + 1, base) ==
            var before := SortedUpTo(was, rules, i, base);
            if rules[i].base == base then SortSlice(before, rules[i].ports) else before
  {
    assert rules[..i + 1][..i] == rules[..i];
    SlicesFit(rules[..i], base);
    SlicesFit(rules[..i + 1], base);
    var slices := SlicesOf(rules[..i], base);
    var more := slices + if rules[i].base == base then [rules[i].ports] else [];
    assert SlicesOf(rules[..i + 1], base) == more;
    if rules[i].base == base {
      assert more[..|slices|] == slices;
    } else {
      assert more == slices;
    }
  }

  // The check of a rule comes out as if it were the first.
  lemma CheckedAlone(was: seq<int>, rules: seq<Rule>, i: nat)
    requires AllSliced(rules) && i < |rules| && |was| == rules[i].base.Length
    requires forall j :: 0 <= j < i && rules[j].base == rules[i].base ==> PortsValid(At(was, rules[j].ports))
    ensures PortsValid(At(SortedUpTo(was, rules, i, rules[i].base), rules[i].ports)) <==>
            PortsValid(At(was, rules[i].ports))
  {
    var base := rules[i].base;
    SlicesAreRules(rules[..i], base);
    SlicesFit(rules[..i], base);
    forall u | u in SlicesOf(rules[..i], base)
      ensures PortsValid(At(was, u))
    {
      var j :| 0 <= j < i && rules[..i][j].base == base && rules[..i][j].ports == u;
      assert rules[j].base == base && rules[j].ports == u;
    }
    ValidityStays(was, SlicesOf(rules[..i], base), rules[i].ports);
  }

  // Rules that are apart keep their ports, sorted.
  lemma ApartKeep(was: seq<int>, rules: seq<Rule>, i: nat)
    requires AllSliced(rules) && RulesApart(rules) && i < |rules| && |was| == rules[i].base.Length
    ensures At(SortedUpTo(was, rules, |rules|, rules[i].base), rules[i].ports) == SortedOf(At(was, rules[i].ports))
  {
    assert rules[..|rules|] == rules;
    var base := rules[i].base;
    SlicesAreRules(rules, base);
    SlicesFit(rules, base);
    EachAlone(was, SlicesOf(rules, base), rules[i].ports);
  }

  // The j-th rule's array, which held was[j] on entry, after the first i rules have been validated.
  ghost predicate SortedFor(rules: seq<Rule>, was: seq<seq<int>>, i: nat, j: nat)
    requires AllSliced(rules) && i <= |rules| && j < |rules| && |was| == |rules| && |was[j]| == rules[j].base.Length
    reads rules[j].base
  {
    rules[j].base[..] == SortedUpTo(was[j], rules, i, rules[j].base)
  }

  ghost predicate AllSortedFor(rules: seq<Rule>, was: seq<seq<int>>, i: nat)
    requires AllSliced(rules) && Snapshot(rules, was) && i <= |rules|
    reads set r | r in rules :: r.base
  {
    forall j :: 0 <= j < |rules| ==> SortedFor(rules, was, i, j)
  }

  ghost predicate Snapshot(rules: seq<Rule>, was: seq<seq<int>>) {
    |was| == |rules| && forall j :: 0 <= j < |rules| ==> |was[j]| == rules[j].base.Length
  }

  // The rule is well-formed by what its array held on entry.
  predicate WasWellFormed(rules: seq<Rule>, was: seq<seq<int>>, j: nat)
    requires AllSliced(rules) && Snapshot(rules, was) && j < |rules|
  {
    rules[j].ipNet.Some? && PortsValid(At(was[j], rules[j].ports))
  }

  /**
   The loop of NewPolicy: every rule is validated until one fails. It succeeds exactly if every rule is well-formed to
   begin with, however their ports overlap, and then every array has had the rules' slices sorted in order.
  */
  method ValidateRules(rules: seq<Rule>, ghost was: seq<seq<int>>) returns (ok: bool)
    requires AllSliced(rules) && Snapshot(rules, was)
    requires forall j :: 0 <= j < |rules| ==> was[j] == rules[j].base[..]
    modifies set r | r in rules :: r.base
    ensures ok <==> forall j :: 0 <= j < |rules| ==> WasWellFormed(rules, was, j)
    ensures ok ==> AllSortedFor(rules, was, |rules|)
  {
    SameArrays(rules, was);
    NoneYet(rules, was);
    for i := 0 to |rules|
      invariant forall j :: 0 <= j < i ==> WasWellFormed(rules, was, j)
      invariant AllSortedFor(rules, was, i)
    {
      var valid := ValidateNext(rules, was, i);
      if !valid {
        return false;
      }
    }
    return true;
  }

  // Rules with one array have one snapshot of it.
  ghost predicate Consistent(rules: seq<Rule>, was: seq<seq<int>>)
    requires Snapshot(rules, was)
  {
    forall i, j :: 0 <= i < |rules| && 0 <= j < |rules| && rules[i].base == rules[j].base ==> was[i] == was[j]
  }

  lemma SameArrays(rules: seq<Rule>, was: seq<seq<int>>)
    requires Snapshot(rules, was) && forall j :: 0 <= j < |rules| ==> was[j] == rules[j].base[..]
    ensures Consistent(rules, was)
  {
  }

  lemma NoneYet(rules: seq<Rule>, was: seq<seq<int>>)
    requires AllSliced(rules) && Snapshot(rules, was) && forall j :: 0 <= j < |rules| ==> was[j] == rules[j].base[..]
    ensures AllSortedFor(rules, was, 0)
  {
    forall j | 0 <= j < |rules|
      ensures SortedFor(rules, was, 0, j)
    {
      assert rules[..0] == [];
    }
  }

  // One turn of the loop.
  method ValidateNext(rules: seq<Rule>, ghost was: seq<seq<int>>, i: nat) returns (valid: bool)
    requires AllSliced(rules) && Snapshot(rules, was) && Consistent(rules, was) && i < |rules|
    requires forall j :: 0 <= j < i ==> WasWellFormed(rules, was, j)
    requires AllSortedFor(rules, was, i)
    modifies rules[i].base
    ensures valid <==> WasWellFormed(rules, was, i)
    ensures valid ==> AllSortedFor(rules, was, i + 1)
  {
    ghost var base := rules[i].base;
    forall j | 0 <= j < i && rules[j].base == base
      ensures PortsValid(At(was[i], rules[j].ports))
    {
      assert WasWellFormed(rules, was, j) && was[i] == was[j];
    }
    CheckedAlone(was[i], rules, i);
    assert SortedFor(rules, was, i, i);
    assert PortsOf(rules[i]) == At(base[..], rules[i].ports);
    label before:
    valid := Validate(rules[i]);
    if valid {
      ghost var next := i + 1;
      forall j | 0 <= j < |rules|
        ensures SortedFor(rules, was, next, j)
      {
        SortedOneMore(was[j], rules, i, rules[j].base);
        assert old@before(SortedFor(rules, was, i, j));
      }
    }
  }

  /**
   A policy is made exactly if every rule is well-formed. It decides by what the rules said if no two of them have part
   of their ports in common; rules may share all of them.
  */
  method NewPolicy(defaultAllow: bool, rules: seq<Rule>, ghost specs: seq<Spec>) returns (policy: Option<Policy>)
    requires |specs| == |rules| && AllSliced(rules)
    requires forall i :: 0 <= i < |rules| && rules[i].ipNet.Some? ==> Says(rules[i], specs[i])
    modifies set r | r in rules :: r.base
    ensures policy.Some? <==> forall i :: 0 <= i < |rules| ==> old(WellFormed(rules[i]))
    ensures policy.Some? ==>
              && policy.value.defaultAllow == defaultAllow
              && policy.value.rules == rules && policy.value.specs == specs
              && (forall i :: 0 <= i < |rules| ==>
                    rules[i].base[..] == SortedUpTo(old(rules[i].base[..]), rules, |rules|, rules[i].base))
    ensures policy.Some? && RulesApart(rules) ==> policy.value.Valid()
  {
    ghost var was := seq(|rules|, i requires 0 <= i < |rules| => old(rules[i].base[..]));
    var ok := ValidateRules(rules, was);
    forall i | 0 <= i < |rules|
      ensures WasWellFormed(rules, was, i) <==> old(WellFormed(rules[i]))
    {
      assert At(was[i], rules[i].ports) == old(PortsOf(rules[i]));
    }
    if !ok {
      return None;
    }
    if RulesApart(rules) {
      forall i | 0 <= i < |rules|
        ensures Carries(rules[i], specs[i])
      {
        ApartKeep(was[i], rules, i);
        assert WasWellFormed(rules, was, i) && SortedFor(rules, was, |rules|, i);
        assert At(was[i], rules[i].ports) == old(PortsOf(rules[i]));
        assert PortsOf(rules[i]) == At(rules[i].base[..], rules[i].ports);
      }
    }
    forall i | 0 <= i < |rules|
      ensures rules[i].base[..] == SortedUpTo(old(rules[i].base[..]), rules, |rules|, rules[i].base)
    {
      assert SortedFor(rules, was, |rules|, i);
    }
    var made := new Policy(defaultAllow, rules, specs);
    policy := Some(made);
  }
}
