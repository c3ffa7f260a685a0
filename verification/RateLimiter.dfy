/**
 The sliding-window limiter: at most 20 accepted calls per identifier in any 60 seconds. Per identifier a queue of
 times is kept, from which the outdated ones are dropped at each call. Times are reals and do not go backwards.
*/
module RateLimiter {
  const RATE_LIMIT_WINDOW_SECONDS := 60.0
  const RATE_LIMIT_MAX_REQUESTS := 20

  type Identifier = string
  type Buckets = map<Identifier, seq<real>>

  function Bucket(b: Buckets, id: Identifier): seq<real> {
    if id in b then b[id] else []
  }

  // The queue without the outdated times at its front.
  function Pruned(bucket: seq<real>, now: real): seq<real> {
    if bucket != [] && now - bucket[0] > RATE_LIMIT_WINDOW_SECONDS then Pruned(bucket[1..], now) else bucket
  }

  // One call: the buckets afterwards, and whether the call is refused.
  function Call(b: Buckets, id: Identifier, now: real): (Buckets, bool) {
    var bucket := Pruned(Bucket(b, id), now);
    if |bucket| >= RATE_LIMIT_MAX_REQUESTS then (b[id := bucket], true) else (b[id := bucket + [now]], false)
  }

  datatype Timed = Timed(id: Identifier, at: real)

  function After(calls: seq<Timed>): Buckets {
    if calls == [] then map[]
    else
      var last := calls[|calls| - 1];
      Call(After(calls[..|calls| - 1]), last.id, last.at).0
  }

  // Whether the last call is refused.
  predicate Refused(calls: seq<Timed>)
    requires calls != []
  {
    var last := calls[|calls| - 1];
    Call(After(calls[..|calls| - 1]), last.id, last.at).1
  }

  // The full history: the times of all accepted calls of one identifier.
  function Accepted(calls: seq<Timed>, id: Identifier): seq<real> {
    if calls == [] then []
    else
      var before := Accepted(calls[..|calls| - 1], id);
      var last := calls[|calls| - 1];
      if last.id == id && !Refused(calls) then before + [last.at] else before
  }

  ghost predicate Sorted(a: seq<real>) {
    forall i, j :: 0 <= i < j < |a| ==> a[i] <= a[j]
  }

  ghost predicate Monotone(calls: seq<Timed>) {
    forall i, j :: 0 <= i < j < |calls| ==> calls[i].at <= calls[j].at
  }

  // From where on the history lies within the window that ends now.
  function WindowStart(history: seq<real>, now: real): (k: nat)
    ensures k <= |history|
    ensures k < |history| ==> now - history[k] <= RATE_LIMIT_WINDOW_SECONDS
    ensures forall i :: 0 <= i < k ==> now - history[i] > RATE_LIMIT_WINDOW_SECONDS
    decreases |history|
  {
    if history != [] && now - history[0] > RATE_LIMIT_WINDOW_SECONDS then WindowStart(history[1..], now) + 1 else 0
  }

  // How many accepted calls lie in the closed window that ends now.
  function InWindow(history: seq<real>, now: real): nat {
    |history| - WindowStart(history, now)
  }

  lemma {:induction false} PrunedIsWindow(history: seq<real>, now: real)
    ensures Pruned(history, now) == history[WindowStart(history, now)..]
    decreases |history|
  {
    if history != [] && now - history[0] > RATE_LIMIT_WINDOW_SECONDS {
      PrunedIsWindow(history[1..], now);
    }
  }

  // Once a prefix is outdated, pruning the rest is pruning the whole.
  lemma {:induction false} WindowOfSuffix(history: seq<real>, k: nat, now: real)
    requires k <= |history| && forall i :: 0 <= i < k ==> now - history[i] > RATE_LIMIT_WINDOW_SECONDS
    ensures WindowStart(history, now) == WindowStart(history[k..], now) + k
    decreases k
  {
    if k > 0 {
      assert history[1..][k - 1..] == history[k..];
      WindowOfSuffix(history[1..], k - 1, now);
    } else {
      assert history[0..] == history;
    }
  }

  // The bucket is a suffix of the history, and what it leaves out was outdated at some earlier call.
  ghost predicate Represents(bucket: seq<real>, history: seq<real>, upTo: real) {
    && |bucket| <= |history|
    && bucket == history[|history| - |bucket|..]
    && forall i :: 0 <= i < |history| - |bucket| ==> upTo - history[i] > RATE_LIMIT_WINDOW_SECONDS
  }

  lemma PruneRepresents(bucket: seq<real>, history: seq<real>, before: real, now: real)
    requires Represents(bucket, history, before) && before <= now
    ensures Pruned(bucket, now) == history[WindowStart(history, now)..]
    ensures |Pruned(bucket, now)| == InWindow(history, now)
    ensures Represents(Pruned(bucket, now), history, now)
  {
    var k := |history| - |bucket|;
    WindowOfSuffix(history, k, now);
    PrunedIsWindow(bucket, now);
    assert history[k..][WindowStart(bucket, now)..] == history[WindowStart(history, now)..];
  }

  /** Any two accepted calls 20 apart are more than a window apart. */
  ghost predicate Spaced(history: seq<real>) {
    forall i, j :: 0 <= i && i + RATE_LIMIT_MAX_REQUESTS <= j < |history| ==>
                     history[j] - history[i] > RATE_LIMIT_WINDOW_SECONDS
  }

  // What is known about one identifier between calls.
  ghost predicate Good(bucket: seq<real>, history: seq<real>, now: real) {
    && Represents(bucket, history, now)
    && Sorted(history) && Spaced(history)
    && forall i :: 0 <= i < |history| ==> history[i] <= now
  }

  lemma AcceptKeepsGood(bucket: seq<real>, history: seq<real>, before: real, now: real)
    requires Good(bucket, history, before) && before <= now && |Pruned(bucket, now)| < RATE_LIMIT_MAX_REQUESTS
    ensures Good(Pruned(bucket, now) + [now], history + [now], now)
  {
    PruneRepresents(bucket, history, before, now);
    AcceptKeepsSpaced(history, now);
    AcceptRepresents(Pruned(bucket, now), history, now);
    SortedSnoc(history, now);
  }

  lemma SortedSnoc(history: seq<real>, now: real)
    requires Sorted(history) && forall i :: 0 <= i < |history| ==> history[i] <= now
    ensures Sorted(history + [now]) && forall i :: 0 <= i < |history| + 1 ==> (history + [now])[i] <= now
  {
  }

  lemma AcceptRepresents(bucket: seq<real>, history: seq<real>, now: real)
    requires Represents(bucket, history, now)
    ensures Represents(bucket + [now], history + [now], now)
  {
    var start := |history| - |bucket|;
    assert bucket + [now] == (history + [now])[start..];
  }

  lemma {:induction false} RunInvariant(calls: seq<Timed>, id: Identifier, now: real)
    requires Monotone(calls) && forall i :: 0 <= i < |calls| ==> calls[i].at <= now
    ensures Good(Bucket(After(calls), id), Accepted(calls, id), now)
  {
    if calls != [] {
      var k := |calls| - 1;
      var last := calls[k];
      RunInvariant(calls[..k], id, last.at);
      var history, bucket := Accepted(calls[..k], id), Bucket(After(calls[..k]), id);
      if last.id == id {
        if |Pruned(bucket, last.at)| >= RATE_LIMIT_MAX_REQUESTS {
          PruneRepresents(bucket, history, last.at, last.at);
        } else {
          AcceptKeepsGood(bucket, history, last.at, last.at);
        }
      }
      LaterIsGood(Bucket(After(calls), id), Accepted(calls, id), last.at, now);
    }
  }

  lemma LaterIsGood(bucket: seq<real>, history: seq<real>, before: real, now: real)
    requires Good(bucket, history, before) && before <= now
    ensures Good(bucket, history, now)
  {
  }

  lemma AcceptKeepsSpaced(history: seq<real>, now: real)
    requires Sorted(history) && Spaced(history) && InWindow(history, now) < RATE_LIMIT_MAX_REQUESTS
    ensures Spaced(history + [now])
  {
    var more := history + [now];
    forall i, j | 0 <= i && i + RATE_LIMIT_MAX_REQUESTS <= j < |more|
      ensures more[j] - more[i] > RATE_LIMIT_WINDOW_SECONDS
    {
      if j == |history| {
        assert i < WindowStart(history, now);
      }
    }
  }

  /**
   After any calls at times that do not go backwards, a call is refused exactly when 20 accepted calls of the same
   identifier lie within the last 60 seconds, and never when fewer do; and the pruned queue is exactly that part of the
   full history.
  */
  lemma RefusedExactly(calls: seq<Timed>, id: Identifier, now: real)
    requires Monotone(calls + [Timed(id, now)])
    ensures var history := Accepted(calls, id);
            && var recent := Within(history, now - 60.0, now);
            && (Refused(calls + [Timed(id, now)]) <==> |recent| == 20)
            && |recent| <= 20
            && Pruned(Bucket(After(calls), id), now) == history[WindowStart(history, now)..]
  {
    var all := calls + [Timed(id, now)];
    assert all[..|calls|] == calls;
    assert forall i :: 0 <= i < |calls| ==> calls[i].at == all[i].at && all[i].at <= all[|calls|].at;
    RunInvariant(calls, id, now);
    var history := Accepted(calls, id);
    PruneRepresents(Bucket(After(calls), id), history, now, now);
    WindowIsSmall(history, now);
    RecentAreWindow(history, now);
  }

  // The accepted calls within the last window are the ones behind the window's start.
  lemma RecentAreWindow(history: seq<real>, now: real)
    requires Sorted(history) && forall i :: 0 <= i < |history| ==> history[i] <= now
    ensures |Within(history, now - RATE_LIMIT_WINDOW_SECONDS, now)| == InWindow(history, now)
  {
    var start := WindowStart(history, now);
    var recent := Within(history, now - RATE_LIMIT_WINDOW_SECONDS, now);
    forall i | start <= i < |history|
      ensures i in recent
    {
      assert history[start] <= history[i];
    }
    RangeSize(recent, start, InWindow(history, now));
  }

  lemma {:induction false} RangeSize(s: set<int>, lo: int, n: nat)
    requires forall i :: i in s <==> lo <= i < lo + n
    ensures |s| == n
  {
    if n > 0 {
      RangeSize(s - {lo + n - 1}, lo, n - 1);
    } else {
      assert forall i :: i !in s;
      assert s == {};
    }
  }

  lemma WindowIsSmall(history: seq<real>, now: real)
    requires Spaced(history) && forall i :: 0 <= i < |history| ==> history[i] <= now
    ensures InWindow(history, now) <= RATE_LIMIT_MAX_REQUESTS
  {
    var start := WindowStart(history, now);
    if start < |history| {
      CloseTogether(history, start, |history| - 1);
    }
  }

  lemma CloseTogether(history: seq<real>, i: nat, j: nat)
    requires Spaced(history) && i < |history| && j < |history|
    requires history[j] - history[i] <= RATE_LIMIT_WINDOW_SECONDS
    ensures j < i + RATE_LIMIT_MAX_REQUESTS
  {
  }

  // The positions of the accepted calls within a closed interval.
  ghost function Within(history: seq<real>, from: real, to: real): set<int> {
    set i | 0 <= i < |history| && from <= history[i] <= to
  }

  /** Every closed interval of 60 seconds, wherever it lies, holds at most 20 accepted calls of an identifier. */
  lemma AtMostTwentyPerWindow(calls: seq<Timed>, id: Identifier, from: real)
    requires Monotone(calls)
    ensures |Within(Accepted(calls, id), from, from + 60.0)| <= 20
  {
    if calls != [] {
      RunInvariant(calls, id, calls[|calls| - 1].at);
    }
    var history := Accepted(calls, id);
    var first := FirstFrom(history, from);
    var inside := Within(history, from, from + RATE_LIMIT_WINDOW_SECONDS);
    forall i | i in inside
      ensures first <= i < first + RATE_LIMIT_MAX_REQUESTS
    {
      CloseTogether(history, first, i);
    }
    InRange(inside, first, RATE_LIMIT_MAX_REQUESTS);
  }

  // The first position that is not before the given time.
  function FirstFrom(history: seq<real>, from: real): (k: nat)
    ensures k <= |history| && forall i :: 0 <= i < k ==> history[i] < from
    ensures k < |history| ==> history[k] >= from
    decreases |history|
  {
    if history != [] && history[0] < from then FirstFrom(history[1..], from) + 1 else 0
  }

  lemma {:induction false} InRange(s: set<int>, lo: int, n: nat)
    requires forall i :: i in s ==> lo <= i < lo + n
    ensures |s| <= n
  {
    if n > 0 {
      InRange(s - {lo + n - 1}, lo, n - 1);
    } else {
      assert forall i :: i !in s;
      assert s == {};
    }
  }

  // The calls of one identifier only.
  function Only(calls: seq<Timed>, id: Identifier): seq<Timed> {
    if calls == [] then []
    else
      var before := Only(calls[..|calls| - 1], id);
      var last := calls[|calls| - 1];
      if last.id == id then before + [last] else before
  }

  /** Identifiers do not affect each other: what happens to one is what would happen without the others. */
  lemma {:induction false} IdentifiersIndependent(calls: seq<Timed>, id: Identifier)
    ensures Bucket(After(calls), id) == Bucket(After(Only(calls, id)), id)
    ensures Accepted(calls, id) == Accepted(Only(calls, id), id)
  {
    if calls != [] {
      var k := |calls| - 1;
      IdentifiersIndependent(calls[..k], id);
      var only, last := Only(calls[..k], id), calls[k];
      if last.id == id {
        assert (only + [last])[..|only|] == only;
        assert Refused(calls) == Refused(only + [last]);
      }
    }
  }

  /** The limiter with its table of queues, used in place. */
  class Limiter {
    var buckets: Buckets
    ghost var calls: seq<Timed>

    constructor ()
      ensures buckets == After(calls) && calls == []
    {
      buckets, calls := map[], [];
    }

    method IsRateLimited(identifier: Identifier, now: real) returns (limited: bool)
      requires buckets == After(calls) && Monotone(calls + [Timed(identifier, now)])
      modifies this
      ensures calls == old(calls) + [Timed(identifier, now)] && buckets == After(calls)
      ensures limited <==> |Within(Accepted(old(calls), identifier), now - 60.0, now)| == 20
      ensures forall other :: other != identifier ==> Bucket(buckets, other) == Bucket(old(buckets), other)
    {
      RefusedExactly(calls, identifier, now);
      ghost var before := calls;
      calls := calls + [Timed(identifier, now)];
      assert calls[..|before|] == before;
      var bucket := Bucket(buckets, identifier);
      while bucket != [] && now - bucket[0] > RATE_LIMIT_WINDOW_SECONDS
        invariant Pruned(bucket, now) == Pruned(Bucket(old(buckets), identifier), now)
        decreases |bucket|
      {
        bucket := bucket[1..];
      }
      if |bucket| >= RATE_LIMIT_MAX_REQUESTS {
        buckets := buckets[identifier := bucket];
        return true;
      }
      bucket := bucket + [now];
      buckets := buckets[identifier := bucket];
      return false;
    }
  }
}
