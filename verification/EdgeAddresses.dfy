/**
 When a connection asks for another edge address. Network errors always do; after maxRetries of them in a row the next
 one is reported as having reached the maximum, and counting starts over.
*/
module EdgeAddresses {
  import opened Results

  type Uint8 = n: nat | n < 256

  datatype EdgeError = NoError | DuplicateConnection | IdleTimeout | DialError | QuicDialError | OtherError

  // needsNewAddress, and for a connectivity error whether it reached the maximum.
  datatype Verdict = Verdict(needsNewAddress: bool, reachedMaxRetries: Option<bool>)

  // A missing entry counts as zero.
  function Retries(counts: map<Uint8, Uint8>, connIndex: Uint8): Uint8 {
    if connIndex in counts then counts[connIndex] else 0
  }

  predicate IsNetworkError(err: EdgeError) {
    err == DialError || err == QuicDialError
  }

  class IPAddrFallback {
    var retriesByConnIndex: map<Uint8, Uint8>
    const maxRetries: Uint8
    // The calls so far, and the verdicts given.
    ghost var calls: seq<(Uint8, EdgeError)>
    ghost var verdicts: seq<Verdict>

    /** The counter of each index is its number of network errors so far modulo maxRetries + 1. */
    ghost predicate Valid()
      reads this
    {
      && |calls| == |verdicts|
      && (forall i :: Retries(retriesByConnIndex, i) == NetworkErrors(calls, i) % (maxRetries + 1))
      && (forall k :: 0 <= k < |calls| ==> verdicts[k] == VerdictAt(calls, k, maxRetries))
    }

    constructor (maxRetries: Uint8)
      ensures Valid() && calls == [] && this.maxRetries == maxRetries
    {
      retriesByConnIndex, this.maxRetries := map[], maxRetries;
      calls, verdicts := [], [];
      new;
      ZeroModulo(maxRetries + 1);
    }

    method ShouldGetNewAddress(connIndex: Uint8, err: EdgeError) returns (v: Verdict)
      requires Valid()
      modifies this
      ensures Valid() && calls == old(calls) + [(connIndex, err)] && verdicts == old(verdicts) + [v]
      ensures v == VerdictAt(calls, |calls| - 1, maxRetries)
    {
      ghost var before := calls;
      calls := calls + [(connIndex, err)];
      CountSnoc(before, (connIndex, err));
      v := Verdict(false, None);
      if err == DuplicateConnection || err == IdleTimeout {
        v := Verdict(true, None);
      } else if err == DialError || err == QuicDialError {
        var retries := Retries(retriesByConnIndex, connIndex);
        CountModulo(NetworkErrors(before, connIndex), maxRetries + 1);
        if retries >= maxRetries {
          retriesByConnIndex := retriesByConnIndex[connIndex := 0];
          v := Verdict(true, Some(true));
        } else {
          retriesByConnIndex := retriesByConnIndex[connIndex := retries + 1];
          v := Verdict(true, Some(false));
        }
      }
      assert calls[..|before| + 1] == calls && calls[..|before|] == before;
      assert v == VerdictAt(calls, |before|, maxRetries);
      verdicts := verdicts + [v];
      VerdictsStay(before, calls, maxRetries);
    }
  }

  function NetworkErrors(calls: seq<(Uint8, EdgeError)>, connIndex: Uint8): nat {
    if calls == [] then 0
    else
      var last := calls[|calls| - 1];
      NetworkErrors(calls[..|calls| - 1], connIndex) + if last.0 == connIndex && IsNetworkError(last.1) then 1 else 0
  }

  /**
   The verdict on the k-th call in terms of the calls alone: a network error has reached the maximum exactly when it is,
   for its index, the (maxRetries + 1)-st, the 2 * (maxRetries + 1)-st and so on.
  */
  function VerdictAt(calls: seq<(Uint8, EdgeError)>, k: nat, maxRetries: Uint8): Verdict
    requires k < |calls|
  {
    var (connIndex, err) := calls[k];
    if IsNetworkError(err) then
      Verdict(true, Some(NetworkErrors(calls[..k + 1], connIndex) % (maxRetries + 1) == 0))
    else Verdict(err == DuplicateConnection || err == IdleTimeout, None)
  }

  /** Which errors make a connection ask for another address, and which of them count towards the maximum. */
  lemma WhoAsks(calls: seq<(Uint8, EdgeError)>, k: nat, maxRetries: Uint8)
    requires k < |calls|
    ensures var v, err := VerdictAt(calls, k, maxRetries), calls[k].1;
            && (v.needsNewAddress <==> err != NoError && err != OtherError)
            && (v.reachedMaxRetries.Some? <==> err == DialError || err == QuicDialError)
  {
  }

  lemma ZeroModulo(m: nat)
    requires m > 0
    ensures 0 % m == 0
  {
  }

  lemma CountSnoc(calls: seq<(Uint8, EdgeError)>, call: (Uint8, EdgeError))
    ensures forall i :: NetworkErrors(calls + [call], i) ==
                        NetworkErrors(calls, i) + if call.0 == i && IsNetworkError(call.1) then 1 else 0
  {
    assert (calls + [call])[..|calls|] == calls;
  }

  lemma AtLeast(k: int, m: nat)
    requires k >= 1
    ensures k * m >= m
  {
  }

  // Quotient and remainder are unique.
  lemma DivideUnique(n: nat, m: nat, q: nat, r: nat)
    requires r < m && n == q * m + r
    ensures n / m == q && n % m == r
  {
    var q', r' := n / m, n % m;
    assert n == q' * m + r';
    assert (q' - q) * m == r - r' && (q - q') * m == r' - r;
    if q' > q {
      AtLeast(q' - q, m);
    } else if q > q' {
      AtLeast(q - q', m);
    }
  }

  lemma CountModulo(n: nat, m: nat)
    requires m > 0
    ensures (n + 1) % m == if n % m == m - 1 then 0 else n % m + 1
    ensures (n + 1) / m == n / m + if n % m == m - 1 then 1 else 0
  {
    var q, r := n / m, n % m;
    assert n == q * m + r;
    if r == m - 1 {
      assert (q + 1) * m == q * m + m;
      DivideUnique(n + 1, m, q + 1, 0);
    } else {
      DivideUnique(n + 1, m, q, r + 1);
    }
  }

  lemma VerdictsStay(before: seq<(Uint8, EdgeError)>, after: seq<(Uint8, EdgeError)>, maxRetries: Uint8)
    requires |before| < |after| && after[..|before|] == before
    ensures forall k :: 0 <= k < |before| ==> VerdictAt(after, k, maxRetries) == VerdictAt(before, k, maxRetries)
  {
    forall k | 0 <= k < |before|
      ensures VerdictAt(after, k, maxRetries) == VerdictAt(before, k, maxRetries)
    {
      assert after[..k + 1] == before[..k + 1];
    }
  }

  /** Of the network errors of one index, every (maxRetries + 1)-st is reported as having reached the maximum. */
  lemma {:induction false} ReachedCount(calls: seq<(Uint8, EdgeError)>, connIndex: Uint8, maxRetries: Uint8)
    ensures Reached(calls, connIndex, maxRetries) == NetworkErrors(calls, connIndex) / (maxRetries + 1)
  {
    if calls != [] {
      var k := |calls| - 1;
      ReachedCount(calls[..k], connIndex, maxRetries);
      assert calls[..k + 1] == calls;
      LastReached(calls, connIndex, maxRetries);
    }
  }

  lemma LastReached(calls: seq<(Uint8, EdgeError)>, connIndex: Uint8, maxRetries: Uint8)
    requires calls != []
    ensures var k, m := |calls| - 1, maxRetries + 1;
            NetworkErrors(calls, connIndex) / m ==
            NetworkErrors(calls[..k], connIndex) / m +
            if calls[k].0 == connIndex && VerdictAt(calls, k, maxRetries).reachedMaxRetries == Some(true) then 1 else 0
  {
    var k := |calls| - 1;
    assert calls[..k + 1] == calls;
    CountModulo(NetworkErrors(calls[..k], connIndex), maxRetries + 1);
  }

  // How often the calls reported the maximum for the index.
  function Reached(calls: seq<(Uint8, EdgeError)>, connIndex: Uint8, maxRetries: Uint8): nat {
    if calls == [] then 0
    else
      var k := |calls| - 1;
      Reached(calls[..k], connIndex, maxRetries) +
      if calls[k].0 == connIndex && VerdictAt(calls, k, maxRetries).reachedMaxRetries == Some(true) then 1 else 0
  }
}
