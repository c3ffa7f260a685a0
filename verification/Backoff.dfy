/**
 The exponential backoff handler. Durations are 64-bit nanosecond counts, and shifting one too far wraps around; a
 random draw from a bound that is not positive panics. Times are integers, a draw is any number below its bound.
*/
module Backoff {
  import opened Numerals
  import opened Results

  const SECOND: nat := 1_000_000_000
  const TWO_TO_THE_63: nat := 0x8000_0000_0000_0000

  // The fields of BackoffHandler; no deadline stands for the zero time.
  datatype Handler = Handler(
    maxRetries: nat, retryForever: bool, baseTime: nat, retries: nat, resetDeadline: Option<int>)

  // int64 arithmetic.
  function Wrap64(x: int): int {
    (x + TWO_TO_THE_63) % TWO_TO_THE_64 - TWO_TO_THE_63
  }

  function ShiftLeft(x: int, n: nat): int {
    Wrap64(x * Pow(2, n))
  }

  function NewBackoff(maxRetries: nat, baseTime: nat, retryForever: bool): Handler {
    Handler(maxRetries, retryForever, baseTime, 0, None)
  }

  function BaseTime(h: Handler): nat {
    if h.baseTime == 0 then SECOND else h.baseTime
  }

  predicate Elapsed(h: Handler, now: int) {
    h.resetDeadline.Some? && now > h.resetDeadline.value
  }

  // What GetMaxBackoffDuration reports, or None when there is to be no retry.
  function MaxBackoffDuration(h: Handler, now: int, contextDone: bool): Option<int> {
    if contextDone then None
    else if Elapsed(h, now) then Some(SECOND)
    else if h.retries >= h.maxRetries && !h.retryForever then None
    else Some(ShiftLeft(BaseTime(h), h.retries + 1))
  }

  function ResetIfElapsed(h: Handler, now: int): Handler {
    if Elapsed(h, now) then h.(retries := 0, resetDeadline := None) else h
  }

  // BackoffTimer gives no timer, panics, or waits for the drawn time.
  datatype Draw = NoTimer | Panicked | Wait(duration: int)

  // rand.Int63n.
  function DrawBelow(bound: int, random: nat): Draw {
    if bound <= 0 then Panicked else Wait(random % bound)
  }

  function TimerBound(h: Handler): int {
    Wrap64(BaseTime(h) * ShiftLeft(1, h.retries))
  }

  function Timer(h: Handler, now: int, random: nat): (Handler, Draw) {
    var r := ResetIfElapsed(h, now);
    if r.retries >= r.maxRetries then
      (r, if r.retryForever then DrawBelow(TimerBound(r), random) else NoTimer)
    else
      var s := r.(retries := r.retries + 1);
      (s, DrawBelow(TimerBound(s), random))
  }

  function GraceBound(h: Handler): int {
    ShiftLeft(Wrap64(BaseTime(h) * 2), h.retries + 1)
  }

  function GracePeriod(h: Handler, now: int, random: nat): (Handler, Draw) {
    match DrawBelow(GraceBound(h), random)
    case Wait(d) => (h.(resetDeadline := Some(now + d)), Wait(d))
    case other => (h, other)
  }

  function ResetNow(h: Handler, now: int): Handler {
    h.(resetDeadline := Some(now), retries := 0)
  }

  function ReachedMaxRetries(h: Handler): bool {
    h.retries == h.maxRetries
  }

  function Min(a: nat, b: nat): nat {
    if a < b then a else b
  }

  lemma WrapSmall(x: int)
    requires x < TWO_TO_THE_63 && -x <= TWO_TO_THE_63
    ensures Wrap64(x) == x
  {
  }

  // Exactly the values from 2^63 to 2^64 turn negative on the first overflow.
  lemma WrapFirstOverflow(x: int)
    requires TWO_TO_THE_63 <= x < TWO_TO_THE_64
    ensures Wrap64(x) < 0
  {
    assert Wrap64(x) == x - TWO_TO_THE_64;
  }

  lemma {:induction false} ShiftedBy(x: int, k: int)
    ensures Wrap64(x + k * TWO_TO_THE_64) == Wrap64(x)
    decreases if k < 0 then -k else k
  {
    if k > 0 {
      ShiftedBy(x, k - 1);
      assert x + k * TWO_TO_THE_64 == x + (k - 1) * TWO_TO_THE_64 + TWO_TO_THE_64;
      OneTurn(x + (k - 1) * TWO_TO_THE_64);
    } else if k < 0 {
      ShiftedBy(x, k + 1);
      OneTurn(x + k * TWO_TO_THE_64);
    }
  }

  lemma OneTurn(x: int)
    ensures Wrap64(x + TWO_TO_THE_64) == Wrap64(x)
  {
  }

  // Wrapping a factor early makes no difference.
  lemma WrapFactor(a: int, b: int)
    ensures Wrap64(a * Wrap64(b)) == Wrap64(a * b)
  {
    var k := (b + TWO_TO_THE_63) / TWO_TO_THE_64;
    assert Wrap64(b) == b - k * TWO_TO_THE_64;
    assert a * Wrap64(b) == a * b + (-(a * k)) * TWO_TO_THE_64;
    ShiftedBy(a * b, -(a * k));
  }

  /** The two bounds in 64-bit arithmetic are the wrapped powers-of-two multiples of the base time. */
  lemma BoundsWrapped(h: Handler)
    ensures TimerBound(h) == Wrap64(BaseTime(h) * Pow(2, h.retries))
    ensures GraceBound(h) == Wrap64(BaseTime(h) * Pow(2, h.retries + 2))
  {
    var b, p := BaseTime(h), Pow(2, h.retries);
    WrapFactor(b, p);
    WrapFactor(Pow(2, h.retries + 1), b * 2);
    assert Pow(2, h.retries + 2) == 2 * Pow(2, h.retries + 1);
    assert Pow(2, h.retries + 1) * (b * 2) == b * (2 * Pow(2, h.retries + 1));
    assert Wrap64(b * 2) * Pow(2, h.retries + 1) == Pow(2, h.retries + 1) * Wrap64(b * 2);
  }

  lemma ScaledMonotone(b: nat, m: nat, n: nat)
    requires m <= n
    ensures b * Pow(2, m) <= b * Pow(2, n)
  {
    PowMonotone(2, m, n);
    MulMonotone(b, Pow(2, m), Pow(2, n));
  }

  lemma MulMonotone(b: nat, p: nat, q: nat)
    requires p <= q
    ensures b * p <= b * q
  {
  }

  lemma Positive(b: nat, n: nat)
    requires b > 0 && b * Pow(2, n) < TWO_TO_THE_63
    ensures Wrap64(b * Pow(2, n)) == b * Pow(2, n) > 0
  {
    PowPositive(2, n);
    assert b * Pow(2, n) > 0;
    WrapSmall(b * Pow(2, n));
  }

  /** As long as base * 2^(maxRetries + 2) fits int64, no shift overflows and nothing panics, in any state. */
  lemma ShiftsPositive(h: Handler, now: int, random: nat)
    requires h.retries <= h.maxRetries
    requires BaseTime(h) * Pow(2, h.maxRetries + 2) < TWO_TO_THE_63
    ensures TimerBound(h) == BaseTime(h) * Pow(2, h.retries) > 0
    ensures GraceBound(h) == BaseTime(h) * Pow(2, h.retries + 2) > 0
    ensures ShiftLeft(BaseTime(h), h.retries + 1) == BaseTime(h) * Pow(2, h.retries + 1) > 0
    ensures !Timer(h, now, random).1.Panicked? && !GracePeriod(h, now, random).1.Panicked?
  {
    BoundsPositive(h);
    BoundsPositive(ResetIfElapsed(h, now));
    var r := ResetIfElapsed(h, now);
    if r.retries < r.maxRetries {
      BoundsPositive(r.(retries := r.retries + 1));
    }
  }

  lemma BoundsPositive(h: Handler)
    requires h.retries <= h.maxRetries
    requires BaseTime(h) * Pow(2, h.maxRetries + 2) < TWO_TO_THE_63
    ensures TimerBound(h) == BaseTime(h) * Pow(2, h.retries) > 0
    ensures GraceBound(h) == BaseTime(h) * Pow(2, h.retries + 2) > 0
    ensures ShiftLeft(BaseTime(h), h.retries + 1) == BaseTime(h) * Pow(2, h.retries + 1) > 0
  {
    BoundsWrapped(h);
    ScaledMonotone(BaseTime(h), h.retries, h.maxRetries + 2);
    ScaledMonotone(BaseTime(h), h.retries + 1, h.maxRetries + 2);
    ScaledMonotone(BaseTime(h), h.retries + 2, h.maxRetries + 2);
    Positive(BaseTime(h), h.retries);
    Positive(BaseTime(h), h.retries + 1);
    Positive(BaseTime(h), h.retries + 2);
  }

  // A new handler after n timers in a row.
  function Retried(h: Handler, n: nat): Handler {
    h.(retries := Min(n, h.maxRetries))
  }

  lemma RetriedNext(h: Handler, n: nat, now: int, random: nat)
    requires h.resetDeadline == None && h.retryForever
    ensures Timer(Retried(h, n), now, random) == (Retried(h, n + 1), DrawBelow(TimerBound(Retried(h, n + 1)), random))
  {
  }

  // The (k+1)-st timer of a new handler can be drawn at any time.
  ghost predicate Drawable(h: Handler, k: nat) {
    forall now, random: nat :: !Timer(Retried(h, k), now, random).1.Panicked?
  }

  /**
   The overflow is met exactly: the first n draws of a new handler all succeed if and only if
   base * 2^min(n, maxRetries) is below 2^63, because the first power that does not fit comes out negative.
  */
  lemma {:induction false} NonePanicsExactly(h: Handler, n: nat)
    requires h == NewBackoff(h.maxRetries, h.baseTime, true) && n >= 1 && BaseTime(h) < TWO_TO_THE_63
    ensures (forall k :: 0 <= k < n ==> Drawable(h, k)) <==>
            BaseTime(h) * Pow(2, Min(n, h.maxRetries)) < TWO_TO_THE_63
  {
    var b, m := BaseTime(h), Min(n, h.maxRetries);
    if b * Pow(2, m) < TWO_TO_THE_63 {
      forall k | 0 <= k < n
        ensures Drawable(h, k)
      {
        var r := Retried(h, k + 1);
        BoundsWrapped(r);
        ScaledMonotone(b, r.retries, m);
        Positive(b, r.retries);
        forall now, random: nat
          ensures !Timer(Retried(h, k), now, random).1.Panicked?
        {
          RetriedNext(h, k, now, random);
        }
      }
    } else {
      var k := FirstOverflow(b, m);
      BoundsWrapped(Retried(h, k));
      WrapFirstOverflow(b * Pow(2, k));
      RetriedNext(h, k - 1, 0, 0);
      assert Timer(Retried(h, k - 1), 0, 0).1.Panicked?;
      assert !Drawable(h, k - 1);
    }
  }

  // The least exponent at which b * 2^k no longer fits.
  function FirstOverflow(b: nat, m: nat): (k: nat)
    requires b < TWO_TO_THE_63 <= b * Pow(2, m)
    ensures 1 <= k <= m && TWO_TO_THE_63 <= b * Pow(2, k) < TWO_TO_THE_64
  {
    assert m > 0;
    assert b * Pow(2, m) == 2 * (b * Pow(2, m - 1));
    if b * Pow(2, m - 1) < TWO_TO_THE_63 then m else FirstOverflow(b, m - 1)
  }

  // Everything one can do to a handler.
  datatype Op =
    | DoTimer(now: int, random: nat)
    | DoGrace(now: int, random: nat)
    | DoReset(now: int)

  // The handler together with the number of draws since it was last reset.
  datatype Counted = Counted(h: Handler, draws: nat)

  function Apply(c: Counted, op: Op): Counted {
    match op
    case DoTimer(now, random) =>
      var (h', d) := Timer(c.h, now, random);
      Counted(h', (if Elapsed(c.h, now) then 0 else c.draws) + if d.NoTimer? then 0 else 1)
    case DoGrace(now, random) => Counted(GracePeriod(c.h, now, random).0, c.draws)
    case DoReset(now) => Counted(ResetNow(c.h, now), 0)
  }

  function Applied(c: Counted, ops: seq<Op>): Counted {
    if ops == [] then c else Apply(Applied(c, ops[..|ops| - 1]), ops[|ops| - 1])
  }

  /** Over any run the retries are the draws since the last reset, capped at maxRetries. */
  lemma {:induction false} RetriesAreDraws(h: Handler, ops: seq<Op>)
    requires h == NewBackoff(h.maxRetries, h.baseTime, h.retryForever)
    ensures var c := Applied(Counted(h, 0), ops);
            && c.h.retries == Min(c.draws, h.maxRetries)
            && c.h == h.(retries := c.h.retries, resetDeadline := c.h.resetDeadline)
  {
    if ops != [] {
      RetriesAreDraws(h, ops[..|ops| - 1]);
    }
  }

  // A row of timers.
  function Timers(h: Handler, at: seq<(int, nat)>): Handler {
    if at == [] then h
    else Timer(Timers(h, at[..|at| - 1]), at[|at| - 1].0, at[|at| - 1].1).0
  }

  lemma {:induction false} UntilDeadline(h: Handler, deadline: Option<int>, at: seq<(int, nat)>)
    requires h.retries <= h.maxRetries && h.resetDeadline == deadline
    requires forall i :: 0 <= i < |at| ==> deadline.None? || at[i].0 <= deadline.value
    ensures Timers(h, at) == h.(retries := Min(h.retries + |at|, h.maxRetries))
  {
    if at != [] {
      UntilDeadline(h, deadline, at[..|at| - 1]);
    }
  }

  lemma {:induction false} TimersInTwo(h: Handler, a: seq<(int, nat)>, b: seq<(int, nat)>)
    ensures Timers(h, a + b) == Timers(Timers(h, a), b)
  {
    if b == [] {
      assert a + b == a;
    } else {
      var k := |b| - 1;
      TimersInTwo(h, a, b[..k]);
      assert (a + b)[..|a + b| - 1] == a + b[..k];
    }
  }

  // The first timer past the deadline starts over, and counting goes on from there.
  lemma PastDeadline(h: Handler, deadline: int, past: (int, nat), behind: seq<(int, nat)>)
    requires h.retries <= h.maxRetries && h.resetDeadline == Some(deadline) && past.0 > deadline
    ensures Timers(h, [past] + behind).retries == Min(1 + |behind|, h.maxRetries)
  {
    var started := Timer(h, past.0, past.1).0;
    assert Timers(h, [past]) == started by {
      assert [past][..0] == [];
    }
    TimersInTwo(h, [past], behind);
    UntilDeadline(started, None, behind);
  }

  lemma AroundDeadline(h: Handler, deadline: int, before: seq<(int, nat)>, past: (int, nat), behind: seq<(int, nat)>)
    requires h.retries <= h.maxRetries && h.resetDeadline == Some(deadline)
    requires (forall i :: 0 <= i < |before| ==> before[i].0 <= deadline) && past.0 > deadline
    ensures Timers(h, before).retries == Min(h.retries + |before|, h.maxRetries)
    ensures Timers(h, before + ([past] + behind)).retries == Min(1 + |behind|, h.maxRetries)
  {
    UntilDeadline(h, Some(deadline), before);
    TimersInTwo(h, before, [past] + behind);
    PastDeadline(Timers(h, before), deadline, past, behind);
  }

  lemma GraceDraw(h: Handler, now: int, random: nat)
    requires h.retries <= h.maxRetries && BaseTime(h) * Pow(2, h.maxRetries + 2) < TWO_TO_THE_63
    ensures var (g, draw) := GracePeriod(h, now, random);
            && draw.Wait? && 0 <= draw.duration < BaseTime(h) * Pow(2, h.retries + 2)
            && (random < BaseTime(h) * Pow(2, h.retries + 2) ==> draw.duration == random)
            && g == h.(resetDeadline := Some(now + draw.duration))
  {
    BoundsPositive(h);
    SmallModulus(random, BaseTime(h) * Pow(2, h.retries + 2));
  }

  /**
   What a grace period does: it waits for a time d that it draws below base * 2^(retries + 2); timers made up to d after
   it count on from the retries there were, and from the first one later than that counting starts over.
  */
  lemma GraceThenTimers(
    c: Handler, draws: nat, now: int, random: nat,
    before: seq<(int, nat)>, past: (int, nat), behind: seq<(int, nat)>)
    requires c.retries <= c.maxRetries && BaseTime(c) * Pow(2, c.maxRetries + 2) < TWO_TO_THE_63
    ensures GracePeriod(c, now, random).1.Wait?
    ensures var g, draw := Apply(Counted(c, draws), DoGrace(now, random)).h, GracePeriod(c, now, random).1;
            && 0 <= draw.duration < BaseTime(c) * Pow(2, c.retries + 2)
            && g.retries == c.retries
            && (UpTo(before, now + draw.duration) && past.0 > now + draw.duration ==>
                  && Timers(g, before).retries == Min(c.retries + |before|, c.maxRetries)
                  && Timers(g, before + ([past] + behind)).retries == Min(1 + |behind|, c.maxRetries))
  {
    GraceDraw(c, now, random);
    var (g, draw) := GracePeriod(c, now, random);
    var d := draw.duration;
    if UpTo(before, now + d) && past.0 > now + d {
      AroundDeadline(g, now + d, before, past, behind);
    }
  }

  // The timers are made at the given time at the latest.
  predicate UpTo(at: seq<(int, nat)>, time: int) {
    forall i :: 0 <= i < |at| ==> at[i].0 <= time
  }

  // Every state of every run is one that GraceThenTimers and ResetThenTimers are about.
  lemma StillFits(h: Handler, ops: seq<Op>)
    requires h == NewBackoff(h.maxRetries, h.baseTime, h.retryForever)
    requires BaseTime(h) * Pow(2, h.maxRetries + 2) < TWO_TO_THE_63
    ensures var c := Applied(Counted(h, 0), ops).h;
            && c.retries <= c.maxRetries == h.maxRetries
            && BaseTime(c) * Pow(2, c.maxRetries + 2) < TWO_TO_THE_63
  {
    RetriesAreDraws(h, ops);
  }

  /** A reset forgets the retries; timers made at the same time count on from there, and from the first later one. */
  lemma ResetThenTimers(h: Handler, now: int, before: seq<(int, nat)>, past: (int, nat), behind: seq<(int, nat)>)
    requires h.retries <= h.maxRetries
    requires (forall i :: 0 <= i < |before| ==> before[i].0 <= now) && past.0 > now
    ensures ResetNow(h, now).retries == 0
    ensures Timers(ResetNow(h, now), before).retries == Min(|before|, h.maxRetries)
    ensures Timers(ResetNow(h, now), before + ([past] + behind)).retries == Min(1 + |behind|, h.maxRetries)
  {
    AroundDeadline(ResetNow(h, now), now, before, past, behind);
  }

  /** Without a base time the first draw is below two seconds. */
  lemma DefaultBaseDraw(maxRetries: nat, now: int, random: nat)
    requires maxRetries > 0
    ensures Timer(NewBackoff(maxRetries, 0, true), now, random).1 == Wait(random % 2_000_000_000)
  {
    assert Pow(2, 1) == 2;
  }

  // A draw below a bound that fits waits for less than that bound.
  lemma TimerDraw(h: Handler, now: int, random: nat)
    requires h.retries <= h.maxRetries
    requires BaseTime(h) * Pow(2, h.maxRetries + 2) < TWO_TO_THE_63
    ensures var (h', d) := Timer(h, now, random);
            var bound := BaseTime(h) * Pow(2, h'.retries);
            && h'.retries <= h.maxRetries && bound > 0 && TimerBound(h') == bound
            && (d.NoTimer? || d == Wait(random % bound))
  {
    ShiftsPositive(h, now, random);
    BoundsPositive(Timer(h, now, random).0);
  }

  /**
   After any run, the next draw, being the k-th since the last reset, waits less than base * 2^min(k, maxRetries), and
   there is no draw only if retries are limited and used up.
  */
  lemma DrawBounded(h: Handler, ops: seq<Op>, now: int, random: nat)
    requires h == NewBackoff(h.maxRetries, h.baseTime, h.retryForever)
    requires BaseTime(h) * Pow(2, h.maxRetries + 2) < TWO_TO_THE_63
    ensures var c := Applied(Counted(h, 0), ops);
            var d := Timer(c.h, now, random).1;
            var k := Apply(c, DoTimer(now, random)).draws;
            && !d.Panicked?
            && (d.NoTimer? <==> !h.retryForever && (if Elapsed(c.h, now) then 0 else c.draws) >= h.maxRetries)
            && (d.Wait? ==> k >= 1 && 0 <= d.duration < BaseTime(h) * Pow(2, Min(k, h.maxRetries)))
  {
    RetriesAreDraws(h, ops);
    var c := Applied(Counted(h, 0), ops);
    TimerDraw(c.h, now, random);
  }

  predicate Below(d: Draw, bound: int) {
    d.Wait? ==> d.duration < bound
  }

  /** Outside the elapsed case the reported maximum bounds the draw made in the same state. */
  lemma ReportBoundsDraw(h: Handler, now: int, random: nat)
    requires h.retries <= h.maxRetries && !Elapsed(h, now)
    requires BaseTime(h) * Pow(2, h.maxRetries + 2) < TWO_TO_THE_63
    ensures var report := MaxBackoffDuration(h, now, false);
            && (report.Some? <==> !Timer(h, now, random).1.NoTimer?)
            && (report.Some? ==>
                  && report.value == BaseTime(h) * Pow(2, h.retries + 1)
                  && Below(Timer(h, now, random).1, report.value))
  {
    TimerDraw(h, now, random);
    BoundsPositive(h);
    ScaledMonotone(BaseTime(h), Timer(h, now, random).0.retries, h.retries + 1);
  }

  /**
   Once the reset deadline has elapsed the report is a flat second. It bounds every possible draw exactly when
   base * 2^min(1, maxRetries) is at most a second.
  */
  lemma ElapsedReportExactly(h: Handler, now: int)
    requires h.retries <= h.maxRetries && Elapsed(h, now) && (h.retryForever || h.maxRetries > 0)
    requires BaseTime(h) * Pow(2, h.maxRetries + 2) < TWO_TO_THE_63
    ensures MaxBackoffDuration(h, now, false) == Some(SECOND)
    ensures (forall random: nat :: Below(Timer(h, now, random).1, SECOND)) <==>
            BaseTime(h) * Pow(2, Min(1, h.maxRetries)) <= SECOND
  {
    var bound := BaseTime(h) * Pow(2, Min(1, h.maxRetries));
    if bound <= SECOND {
      forall random: nat
        ensures Below(Timer(h, now, random).1, SECOND)
      {
        ElapsedDraw(h, now, random, bound);
      }
    } else {
      ElapsedDraw(h, now, bound - 1, bound);
      assert !Below(Timer(h, now, bound - 1).1, SECOND);
    }
  }

  lemma ElapsedDraw(h: Handler, now: int, random: nat, bound: nat)
    requires h.retries <= h.maxRetries && Elapsed(h, now) && (h.retryForever || h.maxRetries > 0)
    requires BaseTime(h) * Pow(2, h.maxRetries + 2) < TWO_TO_THE_63
    requires bound == BaseTime(h) * Pow(2, Min(1, h.maxRetries))
    ensures Timer(h, now, random).1.Wait? && 0 <= Timer(h, now, random).1.duration < bound
    ensures random < bound ==> Timer(h, now, random).1.duration == random
  {
    TimerDraw(h, now, random);
    var h' := Timer(h, now, random).0;
    assert h'.retries == Min(1, h.maxRetries);
    SmallModulus(random, bound);
  }

  lemma SmallModulus(x: nat, n: nat)
    requires n > 0
    ensures 0 <= x % n < n
    ensures x < n ==> x % n == x
  {
  }

  /** With a connection's own base of a second a wait of 1.5 seconds is drawn while one second is reported. */
  lemma ReportTooLow()
    ensures var h := Handler(5, true, SECOND, 0, Some(0));
            && MaxBackoffDuration(h, 1, false) == Some(1_000_000_000)
            && Timer(h, 1, 1_500_000_000).1 == Wait(1_500_000_000)
  {
    assert Pow(2, 1) == 2;
  }

  /** The handler, whose methods change retries and deadline in place. */
  class BackoffHandler {
    const maxRetries: nat
    const retryForever: bool
    const baseTime: nat
    var retries: nat
    var resetDeadline: Option<int>

    constructor (maxRetries: nat, baseTime: nat, retryForever: bool)
      ensures State() == NewBackoff(maxRetries, baseTime, retryForever)
    {
      this.maxRetries, this.baseTime, this.retryForever := maxRetries, baseTime, retryForever;
      retries, resetDeadline := 0, None;
    }

    function State(): Handler
      reads this
    {
      Handler(maxRetries, retryForever, baseTime, retries, resetDeadline)
    }

    method GetMaxBackoffDuration(now: int, contextDone: bool) returns (d: Option<int>)
      ensures d == MaxBackoffDuration(State(), now, contextDone)
    {
      if contextDone {
        return None;
      }
      if resetDeadline.Some? && now > resetDeadline.value {
        return Some(SECOND);
      }
      if retries >= maxRetries && !retryForever {
        return None;
      }
      return Some(ShiftLeft(BaseTime(State()), retries + 1));
    }

    method BackoffTimer(now: int, random: nat) returns (d: Draw)
      modifies this
      ensures (State(), d) == Timer(old(State()), now, random)
    {
      if resetDeadline.Some? && now > resetDeadline.value {
        retries := 0;
        resetDeadline := None;
      }
      if retries >= maxRetries {
        if !retryForever {
          return NoTimer;
        }
      } else {
        retries := retries + 1;
      }
      var maxTimeToWait := Wrap64(BaseTime(State()) * ShiftLeft(1, retries));
      return DrawBelow(maxTimeToWait, random);
    }

    method SetGracePeriod(now: int, random: nat) returns (d: Draw)
      modifies this
      ensures (State(), d) == GracePeriod(old(State()), now, random)
    {
      var maxTimeToWait := ShiftLeft(Wrap64(BaseTime(State()) * 2), retries + 1);
      d := DrawBelow(maxTimeToWait, random);
      if d.Wait? {
        resetDeadline := Some(now + d.duration);
      }
    }

    method Reset(now: int)
      modifies this
      ensures State() == ResetNow(old(State()), now)
    {
      resetDeadline := Some(now);
      retries := 0;
    }
  }
}
