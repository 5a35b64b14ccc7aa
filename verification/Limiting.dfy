/** The share limiter as a function of its whole history: which verdict each submission gets. */
module Limiting {
  import opened Bytes

  datatype Config = Config(
    startingDiff: U32, minDiff: U32, maxDiff: U32, interval: U32, sharesThreshold: U32,
    timeBuffer: U32, timePerShare: real, variance: U32)

  ghost predicate ConfigOk(c: Config) {
    1 <= c.minDiff <= c.maxDiff && c.minDiff <= c.startingDiff
  }

  datatype Record = Record(diff: nat, time: nat)

  /** Every record ever submitted, the deque of those still held, the retarget marks, the start time and the
      bad-share counter. */
  datatype Limiter = Limiter(
    history: seq<Record>, shares: seq<Record>,
    lastRetargetTime: nat, lastRetargetShares: nat, startTime: nat, bad: nat)

  /** Values the source leaves undefined: the variance of a falling difficulty or one that does not fit
      31 bits, and the conversion of an estimate that is no 64-bit number: a quotient by zero, one of 2^64 or
      more, or of -1 or less. */
  datatype Noise = Noise(variance: nat, estimate: nat)

  datatype Verdict = Pass | Ban | Retarget(diff: nat) | Reset(diff: nat)

  const MEGAHASHCONST: real := 4294.967296

  function Wrap64(x: int): U64 {
    x % 0x1_0000_0000_0000_0000
  }

  /** A difference of 64-bit values: the true one, or that of the next turn of the counter. */
  lemma UnsignedDifference(a: U64, b: U64)
    ensures a >= b ==> Wrap64(a - b) == a - b
    ensures a < b ==> Wrap64(a - b) == 0x1_0000_0000_0000_0000 + a - b
  {
  }

  /** Popping records off the front while they are not newer than the cutoff. */
  function Dropped(shares: seq<Record>, cutoff: nat): seq<Record> {
    if shares != [] && shares[0].time <= cutoff then Dropped(shares[1..], cutoff) else shares
  }

  /** The records newer than the cutoff, in order. */
  function Window(history: seq<Record>, cutoff: int): seq<Record> {
    if history == [] then []
    else
      var rest := Window(history[..|history| - 1], cutoff);
      var last := history[|history| - 1];
      if last.time > cutoff then rest + [last] else rest
  }

  function Total(records: seq<Record>): nat {
    if records == [] then 0 else Total(records[..|records| - 1]) + records[|records| - 1].diff
  }

  /** Hashrate in MH/s over the interval, times the time wanted per share, back to a difficulty. */
  function Rate(total: real, interval: real, timePerShare: real): real
    requires interval > 0.0
  {
    var hashrate := MEGAHASHCONST * total / interval;
    hashrate * timePerShare / MEGAHASHCONST
  }

  /** What the estimate means: at this difficulty the measured work comes as one share per timePerShare. */
  lemma RateMeaning(total: real, interval: real, timePerShare: real)
    requires interval > 0.0
    ensures Rate(total, interval, timePerShare) * interval == total * timePerShare
  {
    var k := MEGAHASHCONST;
    var hashrate := k * total / interval;
    assert hashrate * interval == k * total;
    var x := hashrate * timePerShare / k;
    assert x * k == hashrate * timePerShare;
    assert (x * interval) * k == (hashrate * interval) * timePerShare;
    assert (x * interval) * k == (total * timePerShare) * k;
  }

  /** The new difficulty from the weight in the window, before the limits. */
  function Estimate(c: Config, total: nat, interval: nat, noise: nat): nat {
    if interval == 0 then noise else Truncated(Rate(total as real, interval as real, c.timePerShare), noise)
  }

  /** Conversion to 64 bits: toward zero where it is defined. */
  function Truncated(x: real, noise: nat): nat {
    if x <= -1.0 || x >= 0x1_0000_0000_0000_0000 as real then noise else if x < 0.0 then 0 else x.Floor
  }

  function Clamp(c: Config, d: nat): (r: nat)
    ensures c.minDiff <= c.maxDiff ==> c.minDiff <= r <= c.maxDiff
    ensures c.minDiff <= d <= c.maxDiff ==> r == d
  {
    var d1 := if d < c.minDiff then c.minDiff else d;
    if d1 > c.maxDiff then c.maxDiff else d1
  }

  function Variance(newDiff: nat, diff: nat, noise: nat): nat
    requires diff > 0
  {
    if newDiff >= diff && (newDiff - diff) * 100 / diff < 0x8000_0000 then (newDiff - diff) * 100 / diff else noise
  }

  /** The start a limiter made at this time notes: ten seconds back, in 32 bits. */
  function Backdated(now: nat): U32 {
    (now - 10) % 0x1_0000_0000
  }

  /** The clock is the 32-bit one of the source and has not run backwards. */
  ghost predicate ClockOk(l: Limiter, now: nat) {
    now < 0x1_0000_0000 && (forall i :: 0 <= i < |l.history| ==> l.history[i].time <= now) && Ordered(l.history)
  }

  ghost predicate Ordered(records: seq<Record>) {
    forall i, j :: 0 <= i < j < |records| ==> records[i].time <= records[j].time
  }

  function Recorded(l: Limiter, diff: nat, now: nat): Limiter {
    l.(history := l.history + [Record(diff, now)], shares := l.shares + [Record(diff, now)])
  }

  predicate TooSoon(c: Config, l: Limiter, now: nat) {
    Wrap64(now - l.lastRetargetTime) < c.interval && Wrap64(|l.history| - l.lastRetargetShares) < c.sharesThreshold
  }

  predicate MostlyBad(l: Limiter) {
    |l.history| > 200 && 10 * l.bad > 9 * |l.history|
  }

  /** The difficulty the deque asks for. */
  function NewDiff(c: Config, l: Limiter, now: nat, noise: Noise): nat {
    Clamp(c, Estimate(c, Total(l.shares), Min(Wrap64(now - l.startTime), c.timeBuffer), noise.estimate))
  }

  /** One submission of a share of a job of difficulty `diff`, for a client at difficulty `cur`. */
  function Decide(c: Config, l: Limiter, diff: nat, now: nat, cur: nat, noise: Noise): (r: (Limiter, Verdict))
    requires cur > 0
    ensures c.minDiff <= c.maxDiff && (r.1.Retarget? || r.1.Reset?) ==> c.minDiff <= r.1.diff <= c.maxDiff
  {
    var l1 := Recorded(l, diff, now);
    if TooSoon(c, l1, now) then (l1, Pass)
    else
      var l2 := l1.(lastRetargetTime := now, lastRetargetShares := |l1.history|);
      if MostlyBad(l2) then (l2, Ban)
      else
        var l3 := l2.(shares := Dropped(l2.shares, Wrap64(now - c.timeBuffer)));
        var d := NewDiff(c, l3, now, noise);
        var v := Variance(d, cur, noise.variance);
        if v < c.variance then (l3, Pass)
        else if v > 2000 then (l3, Reset(d))
        else (l3, Retarget(d))
  }

  // ---------------------------------------------------------------- the weight

  /** The weight is the sum of the records' difficulties: a single one weighs its own, and weights add up. */
  lemma TotalOfOne(r: Record)
    ensures Total([r]) == r.diff && Total([]) == 0
  {
    assert [r][..0] == [];
  }

  lemma {:induction false} TotalAdds(a: seq<Record>, b: seq<Record>)
    ensures Total(a + b) == Total(a) + Total(b)
  {
    if b == [] {
      assert a + b == a;
    } else {
      var n := |b| - 1;
      TotalAdds(a, b[..n]);
      assert (a + b)[..|a + b| - 1] == a + b[..n];
    }
  }

  /** So n records of difficulty d weigh n * d. */
  lemma {:induction false} TotalOfSame(records: seq<Record>, d: nat)
    requires forall i :: 0 <= i < |records| ==> records[i].diff == d
    ensures Total(records) == |records| * d
  {
    if records != [] {
      TotalOfSame(records[..|records| - 1], d);
    }
  }

  lemma TruncatedMeaning(x: real, noise: nat)
    requires 0.0 <= x < 0x1_0000_0000_0000_0000 as real
    ensures Truncated(x, noise) as real <= x < (Truncated(x, noise) + 1) as real
  {
  }

  /** The estimate is a 64-bit number of shares: the weight times the time wanted per share, over the interval. */
  ghost predicate Fits(c: Config, total: nat, interval: nat) {
    && interval > 0 && c.timePerShare >= 0.0
    && total as real * c.timePerShare < 0x1_0000_0000_0000_0000 as real * interval as real
  }

  /** What a new difficulty means: q is the largest whole difficulty at which the weighed work would come as no more
      shares than one per timePerShare over the interval; the result is q, the minimum if q is below it, the
      maximum if q is above. */
  lemma NewDiffMeaning(c: Config, l: Limiter, now: nat, noise: Noise) returns (q: nat)
    requires c.minDiff <= c.maxDiff
    requires Fits(c, Total(l.shares), Min(Wrap64(now - l.startTime), c.timeBuffer))
    ensures IsQuotient(c, q, Total(l.shares), Min(Wrap64(now - l.startTime), c.timeBuffer))
    ensures c.minDiff <= q <= c.maxDiff ==> NewDiff(c, l, now, noise) == q
    ensures q < c.minDiff ==> NewDiff(c, l, now, noise) == c.minDiff
    ensures q > c.maxDiff ==> NewDiff(c, l, now, noise) == c.maxDiff
  {
    hide Total, Rate, Wrap64, IsQuotient;
    var interval := Min(Wrap64(now - l.startTime), c.timeBuffer);
    var i, w := interval as real, Total(l.shares) as real;
    var x := Rate(w, i, c.timePerShare);
    RateMeaning(w, i, c.timePerShare);
    QuotientBounds(x, i, w * c.timePerShare, 0x1_0000_0000_0000_0000 as real);
    TruncatedMeaning(x, noise.estimate);
    q := Truncated(x, noise.estimate);
    Scaled(c, q, x, Total(l.shares), interval);
    assert q == Estimate(c, Total(l.shares), interval, noise.estimate);
  }

  lemma QuotientBounds(x: real, i: real, p: real, bound: real)
    requires i > 0.0 && x * i == p && 0.0 <= p < bound * i
    ensures 0.0 <= x < bound
  {
    MulOrder(0.0, x, i);
    MulOrder(x, bound, i);
  }

  lemma MulOrder(a: real, b: real, i: real)
    requires i > 0.0
    ensures a <= b <==> a * i <= b * i
    ensures a < b <==> a * i < b * i
  {
    if a < b {
      MulReal(b - a, i);
    } else if b < a {
      MulReal(a - b, i);
    }
  }

  /** q is the whole part of weight times time per share over interval. */
  ghost predicate IsQuotient(c: Config, q: nat, total: nat, interval: nat) {
    q as real * interval as real <= total as real * c.timePerShare < (q + 1) as real * interval as real
  }

  lemma Scaled(c: Config, q: nat, x: real, total: nat, interval: nat)
    requires interval > 0 && q as real <= x < (q + 1) as real
    requires x * interval as real == total as real * c.timePerShare
    ensures IsQuotient(c, q, total, interval)
  {
    ScaledOrder(q as real, x, (q + 1) as real, interval as real, total as real * c.timePerShare);
  }

  lemma ScaledOrder(a: real, x: real, b: real, i: real, p: real)
    requires i > 0.0 && a <= x < b && x * i == p
    ensures a * i <= p < b * i
  {
    MulReal(b - x, i);
    if a < x {
      MulReal(x - a, i);
    }
  }

  // ---------------------------------------------------------------- the verdict

  /** With marks in the past, a look at the difficulty is put off exactly while both the interval has not passed
      and the threshold is not reached. */
  lemma TooSoonMeaning(c: Config, l: Limiter, now: nat)
    requires l.lastRetargetTime <= now < 0x1_0000_0000
    requires l.lastRetargetShares <= |l.history| < 0x1_0000_0000_0000_0000
    ensures TooSoon(c, l, now) <==>
              now < l.lastRetargetTime + c.interval && |l.history| < l.lastRetargetShares + c.sharesThreshold
  {
  }

  /** A submission that gets as far as the estimate of a difficulty d that is no lower and less than 2^31 percent
      higher: passed if d is higher by less than `variance` percent, a reset if by at least 2001, else a retarget;
      both to d, the difficulty of the deque left behind. For a lower one anything can happen. */
  lemma VerdictMeaning(c: Config, l: Limiter, diff: nat, now: nat, cur: nat, noise: Noise)
    requires cur > 0 && Estimates(c, l, diff, now)
    ensures
      var (l', v) := Decide(c, l, diff, now, cur, noise);
      var d := NewDiff(c, l', now, noise);
      && !v.Ban? && (v.Retarget? || v.Reset? ==> v.diff == d)
      && (cur <= d && (d - cur) * 100 < 0x8000_0000 * cur ==>
            && (v.Pass? <==> (d - cur) * 100 < c.variance * cur)
            && (v.Reset? <==> (d - cur) * 100 >= c.variance * cur && (d - cur) * 100 >= 2001 * cur))
      && (d < cur ==>
            && (v.Pass? <==> noise.variance < c.variance)
            && (v.Reset? <==> noise.variance >= c.variance && noise.variance > 2000))
  {
    hide Dropped, Total, Estimate, Wrap64;
    var l' := Decide(c, l, diff, now, cur, noise).0;
    var d := NewDiff(c, l', now, noise);
    if cur <= d {
      QuotientBelow((d - cur) * 100, cur, 0x8000_0000);
      QuotientBelow((d - cur) * 100, cur, c.variance);
      QuotientBelow((d - cur) * 100, cur, 2001);
    }
  }

  lemma QuotientBelow(n: nat, d: nat, bound: nat)
    requires d > 0
    ensures n / d < bound <==> n < bound * d
  {
    var q, r := n / d, n % d;
    assert n == q * d + r;
    if q < bound {
      MulLe(q + 1, bound, d);
    } else {
      MulLe(bound, q, d);
    }
  }

  lemma MulLe(a: nat, b: nat, d: nat)
    requires a <= b
    ensures a * d <= b * d
  {
  }

  // ---------------------------------------------------------------- the window

  lemma WindowSnoc(init: seq<Record>, last: Record, cutoff: int)
    ensures Window(init + [last], cutoff) == Window(init, cutoff) + (if last.time > cutoff then [last] else [])
  {
    assert (init + [last])[..|init|] == init;
  }

  /** On ordered records the window is a suffix: what popping old records off the front leaves. */
  lemma {:induction false} WindowIsSuffix(history: seq<Record>, cutoff: int, k: nat)
    requires Ordered(history) && k <= |history|
    requires forall i :: 0 <= i < k ==> history[i].time <= cutoff
    requires k < |history| ==> history[k].time > cutoff
    ensures Window(history, cutoff) == history[k..]
  {
    hide Window;
    if history == [] {
      EmptyWindow(cutoff);
    } else {
      var n := |history| - 1;
      var init, last := history[..n], history[n];
      assert history == init + [last];
      WindowSnoc(init, last, cutoff);
      assert forall i :: 0 <= i < n ==> init[i] == history[i];
      if k > n {
        WindowIsSuffix(init, cutoff, n);
      } else {
        WindowIsSuffix(init, cutoff, k);
        assert history[k..] == init[k..] + [last];
      }
    }
  }

  lemma EmptyWindow(cutoff: int)
    ensures Window([], cutoff) == []
  {
  }

  /** Popping stops at the first record newer than the cutoff. */
  lemma {:induction false} DroppedIsSuffix(shares: seq<Record>, cutoff: nat) returns (k: nat)
    ensures k <= |shares| && Dropped(shares, cutoff) == shares[k..]
    ensures forall i :: 0 <= i < k ==> shares[i].time <= cutoff
    ensures k < |shares| ==> shares[k].time > cutoff
  {
    if shares != [] && shares[0].time <= cutoff {
      var k' := DroppedIsSuffix(shares[1..], cutoff);
      k := k' + 1;
      assert shares[1..][k'..] == shares[k..];
      forall i | 0 <= i < k
        ensures shares[i].time <= cutoff
      {
        if i > 0 {
          assert shares[i] == shares[1..][i - 1];
        }
      }
    } else {
      k := 0;
    }
  }

  /** The deque is the history without a prefix. */
  ghost predicate SuffixOk(l: Limiter) {
    |l.shares| <= |l.history| && l.shares == l.history[|l.history| - |l.shares|..]
  }

  /** How many records have been dropped so far. */
  function DroppedSoFar(l: Limiter): int {
    |l.history| - |l.shares|
  }

  /** Everything dropped so far would be too old now. */
  ghost predicate NoneMissing(c: Config, l: Limiter, now: nat)
    requires SuffixOk(l)
  {
    forall i :: 0 <= i < DroppedSoFar(l) ==> l.history[i].time + c.timeBuffer <= now
  }

  lemma RecordedKeepsSuffix(c: Config, l: Limiter, diff: nat, now: nat)
    requires SuffixOk(l) && ClockOk(l, now)
    ensures SuffixOk(Recorded(l, diff, now)) && ClockOk(Recorded(l, diff, now), now)
    ensures NoneMissing(c, Recorded(l, diff, now), now) <==> NoneMissing(c, l, now)
    ensures DroppedSoFar(Recorded(l, diff, now)) == DroppedSoFar(l)
  {
    var r, n := Recorded(l, diff, now), DroppedSoFar(l);
    assert r.history[n..] == l.history[n..] + [Record(diff, now)];
    assert forall i :: 0 <= i < n ==> r.history[i] == l.history[i];
  }

  /** Popping keeps the deque a suffix, and drops only records not newer than the cutoff. */
  lemma DroppedKeepsSuffix(l: Limiter, cutoff: nat) returns (k: nat)
    requires SuffixOk(l)
    ensures
      var l' := l.(shares := Dropped(l.shares, cutoff));
      && SuffixOk(l') && DroppedSoFar(l') == DroppedSoFar(l) + k
      && (forall i :: DroppedSoFar(l) <= i < DroppedSoFar(l') ==> l.history[i].time <= cutoff)
      && (DroppedSoFar(l') < |l.history| ==> l.history[DroppedSoFar(l')].time > cutoff)
  {
    hide Dropped;
    var n := DroppedSoFar(l);
    k := DroppedIsSuffix(l.shares, cutoff);
    assert forall i :: 0 <= i < |l.shares| ==> l.shares[i] == l.history[n + i];
    assert l.shares[k..] == l.history[n + k..];
    forall i | n <= i < n + k
      ensures l.history[i].time <= cutoff
    {
      assert l.shares[i - n] == l.history[i];
    }
  }

  /** With the clock at or past the buffer the popped deque is the true window exactly if nothing the window
      should hold was dropped before. */
  lemma PoppedIsWindow(c: Config, l: Limiter, now: nat)
    requires SuffixOk(l) && ClockOk(l, now) && c.timeBuffer <= now
    ensures Dropped(l.shares, Wrap64(now - c.timeBuffer)) == Window(l.history, now - c.timeBuffer)
            <==> NoneMissing(c, l, now)
  {
    hide Dropped, Window;
    var cutoff := now - c.timeBuffer;
    assert Wrap64(cutoff) == cutoff;
    var k := DroppedKeepsSuffix(l, cutoff);
    var n := DroppedSoFar(l) + k;
    if NoneMissing(c, l, now) {
      WindowIsSuffix(l.history, cutoff, n);
    } else {
      var i :| 0 <= i < DroppedSoFar(l) && l.history[i].time > cutoff;
      FirstNewer(l.history, cutoff, i);
    }
  }

  /** On ordered records the window of a history holds at least the records from any one newer than the cutoff. */
  lemma FirstNewer(history: seq<Record>, cutoff: int, i: nat)
    requires Ordered(history) && i < |history| && history[i].time > cutoff
    ensures |Window(history, cutoff)| >= |history| - i
  {
    hide Window;
    var k := 0;
    while history[k].time <= cutoff
      invariant 0 <= k <= i
      invariant forall j :: 0 <= j < k ==> history[j].time <= cutoff
      decreases i - k
    {
      k := k + 1;
    }
    WindowIsSuffix(history, cutoff, k);
  }

  lemma {:induction false} WrappedCutoffDropsAll(shares: seq<Record>, c: Config, now: nat)
    requires now < c.timeBuffer
    requires forall i :: 0 <= i < |shares| ==> shares[i].time < 0x1_0000_0000
    ensures Dropped(shares, Wrap64(now - c.timeBuffer)) == []
  {
    if shares != [] {
      WrappedCutoffDropsAll(shares[1..], c, now);
    }
  }

  /** The limiter got past its early returns. */
  predicate Estimates(c: Config, l: Limiter, diff: nat, now: nat) {
    var l1 := Recorded(l, diff, now);
    !TooSoon(c, l1, now) && !MostlyBad(l1)
  }

  /** When a submission reaches the estimate, the deque is exactly the records of the whole history newer than
      now - timeBuffer if and only if the clock is at least the buffer and everything dropped by earlier calls is
      too old by now. Below the buffer the unsigned subtraction wraps and every record is dropped, the one just
      submitted included; such records can still be missing later. On every path the deque stays a suffix. */
  lemma WindowExact(c: Config, l: Limiter, diff: nat, now: nat, cur: nat, noise: Noise)
    requires SuffixOk(l) && ClockOk(l, now) && cur > 0
    ensures
      var l' := Decide(c, l, diff, now, cur, noise).0;
      && SuffixOk(l')
      && (Estimates(c, l, diff, now) ==>
            (l'.shares == Window(l'.history, now - c.timeBuffer) <==> c.timeBuffer <= now && NoneMissing(c, l, now)))
  {
    hide *;
    var l1 := Recorded(l, diff, now);
    RecordedKeepsSuffix(c, l, diff, now);
    DecideDeque(c, l, diff, now, cur, noise);
    var l' := Decide(c, l, diff, now, cur, noise).0;
    var k := DroppedKeepsSuffix(l1, Wrap64(now - c.timeBuffer));
    SameDeque(l1, l');
    SameDeque(l1.(shares := Dropped(l1.shares, Wrap64(now - c.timeBuffer))), l');
    if c.timeBuffer <= now {
      PoppedIsWindow(c, l1, now);
    } else {
      WrappedDeque(c, l1, now);
      NewestInWindow(l.history, Record(diff, now), now - c.timeBuffer);
      RecordedHistory(l, diff, now);
    }
  }

  /** What a decision does to history and deque. */
  lemma DecideDeque(c: Config, l: Limiter, diff: nat, now: nat, cur: nat, noise: Noise)
    requires cur > 0
    ensures
      var l1, l' := Recorded(l, diff, now), Decide(c, l, diff, now, cur, noise).0;
      && l'.history == l1.history
      && l'.shares == if Estimates(c, l, diff, now) then Dropped(l1.shares, Wrap64(now - c.timeBuffer)) else l1.shares
  {
    hide Dropped, NewDiff, Variance, Wrap64;
  }

  lemma SameDeque(l: Limiter, l': Limiter)
    ensures l'.history == l.history && l'.shares == l.shares ==> (SuffixOk(l') <==> SuffixOk(l))
    ensures l'.history == l.history && l'.shares == l.shares ==> DroppedSoFar(l') == DroppedSoFar(l)
  {
  }

  lemma RecordedHistory(l: Limiter, diff: nat, now: nat)
    ensures Recorded(l, diff, now).history == l.history + [Record(diff, now)]
  {
  }

  /** Everything dropped so far would be too old now, or was dropped by a wrapped cutoff while the clock was still
      below the buffer, if it ever was. */
  ghost predicate Aged(c: Config, l: Limiter, now: nat, early: bool) {
    && SuffixOk(l)
    && forall i :: 0 <= i < DroppedSoFar(l) ==>
         l.history[i].time + c.timeBuffer <= now || (early && l.history[i].time < c.timeBuffer)
  }

  lemma DecideAges(c: Config, l: Limiter, diff: nat, clock: nat, now: nat, cur: nat, noise: Noise, early: bool)
    requires Aged(c, l, clock, early) && ClockOk(l, now) && clock <= now && cur > 0 && (c.timeBuffer <= now || early)
    ensures Aged(c, Decide(c, l, diff, now, cur, noise).0, now, early)
  {
    hide Dropped, Decide, Recorded, ClockOk, Estimates, Wrap64, NoneMissing, SuffixOk;
    var l1, l' := Recorded(l, diff, now), Decide(c, l, diff, now, cur, noise).0;
    RecordedKeepsSuffix(c, l, diff, now);
    RecordedHistory(l, diff, now);
    DecideDeque(c, l, diff, now, cur, noise);
    var cutoff := Wrap64(now - c.timeBuffer);
    Unwrapped(c, now);
    var k := DroppedKeepsSuffix(l1, cutoff);
    SameDeque(l1, l');
    SameDeque(l1.(shares := Dropped(l1.shares, cutoff)), l');
    forall i | 0 <= i < DroppedSoFar(l')
      ensures l'.history[i].time + c.timeBuffer <= now || (early && l'.history[i].time < c.timeBuffer)
    {
      if i < DroppedSoFar(l) {
        assert l'.history[i] == l.history[i];
      } else {
        TimesUpTo(l1, now, i);
      }
    }
  }

  lemma Unwrapped(c: Config, now: nat)
    ensures c.timeBuffer <= now < 0x1_0000_0000 ==> Wrap64(now - c.timeBuffer) == now - c.timeBuffer
  {
  }

  lemma TimesUpTo(l: Limiter, now: nat, i: nat)
    requires ClockOk(l, now) && i < |l.history|
    ensures l.history[i].time <= now < 0x1_0000_0000
  {
  }

  lemma WrappedDeque(c: Config, l: Limiter, now: nat)
    requires SuffixOk(l) && ClockOk(l, now) && now < c.timeBuffer
    ensures Dropped(l.shares, Wrap64(now - c.timeBuffer)) == []
  {
    hide Dropped, Wrap64;
    var n := DroppedSoFar(l);
    forall i | 0 <= i < |l.shares|
      ensures l.shares[i].time < 0x1_0000_0000
    {
      assert l.shares[i] == l.history[n + i];
    }
    WrappedCutoffDropsAll(l.shares, c, now);
  }

  lemma NewestInWindow(history: seq<Record>, r: Record, cutoff: int)
    requires r.time > cutoff
    ensures Window(history + [r], cutoff) != []
  {
    assert (history + [r])[..|history|] == history;
  }

  /** The average weight test as the source computes it, in reals. */
  lemma BadRatio(bad: nat, total: nat)
    requires total > 0
    ensures (bad as real) / (total as real) > 0.9 <==> 10 * bad > 9 * total
  {
    var b, t := bad as real, total as real;
    assert b / t > 0.9 <==> b > 0.9 * t by {
      assert b == (b / t) * t;
      if b / t > 0.9 { MulReal(b / t - 0.9, t); }
      if b / t < 0.9 { MulReal(0.9 - b / t, t); }
    }
    assert (10 * bad) as real == 10.0 * b && (9 * total) as real == 9.0 * t;
  }

  lemma MulReal(x: real, t: real)
    requires x > 0.0 && t > 0.0
    ensures x * t > 0.0
  {
  }
}
