/** The share limiter object: counters, and a deque of recent records in place of the history. */
module LimiterObject {
  import opened Bytes
  import opened Limiting

  class ShareLimiter {
    var shares: seq<Record>
    var lastRetargetTime: nat
    var lastRetargetShares: nat
    var startTime: nat
    var totalShares: nat
    var totalBadShares: nat
    ghost var history: seq<Record>

    /** The share mark is left uninitialised by the source. */
    constructor (now: nat, lastShares: nat)
      ensures Valid() && Value() == Limiter([], [], Backdated(now), lastShares, Backdated(now), 0)
    {
      shares, history, totalShares, totalBadShares := [], [], 0, 0;
      startTime := Backdated(now);
      lastRetargetTime := Backdated(now);
      lastRetargetShares := lastShares;
    }

    ghost function Value(): Limiter
      reads this
    {
      Limiter(history, shares, lastRetargetTime, lastRetargetShares, startTime, totalBadShares)
    }

    /** The share counter counts the history. */
    ghost predicate Valid()
      reads this
    {
      totalShares == |history|
    }

    method LogBad()
      modifies this`totalBadShares
      ensures totalBadShares == old(totalBadShares) + 1
    {
      totalBadShares := totalBadShares + 1;
    }

    /** The loop that drops old records. */
    method DropOld(c: Config, curTime: nat)
      modifies this`shares
      ensures shares == Dropped(old(shares), Wrap64(curTime - c.timeBuffer))
    {
      var cutoff := Wrap64(curTime - c.timeBuffer);
      while |shares| > 0
        invariant Dropped(shares, cutoff) == Dropped(old(shares), cutoff)
      {
        if shares[0].time > cutoff {
          break;
        }
        shares := shares[1..];
      }
    }

    /** The weight in the deque, summed in reals. */
    method Weigh() returns (total: real)
      ensures total == Total(shares) as real
    {
      total := 0.0;
      for i := 0 to |shares|
        invariant total == Total(shares[..i]) as real
      {
        assert shares[..i + 1][..i] == shares[..i];
        total := total + (shares[i].diff as real);
      }
      assert shares[..|shares|] == shares;
    }

    /** Submit up to the point where it acts on the client. */
    method Judge(c: Config, diff: nat, curTime: nat, cur: nat, noise: Noise) returns (verdict: Verdict)
      requires Valid() && cur > 0
      modifies this
      ensures Valid()
      ensures (Value(), verdict) == Decide(c, old(Value()), diff, curTime, cur, noise)
    {
      hide Dropped, Total, NewDiff, Variance, Wrap64;
      totalShares := totalShares + 1;
      var timeSinceRetarget := Wrap64(curTime - lastRetargetTime);
      var sharesSinceRetarget := Wrap64(totalShares - lastRetargetShares);
      shares := shares + [Record(diff, curTime)];
      history := history + [Record(diff, curTime)];
      if timeSinceRetarget < c.interval && sharesSinceRetarget < c.sharesThreshold {
        return Pass;
      }
      lastRetargetTime := curTime;
      lastRetargetShares := totalShares;
      BadRatio(totalBadShares, totalShares);
      if totalShares > 200 && (totalBadShares as real) / (totalShares as real) > 0.9 {
        return Ban;
      }
      DropOld(c, curTime);
      var totalWeighted := Weigh();
      var newDiff := Propose(c, totalWeighted, curTime, noise);
      var variance := Variance(newDiff, cur, noise.variance);
      if variance < c.variance {
        return Pass;
      }
      verdict := if variance > 2000 then Reset(newDiff) else Retarget(newDiff);
    }

    /** Hashrate, estimate and limits. */
    method Propose(c: Config, totalWeighted: real, curTime: nat, noise: Noise) returns (newDiff: nat)
      requires totalWeighted == Total(shares) as real
      ensures newDiff == NewDiff(c, Value(), curTime, noise)
    {
      hide Total, Rate;
      var interval := Min(Wrap64(curTime - startTime), c.timeBuffer);
      newDiff := noise.estimate;
      if interval > 0 {
        newDiff := Truncated(Rate(totalWeighted, interval as real, c.timePerShare), noise.estimate);
      }
      if newDiff < c.minDiff {
        newDiff := c.minDiff;
      }
      if newDiff > c.maxDiff {
        newDiff := c.maxDiff;
      }
    }
  }
}
