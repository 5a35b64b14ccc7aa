/** When and where the limiter moves the difficulty, in terms of the connection's whole run. */
module Retargeting {
  import opened Bytes
  import opened Codec
  import opened Blocks
  import opened Targets
  import opened Work
  import opened Limiting
  import opened Stratum
  import opened Runs
  import opened Accounting

  // ---------------------------------------------------------------- records and weight

  /** What the limiter notes of a step: the difficulty of the job found and the time. */
  function Noted(s: Session, i: Input): seq<Record> {
    if Found(s, i.event) then [Record(s.jobs[i.event.jobid].diff, i.now)] else []
  }

  /** Everything noted along a run. */
  ghost function RunRecords(H: HashFn, c: Config, s: Session, clock: nat, inputs: seq<Input>): seq<Record>
    requires Inv(c, s, clock) && InputsOk(clock, inputs)
    decreases inputs
  {
    if inputs == [] then []
    else
      RunHead(H, c, s, clock, inputs);
      Noted(s, inputs[0]) + RunRecords(H, c, Step(H, c, s, inputs[0]).0, inputs[0].now, inputs[1..])
  }

  lemma StepRecords(H: HashFn, c: Config, s: Session, i: Input)
    requires Inv(c, s, i.now) && TemplateOk(i.work)
    ensures Step(H, c, s, i).0.limiter.history == s.limiter.history + Noted(s, i)
  {
    hide JobOk, TemplateOk, NotifyOf, GetJob, Limit, Check, ToHex, LE, ClockOk, Decide, Estimates, Dropped;
    var e := i.event;
    assert s.limiter.history + [] == s.limiter.history;
    if Found(s, e) {
      var job := s.jobs[e.jobid];
      var s1 := Limit(H, c, s, job.diff, i.now, e.noise, i.work).0;
      LimitLimiter(H, c, s, job.diff, i.now, e.noise, i.work);
      DecideDeque(c, s.limiter, job.diff, i.now, s.diff, e.noise);
      CheckRest(H, s1, e.jobid, job, e.user, e.share, e.accepted);
    }
  }

  /** The history is the submissions that found a job, each with that job's difficulty and its time. */
  lemma {:induction false} HistoryExact(H: HashFn, c: Config, s: Session, clock: nat, inputs: seq<Input>)
    requires Inv(c, s, clock) && InputsOk(clock, inputs)
    ensures Run(H, c, s, clock, inputs).0.limiter.history == s.limiter.history + RunRecords(H, c, s, clock, inputs)
    decreases inputs
  {
    hide Inv, Step, TemplateOk, Noted, Run;
    if inputs == [] {
      EmptyRun(H, c, s, clock);
      assert s.limiter.history + [] == s.limiter.history;
    } else {
      RunHead(H, c, s, clock, inputs);
      StepRecords(H, c, s, inputs[0]);
      var s1 := Step(H, c, s, inputs[0]).0;
      HistoryExact(H, c, s1, inputs[0].now, inputs[1..]);
      var a, b := Noted(s, inputs[0]), RunRecords(H, c, s1, inputs[0].now, inputs[1..]);
      assert (s.limiter.history + a) + b == s.limiter.history + (a + b);
    }
  }

  lemma SetDifficultyTo(H: HashFn, s: Session, diff: nat, resend: bool, work: BlockData)
    requires TemplateOk(work) && diff > 0
    ensures SetDifficulty(H, s, diff, resend, work).0.diff == (if diff < s.minDiff then s.minDiff else diff)
  {
    hide TemplateOk, NotifyOf, GetJob;
  }

  /** A retarget and a reset move the client to the difficulty proposed or the worker's minimum, nothing else moves
      it. */
  lemma StepDifficulty(H: HashFn, c: Config, s: Session, i: Input)
    requires Inv(c, s, i.now) && TemplateOk(i.work) && Found(s, i.event)
    ensures
      var v := Decide(c, s.limiter, s.jobs[i.event.jobid].diff, i.now, s.diff, i.event.noise).1;
      Step(H, c, s, i).0.diff
      == if v.Retarget? || v.Reset? then (if v.diff < s.minDiff then s.minDiff else v.diff) else s.diff
  {
    hide JobOk, JobsOk, TemplateOk, NotifyOf, GetJob, Check, ClockOk, Decide, SetDifficulty, TooSoon;
    JobFound(c, s, i);
    var e, job := i.event, s.jobs[i.event.jobid];
    var (l, v) := Decide(c, s.limiter, job.diff, i.now, s.diff, e.noise);
    if v.Retarget? || v.Reset? {
      SetDifficultyTo(H, s.(limiter := l), v.diff, v.Retarget?, i.work);
    }
    var s1 := Limit(H, c, s, job.diff, i.now, e.noise, i.work).0;
    CheckSameDifficulty(H, s1, e.jobid, job, e.user, e.share, e.accepted);
  }

  lemma JobFound(c: Config, s: Session, i: Input)
    requires Inv(c, s, i.now) && Found(s, i.event)
    ensures JobOk(s.jobs[i.event.jobid])
  {
    hide JobOk, ClockOk;
  }

  /** The estimate q within the configured limits and not below the worker's minimum. */
  ghost predicate Settles(c: Config, q: nat, min: nat, d: nat) {
    var limited := if q < c.minDiff then c.minDiff else if q > c.maxDiff then c.maxDiff else q;
    d == if limited < min then min else limited
  }

  /** What a changed difficulty means, at any point of any session: if the window is true, the new difficulty is, up
      to the limits, the sum of the difficulties of all the connection's submissions newer than now - timeBuffer,
      times the time wanted per share, over the length of the window. */
  lemma SessionWeight(H: HashFn, c: Config, extranonce: U32, lastShares: nat, now: nat, inputs: seq<Input>, i: Input)
    requires ConfigOk(c) && now < 0x1_0000_0000 && c.timeBuffer <= i.now
    requires InputsOk(now, inputs) && TemplateOk(i.work) && EndClock(now, inputs) <= i.now < 0x1_0000_0000
    ensures Inv(c, Connected(c, extranonce, lastShares, now), now)
    ensures
      var s := Connected(c, extranonce, lastShares, now);
      var r := Run(H, c, s, now, inputs).0;
      && Inv(c, r, i.now) && SuffixOk(r.limiter)
      && var records := RunRecords(H, c, s, now, inputs) + Noted(r, i);
         var total := Total(Window(records, i.now - c.timeBuffer));
         var interval := Min(Wrap64(i.now - Backdated(now)), c.timeBuffer);
         var d := Step(H, c, r, i).0.diff;
         Found(r, i.event) && NoneMissing(c, r.limiter, i.now) && Fits(c, total, interval) && d != r.diff ==>
           exists q: nat :: IsQuotient(c, q, total, interval) && Settles(c, q, r.minDiff, d)
  {
    hide *;
    ConnectedInv(c, extranonce, lastShares, now);
    var s := Connected(c, extranonce, lastShares, now);
    RunKeepsInv(H, c, s, now, inputs);
    var r := Run(H, c, s, now, inputs).0;
    InvLater(c, r, EndClock(now, inputs), i.now);
    SessionWindow(H, c, extranonce, lastShares, now, inputs, i);
    HistoryExact(H, c, s, now, inputs);
    StepRecords(H, c, r, i);
    StepStart(H, c, r, i);
    RunStart(H, c, s, now, inputs);
    NewLimiter(c, extranonce, lastShares, now);
    assert [] + RunRecords(H, c, s, now, inputs) == RunRecords(H, c, s, now, inputs);
    if Found(r, i.event) && Step(H, c, r, i).0.diff != r.diff && NoneMissing(c, r.limiter, i.now) {
      StepDifficulty(H, c, r, i);
      ChangeMeaning(H, c, r, i);
    }
  }

  lemma NewLimiter(c: Config, extranonce: U32, lastShares: nat, now: nat)
    ensures
      var l := Connected(c, extranonce, lastShares, now).limiter;
      l.history == [] && l.startTime == Backdated(now)
  {
  }

  lemma ChangeMeaning(H: HashFn, c: Config, s: Session, i: Input)
    requires Inv(c, s, i.now) && TemplateOk(i.work) && Found(s, i.event) && SuffixOk(s.limiter)
    requires Step(H, c, s, i).0.diff != s.diff && c.timeBuffer <= i.now && NoneMissing(c, s.limiter, i.now)
    ensures
      var l := Step(H, c, s, i).0.limiter;
      var total := Total(Window(l.history, i.now - c.timeBuffer));
      var interval := Min(Wrap64(i.now - l.startTime), c.timeBuffer);
      Fits(c, total, interval) ==>
        exists q: nat :: IsQuotient(c, q, total, interval) && Settles(c, q, s.minDiff, Step(H, c, s, i).0.diff)
  {
    hide JobOk, TemplateOk, NotifyOf, GetJob, Limit, Check, ToHex, LE, Decide, Window, Total, Fits, IsQuotient,
         SuffixOk, NoneMissing, NewDiff, Wrap64, ClockOk, Estimates, Step;
    var e, job := i.event, s.jobs[i.event.jobid];
    var (l', v) := Decide(c, s.limiter, job.diff, i.now, s.diff, e.noise);
    StepDifficulty(H, c, s, i);
    OnlyEstimatesChange(c, s.limiter, job.diff, i.now, s.diff, e.noise);
    VerdictMeaning(c, s.limiter, job.diff, i.now, s.diff, e.noise);
    WindowExact(c, s.limiter, job.diff, i.now, s.diff, e.noise);
    FoundLimiter(H, c, s, i);
    var l := Step(H, c, s, i).0.limiter;
    SameEstimate(c, l, l', i.now, e.noise);
    if Fits(c, Total(l'.shares), Min(Wrap64(i.now - l'.startTime), c.timeBuffer)) {
      var q := NewDiffMeaning(c, l', i.now, e.noise);
      assert IsQuotient(c, q, Total(l'.shares), Min(Wrap64(i.now - l'.startTime), c.timeBuffer));
      assert Settles(c, q, s.minDiff, Step(H, c, s, i).0.diff);
    }
  }

  lemma OnlyEstimatesChange(c: Config, l: Limiter, diff: nat, now: nat, cur: nat, noise: Noise)
    requires cur > 0
    ensures
      var v := Decide(c, l, diff, now, cur, noise).1;
      v.Retarget? || v.Reset? ==> Estimates(c, l, diff, now)
  {
    hide Dropped, NewDiff, Variance, Wrap64;
  }

  lemma FoundLimiter(H: HashFn, c: Config, s: Session, i: Input)
    requires Inv(c, s, i.now) && TemplateOk(i.work) && Found(s, i.event)
    ensures
      var l := Step(H, c, s, i).0.limiter;
      l == Decide(c, s.limiter, s.jobs[i.event.jobid].diff, i.now, s.diff, i.event.noise).0.(bad := l.bad)
  {
    hide JobOk, TemplateOk, NotifyOf, GetJob, Limit, Check, ClockOk, Decide;
    var e, job := i.event, s.jobs[i.event.jobid];
    LimitLimiter(H, c, s, job.diff, i.now, e.noise, i.work);
    CheckRest(H, Limit(H, c, s, job.diff, i.now, e.noise, i.work).0, e.jobid, job, e.user, e.share, e.accepted);
  }

  lemma SameEstimate(c: Config, l: Limiter, l': Limiter, now: nat, noise: Noise)
    requires l == l'.(bad := l.bad)
    ensures NewDiff(c, l, now, noise) == NewDiff(c, l', now, noise)
  {
  }

  // ---------------------------------------------------------------- how often

  /** The submission makes the limiter look at the difficulty. */
  predicate Looks(c: Config, s: Session, i: Input) {
    Found(s, i.event) && !TooSoon(c, Recorded(s.limiter, s.jobs[i.event.jobid].diff, i.now), i.now)
  }

  lemma StepMarks(H: HashFn, c: Config, s: Session, i: Input)
    requires Inv(c, s, i.now) && TemplateOk(i.work)
    ensures
      var l := Step(H, c, s, i).0.limiter;
      (l.lastRetargetTime, l.lastRetargetShares)
      == if Looks(c, s, i) then (i.now, |s.limiter.history| + 1)
         else (s.limiter.lastRetargetTime, s.limiter.lastRetargetShares)
  {
    hide JobOk, TemplateOk, NotifyOf, GetJob, Limit, Check, ToHex, LE, ClockOk, Decide, TooSoon;
    if Found(s, i.event) {
      FoundLimiter(H, c, s, i);
      DecideMarks(c, s.limiter, s.jobs[i.event.jobid].diff, i.now, s.diff, i.event.noise);
    }
  }

  lemma DecideMarks(c: Config, l: Limiter, diff: nat, now: nat, cur: nat, noise: Noise)
    requires cur > 0
    ensures
      var l' := Decide(c, l, diff, now, cur, noise).0;
      (l'.lastRetargetTime, l'.lastRetargetShares)
      == if TooSoon(c, Recorded(l, diff, now), now) then (l.lastRetargetTime, l.lastRetargetShares)
         else (now, |l.history| + 1)
  {
    hide Dropped, NewDiff, Variance, TooSoon;
  }

  /** How often the limiter looked along a run. */
  ghost function RunLooks(H: HashFn, c: Config, s: Session, clock: nat, inputs: seq<Input>): nat
    requires Inv(c, s, clock) && InputsOk(clock, inputs)
    decreases inputs
  {
    if inputs == [] then 0
    else
      RunHead(H, c, s, clock, inputs);
      (if Looks(c, s, inputs[0]) then 1 else 0)
      + RunLooks(H, c, Step(H, c, s, inputs[0]).0, inputs[0].now, inputs[1..])
  }

  lemma {:induction false} MarksStay(H: HashFn, c: Config, s: Session, clock: nat, inputs: seq<Input>)
    requires Inv(c, s, clock) && InputsOk(clock, inputs) && RunLooks(H, c, s, clock, inputs) == 0
    ensures
      var l := Run(H, c, s, clock, inputs).0.limiter;
      l.lastRetargetTime == s.limiter.lastRetargetTime && l.lastRetargetShares == s.limiter.lastRetargetShares
    decreases inputs
  {
    hide Inv, Step, TemplateOk, Looks, Run;
    if inputs == [] {
      EmptyRun(H, c, s, clock);
    } else {
      RunHead(H, c, s, clock, inputs);
      StepMarks(H, c, s, inputs[0]);
      MarksStay(H, c, Step(H, c, s, inputs[0]).0, inputs[0].now, inputs[1..]);
    }
  }

  lemma {:induction false} FoundAtMost(H: HashFn, c: Config, s: Session, clock: nat, inputs: seq<Input>)
    requires Inv(c, s, clock) && InputsOk(clock, inputs)
    ensures RunFound(H, c, s, clock, inputs) <= |inputs|
    decreases inputs
  {
    hide Inv, Step, TemplateOk, Found;
    if inputs != [] {
      RunHead(H, c, s, clock, inputs);
      FoundAtMost(H, c, Step(H, c, s, inputs[0]).0, inputs[0].now, inputs[1..]);
    }
  }

  /** How far apart looks are: after one, and any run without another, a submission that finds its job makes the
      limiter look exactly when the interval has passed since or it is the threshold's number of those since. */
  lemma LookSpacing(H: HashFn, c: Config, s: Session, i: Input, between: seq<Input>, next: Input)
    requires Inv(c, s, i.now) && TemplateOk(i.work) && Looks(c, s, i)
    requires InputsOk(i.now, between) && EndClock(i.now, between) <= next.now < 0x1_0000_0000
    requires |s.limiter.history| + |between| + 2 < 0x1_0000_0000_0000_0000
    ensures Inv(c, Step(H, c, s, i).0, i.now)
    ensures
      var s1 := Step(H, c, s, i).0;
      var r := Run(H, c, s1, i.now, between).0;
      RunLooks(H, c, s1, i.now, between) == 0 && Found(r, next.event) ==>
        (Looks(c, r, next) <==>
           next.now >= i.now + c.interval || RunFound(H, c, s1, i.now, between) + 1 >= c.sharesThreshold)
  {
    hide Inv, Step, TemplateOk, Run, RunLooks, RunFound, TooSoon, Rejections, Found, InputsOk;
    StepKeepsInv(H, c, s, i);
    var s1 := Step(H, c, s, i).0;
    StepMarks(H, c, s, i);
    StepRecords(H, c, s, i);
    CountersExact(H, c, s1, i.now, between);
    FoundAtMost(H, c, s1, i.now, between);
    ClockForward(i.now, between);
    var r := Run(H, c, s1, i.now, between).0;
    if RunLooks(H, c, s1, i.now, between) == 0 && Found(r, next.event) {
      MarksStay(H, c, s1, i.now, between);
      FoundInMap(r, next.event);
      TooSoonMeaning(c, Recorded(r.limiter, r.jobs[next.event.jobid].diff, next.now), next.now);
    }
  }

  lemma FoundInMap(s: Session, e: Event)
    requires Found(s, e)
    ensures e.Submit? && e.jobid in s.jobs
  {
  }
}
