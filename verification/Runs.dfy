/** Whole sessions: every run of the state machine from any valid state, and what holds along it. */
module Runs {
  import opened Bytes
  import opened Codec
  import opened Blocks
  import opened Targets
  import opened Work
  import opened Limiting
  import opened Stratum

  /** The clock never runs backwards and every template the server holds is well formed. */
  ghost predicate InputsOk(clock: nat, inputs: seq<Input>)
    decreases inputs
  {
    inputs == []
    || (clock <= inputs[0].now < 0x1_0000_0000 && TemplateOk(inputs[0].work) && InputsOk(inputs[0].now, inputs[1..]))
  }

  lemma InvLater(c: Config, s: Session, clock: nat, now: nat)
    requires Inv(c, s, clock) && clock <= now < 0x1_0000_0000
    ensures Inv(c, s, now)
  {
  }

  /** The state after a run, and everything that went out, in order. */
  function Run(H: HashFn, c: Config, s: Session, ghost clock: nat, inputs: seq<Input>): (Session, seq<Output>)
    requires Inv(c, s, clock) && InputsOk(clock, inputs)
    decreases inputs
  {
    if inputs == [] then (s, [])
    else
      var i := inputs[0];
      InvLater(c, s, clock, i.now);
      StepKeepsInv(H, c, s, i);
      var (s1, out) := Step(H, c, s, i);
      var (s2, more) := Run(H, c, s1, i.now, inputs[1..]);
      (s2, out + more)
  }

  /** The clock after a run. */
  function EndClock(clock: nat, inputs: seq<Input>): nat {
    if inputs == [] then clock else inputs[|inputs| - 1].now
  }

  /** A new connection. The extranonce before subscription and the limiter's share mark are not
      initialised by the source: any values. */
  function Connected(c: Config, extranonce: U32, lastShares: nat, now: nat): Session {
    var limiter := Limiter([], [], Backdated(now), lastShares, Backdated(now), 0);
    Session({}, extranonce, map[], 0, c.startingDiff, c.minDiff, limiter)
  }

  lemma ConnectedInv(c: Config, extranonce: U32, lastShares: nat, now: nat)
    requires ConfigOk(c) && now < 0x1_0000_0000
    ensures Inv(c, Connected(c, extranonce, lastShares, now), now)
  {
  }

  lemma {:induction false} RunKeepsInv(H: HashFn, c: Config, s: Session, clock: nat, inputs: seq<Input>)
    requires Inv(c, s, clock) && InputsOk(clock, inputs)
    ensures Inv(c, Run(H, c, s, clock, inputs).0, EndClock(clock, inputs))
    decreases inputs
  {
    hide Inv, Step, TemplateOk;
    if inputs != [] {
      var i := inputs[0];
      InvLater(c, s, clock, i.now);
      StepKeepsInv(H, c, s, i);
      RunKeepsInv(H, c, Step(H, c, s, i).0, i.now, inputs[1..]);
    }
  }

  lemma {:induction false} InputsPrefix(clock: nat, inputs: seq<Input>, j: nat)
    requires InputsOk(clock, inputs) && j <= |inputs|
    ensures InputsOk(clock, inputs[..j])
    ensures j < |inputs| ==> TemplateOk(inputs[j].work) && EndClock(clock, inputs[..j]) <= inputs[j].now < 0x1_0000_0000
    decreases inputs
  {
    hide TemplateOk;
    if j > 0 {
      InputsPrefix(inputs[0].now, inputs[1..], j - 1);
      assert inputs[..j][1..] == inputs[1..][..j - 1];
    }
  }

  /** Every prefix of a run is a run, and the state it leads to is fit for the next input. */
  lemma Before(H: HashFn, c: Config, s: Session, clock: nat, inputs: seq<Input>, j: nat)
    requires Inv(c, s, clock) && InputsOk(clock, inputs) && j < |inputs|
    ensures InputsOk(clock, inputs[..j]) && TemplateOk(inputs[j].work)
    ensures Inv(c, Run(H, c, s, clock, inputs[..j]).0, inputs[j].now)
  {
    hide Inv, TemplateOk, Run, InputsOk;
    InputsPrefix(clock, inputs, j);
    RunKeepsInv(H, c, s, clock, inputs[..j]);
    InvLater(c, Run(H, c, s, clock, inputs[..j]).0, EndClock(clock, inputs[..j]), inputs[j].now);
  }

  /** A run, taken apart at its first input. */
  lemma RunHead(H: HashFn, c: Config, s: Session, clock: nat, inputs: seq<Input>)
    requires Inv(c, s, clock) && InputsOk(clock, inputs) && inputs != []
    ensures
      var i := inputs[0];
      && Inv(c, s, i.now) && TemplateOk(i.work) && InputsOk(i.now, inputs[1..])
      && var (s1, out) := Step(H, c, s, i);
         && Inv(c, s1, i.now)
         && var (r, more) := Run(H, c, s1, i.now, inputs[1..]);
            Run(H, c, s, clock, inputs) == (r, out + more)
  {
    hide Inv, TemplateOk, Step;
    InvLater(c, s, clock, inputs[0].now);
    StepKeepsInv(H, c, s, inputs[0]);
  }

  lemma EmptyRun(H: HashFn, c: Config, s: Session, clock: nat)
    requires Inv(c, s, clock)
    ensures InputsOk(clock, []) && Run(H, c, s, clock, []) == (s, [])
  {
    hide Inv;
  }

  /** A run, taken apart at its last input. */
  lemma {:induction false} RunSnoc(H: HashFn, c: Config, s: Session, clock: nat, inputs: seq<Input>, n: nat)
    requires Inv(c, s, clock) && InputsOk(clock, inputs) && |inputs| == n + 1
    ensures InputsOk(clock, inputs[..n]) && TemplateOk(inputs[n].work)
    ensures Inv(c, Run(H, c, s, clock, inputs[..n]).0, inputs[n].now)
    ensures
      var r := Run(H, c, s, clock, inputs[..n]);
      var last := Step(H, c, r.0, inputs[n]);
      Run(H, c, s, clock, inputs) == (last.0, r.1 + last.1)
    decreases inputs
  {
    hide *;
    Before(H, c, s, clock, inputs, n);
    RunHead(H, c, s, clock, inputs);
    if n == 0 {
      LoneInput(H, c, s, clock, inputs);
    } else {
      var i, rest := inputs[0], inputs[1..];
      var (s1, out) := Step(H, c, s, i);
      RunSnoc(H, c, s1, i.now, rest, n - 1);
      RunHead(H, c, s, clock, inputs[..n]);
      PrefixOfRest(inputs);
      var (r, mid) := Run(H, c, s1, i.now, rest[..n - 1]);
      Associative(out, mid, Step(H, c, r, inputs[n]).1);
    }
  }

  lemma LoneInput(H: HashFn, c: Config, s: Session, clock: nat, inputs: seq<Input>)
    requires |inputs| == 1 && Inv(c, s, inputs[0].now) && Inv(c, s, clock) && TemplateOk(inputs[0].work)
    requires InputsOk(clock, inputs)
    ensures InputsOk(clock, inputs[..0]) && Run(H, c, s, clock, inputs[..0]) == (s, [])
    ensures Run(H, c, s, clock, inputs) == (Step(H, c, s, inputs[0]).0, [] + Step(H, c, s, inputs[0]).1)
  {
    hide *;
    RunHead(H, c, s, clock, inputs);
    var (s1, out) := Step(H, c, s, inputs[0]);
    EmptyRun(H, c, s, clock);
    EmptyRun(H, c, s1, inputs[0].now);
    assert inputs[1..] == [] && inputs[..0] == [];
    assert out + [] == out == [] + out;
  }

  lemma PrefixOfRest(inputs: seq<Input>)
    requires |inputs| >= 2
    ensures inputs[..|inputs| - 1][1..] == inputs[1..][..|inputs| - 2] && inputs[..|inputs| - 1][0] == inputs[0]
  {
  }

  lemma Associative(a: seq<Output>, b: seq<Output>, c: seq<Output>)
    ensures (a + b) + c == a + (b + c)
  {
  }

  /** Everything that goes out over a run goes out in one of its steps. */
  lemma {:induction false} OutputOrigin(H: HashFn, c: Config, s: Session, clock: nat, inputs: seq<Input>, n: nat)
    returns (j: nat)
    requires Inv(c, s, clock) && InputsOk(clock, inputs) && n < |Run(H, c, s, clock, inputs).1|
    ensures j < |inputs| && InputsOk(clock, inputs[..j]) && TemplateOk(inputs[j].work)
    ensures
      var r := Run(H, c, s, clock, inputs[..j]).0;
      Inv(c, r, inputs[j].now) && Run(H, c, s, clock, inputs).1[n] in Step(H, c, r, inputs[j]).1
    decreases |inputs|
  {
    hide Inv, TemplateOk, Step, InputsOk, Run;
    if inputs == [] {
      EmptyRun(H, c, s, clock);
    }
    var last := |inputs| - 1;
    RunSnoc(H, c, s, clock, inputs, last);
    if n < |Run(H, c, s, clock, inputs[..last]).1| {
      j := OutputOrigin(H, c, s, clock, inputs[..last], n);
      assert inputs[..last][..j] == inputs[..j];
    } else {
      j := last;
    }
  }

  /** A run, taken apart anywhere. */
  lemma {:induction false} RunSplit(H: HashFn, c: Config, s: Session, clock: nat, inputs: seq<Input>, j: nat)
    requires Inv(c, s, clock) && InputsOk(clock, inputs) && j <= |inputs|
    ensures InputsOk(clock, inputs[..j]) && InputsOk(EndClock(clock, inputs[..j]), inputs[j..])
    ensures
      var (r, out) := Run(H, c, s, clock, inputs[..j]);
      && Inv(c, r, EndClock(clock, inputs[..j]))
      && var (r', more) := Run(H, c, r, EndClock(clock, inputs[..j]), inputs[j..]);
         Run(H, c, s, clock, inputs) == (r', out + more)
    decreases j
  {
    hide *;
    InputsPrefix(clock, inputs, j);
    RunKeepsInv(H, c, s, clock, inputs[..j]);
    if j == 0 {
      NoneTaken(clock, inputs);
      EmptyRun(H, c, s, clock);
      assert forall out: seq<Output> :: [] + out == out;
    } else {
      RunSplit(H, c, s, clock, inputs, j - 1);
      var rest := inputs[j - 1..];
      var (r, out) := Run(H, c, s, clock, inputs[..j - 1]);
      RunHead(H, c, r, EndClock(clock, inputs[..j - 1]), rest);
      RunSnoc(H, c, s, clock, inputs[..j], j - 1);
      OneMoreTaken(clock, inputs, j);
      var (s1, mid) := Step(H, c, r, inputs[j - 1]);
      Associative(out, mid, Run(H, c, s1, inputs[j - 1].now, inputs[j..]).1);
    }
  }

  lemma NoneTaken(clock: nat, inputs: seq<Input>)
    ensures inputs[..0] == [] && inputs[0..] == inputs && EndClock(clock, inputs[..0]) == clock
  {
  }

  lemma OneMoreTaken(clock: nat, inputs: seq<Input>, j: nat)
    requires 0 < j <= |inputs|
    ensures inputs[j - 1..][1..] == inputs[j..] && inputs[j - 1..][0] == inputs[j - 1]
    ensures inputs[..j][..j - 1] == inputs[..j - 1] && inputs[..j][j - 1] == inputs[j - 1]
    ensures EndClock(clock, inputs[..j]) == inputs[j - 1].now
  {
  }

  // ---------------------------------------------------------------- difficulty

  ghost predicate WorkerMinimaAtMost(inputs: seq<Input>, bound: nat) {
    forall k :: 0 <= k < |inputs| && inputs[k].event.Authorize? ==> inputs[k].event.minDiff <= bound
  }

  lemma SetDifficultyBound(H: HashFn, s: Session, diff: nat, resend: bool, work: BlockData, bound: nat)
    requires TemplateOk(work) && diff > 0 && s.minDiff <= bound && diff <= bound
    ensures SetDifficulty(H, s, diff, resend, work).0.diff <= bound
    ensures SetDifficulty(H, s, diff, resend, work).0.minDiff == s.minDiff
  {
    hide TemplateOk, GetJob, NotifyOf;
  }

  lemma LimitBound(H: HashFn, c: Config, s: Session, diff: nat, now: nat, noise: Noise, work: BlockData, bound: nat)
    requires Inv(c, s, now) && TemplateOk(work)
    requires s.diff <= bound && s.minDiff <= bound && c.maxDiff <= bound
    ensures
      var s' := Limit(H, c, s, diff, now, noise, work).0;
      s'.diff <= bound && s'.minDiff <= bound
  {
    hide JobOk, JobsOk, TemplateOk, NotifyOf, GetJob, SetDifficulty, Decide;
    var (l, v) := Decide(c, s.limiter, diff, now, s.diff, noise);
    if v.Retarget? || v.Reset? {
      SetDifficultyBound(H, s.(limiter := l), v.diff, v.Retarget?, work, bound);
    }
  }

  lemma CheckSameDifficulty(H: HashFn, s: Session, id: nat, job: Job, user: string, share: Share, accepted: bool)
    requires JobOk(job)
    ensures
      var s' := Check(H, s, id, job, user, share, accepted).0;
      s'.diff == s.diff && s'.minDiff == s.minDiff
  {
    hide JobOk, Candidate, HeaderBytes, FromHex, Reverse, Pack;
  }

  lemma CheckRest(H: HashFn, s: Session, id: nat, job: Job, user: string, share: Share, accepted: bool)
    requires JobOk(job)
    ensures
      var s' := Check(H, s, id, job, user, share, accepted).0;
      && s'.workers == s.workers && s'.extranonce == s.extranonce
      && s'.limiter == s.limiter.(bad := s'.limiter.bad)
  {
    hide JobOk, Candidate, HeaderBytes, FromHex, Reverse, Pack, FromLE;
  }

  lemma StepBound(H: HashFn, c: Config, s: Session, i: Input, bound: nat)
    requires Inv(c, s, i.now) && TemplateOk(i.work)
    requires s.diff <= bound && s.minDiff <= bound && c.maxDiff <= bound
    requires i.event.Authorize? ==> i.event.minDiff <= bound
    ensures Step(H, c, s, i).0.diff <= bound && Step(H, c, s, i).0.minDiff <= bound
  {
    hide JobOk, TemplateOk, NotifyOf, GetJob, SetDifficulty, Limit, Check, ClockOk, ToHex, LE;
    match i.event
    case Subscribe(_) =>
    case SendWork(_) =>
    case Authorize(user, found, min) =>
      var s1 := s.(workers := s.workers + {user}, minDiff := min);
      if s1.diff < s1.minDiff {
        SetDifficultyBound(H, s1, s1.minDiff, false, i.work, bound);
      }
    case Submit(user, id, share, noise, accepted) =>
      if user in s.workers && id in s.jobs {
        var job := s.jobs[id];
        LimitBound(H, c, s, job.diff, i.now, noise, i.work, bound);
        CheckSameDifficulty(H, Limit(H, c, s, job.diff, i.now, noise, i.work).0, id, job, user, share, accepted);
      }
  }

  /** In every reachable state the difficulty is at least the worker minimum and the configured minimum,
      hence positive, and at most any bound on the start, the configured maximum and the worker minima. */
  lemma {:induction false} DifficultyInRange(
      H: HashFn, c: Config, s: Session, clock: nat, inputs: seq<Input>, bound: nat)
    requires Inv(c, s, clock) && InputsOk(clock, inputs)
    requires s.diff <= bound && s.minDiff <= bound && c.maxDiff <= bound && WorkerMinimaAtMost(inputs, bound)
    ensures
      var r := Run(H, c, s, clock, inputs).0;
      1 <= c.minDiff <= r.diff <= bound && r.minDiff <= r.diff
    decreases inputs
  {
    hide JobsOk, ClockOk, Step, TemplateOk;
    if inputs != [] {
      var i := inputs[0];
      InvLater(c, s, clock, i.now);
      StepKeepsInv(H, c, s, i);
      StepBound(H, c, s, i, bound);
      DifficultyInRange(H, c, Step(H, c, s, i).0, i.now, inputs[1..], bound);
    }
  }

  lemma LimitStart(H: HashFn, c: Config, s: Session, diff: nat, now: nat, noise: Noise, work: BlockData)
    requires Inv(c, s, now) && TemplateOk(work)
    ensures Limit(H, c, s, diff, now, noise, work).0.limiter.startTime == s.limiter.startTime
  {
    hide JobOk, JobsOk, TemplateOk, NotifyOf, GetJob, ClockOk, TooSoon, MostlyBad, NewDiff, Variance, Dropped;
  }

  lemma StepStart(H: HashFn, c: Config, s: Session, i: Input)
    requires Inv(c, s, i.now) && TemplateOk(i.work)
    ensures Step(H, c, s, i).0.limiter.startTime == s.limiter.startTime
  {
    hide JobOk, TemplateOk, NotifyOf, GetJob, Limit, Check, ClockOk, ToHex, LE;
    var e := i.event;
    if e.Submit? && e.user in s.workers && e.jobid in s.jobs {
      var job := s.jobs[e.jobid];
      LimitStart(H, c, s, job.diff, i.now, e.noise, i.work);
      CheckRest(H, Limit(H, c, s, job.diff, i.now, e.noise, i.work).0, e.jobid, job, e.user, e.share, e.accepted);
    }
  }

  lemma {:induction false} RunStart(H: HashFn, c: Config, s: Session, clock: nat, inputs: seq<Input>)
    requires Inv(c, s, clock) && InputsOk(clock, inputs)
    ensures Run(H, c, s, clock, inputs).0.limiter.startTime == s.limiter.startTime
    decreases inputs
  {
    hide *;
    if inputs == [] {
      EmptyRun(H, c, s, clock);
    } else {
      RunHead(H, c, s, clock, inputs);
      StepStart(H, c, s, inputs[0]);
      RunStart(H, c, Step(H, c, s, inputs[0]).0, inputs[0].now, inputs[1..]);
    }
  }

  lemma {:induction false} ClockForward(clock: nat, inputs: seq<Input>)
    requires InputsOk(clock, inputs)
    ensures clock <= EndClock(clock, inputs)
    decreases inputs
  {
    hide TemplateOk;
    if inputs != [] {
      ClockForward(inputs[0].now, inputs[1..]);
    }
  }

  /** The backdating does its work: at any point of any session the estimate divides by ten seconds or more
      exactly if the buffer is that long and, for a connection made in the first ten seconds of the clock, where
      the subtraction wraps, the clock has not reached its last ten. */
  lemma IntervalAtLeastTen(
      H: HashFn, c: Config, extranonce: U32, lastShares: nat, start: nat, inputs: seq<Input>, now: nat)
    requires ConfigOk(c) && start < 0x1_0000_0000 && InputsOk(start, inputs)
    requires EndClock(start, inputs) <= now < 0x1_0000_0000
    ensures Inv(c, Connected(c, extranonce, lastShares, start), start)
    ensures
      var l := Run(H, c, Connected(c, extranonce, lastShares, start), start, inputs).0.limiter;
      Min(Wrap64(now - l.startTime), c.timeBuffer) >= 10
      <==> c.timeBuffer >= 10 && (start >= 10 || now < 0x1_0000_0000 + start - 10)
  {
    hide Inv, Run, InputsOk, ConfigOk;
    ConnectedInv(c, extranonce, lastShares, start);
    RunStart(H, c, Connected(c, extranonce, lastShares, start), start, inputs);
    ClockForward(start, inputs);
  }

  // ---------------------------------------------------------------- how the job map evolves

  /** s' is a later state: a job of s' was either issued since, or is the job of s under the same id
      with a grown share set. */
  ghost predicate Later(s: Session, s': Session) {
    s.issued <= s'.issued
    && forall id :: id in s'.jobs ==>
         s.issued <= s'.jobs[id].serial
         || (id in s.jobs && s.jobs[id].shares <= s'.jobs[id].shares
             && s'.jobs[id] == s.jobs[id].(shares := s'.jobs[id].shares))
  }

  lemma LaterTransitive(a: Session, b: Session, c: Session)
    requires Later(a, b) && Later(b, c)
    ensures Later(a, c)
  {
  }

  lemma SendJobLater(H: HashFn, s: Session, work: BlockData, clean: bool)
    requires TemplateOk(work) && s.diff > 0
    ensures Later(s, SendJob(H, s, work, clean).0)
  {
    hide TemplateOk, NotifyOf, JobOk;
  }

  lemma SetDifficultyLater(H: HashFn, s: Session, diff: nat, resend: bool, work: BlockData)
    requires TemplateOk(work) && diff > 0
    ensures Later(s, SetDifficulty(H, s, diff, resend, work).0)
  {
    hide TemplateOk, NotifyOf, GetJob;
    var d := if diff < s.minDiff then s.minDiff else diff;
    SendJobLater(H, s.(diff := d), work, false);
  }

  lemma LimitLater(H: HashFn, c: Config, s: Session, diff: nat, now: nat, noise: Noise, work: BlockData)
    requires Inv(c, s, now) && TemplateOk(work)
    ensures Later(s, Limit(H, c, s, diff, now, noise, work).0)
  {
    hide JobOk, JobsOk, TemplateOk, NotifyOf, GetJob, SetDifficulty, Decide;
    var (l, v) := Decide(c, s.limiter, diff, now, s.diff, noise);
    var s1 := s.(limiter := l);
    SameJobs(s, s1);
    if v.Retarget? {
      SetDifficultyLater(H, s1, v.diff, true, work);
    } else if v.Reset? {
      var s2 := SetDifficulty(H, s1, v.diff, false, work).0;
      SetDifficultyLater(H, s1, v.diff, false, work);
      SetDifficultyKeeps(H, s1, v.diff, false, work);
      SendJobLater(H, s2, work, true);
      LaterTransitive(s1, s2, SendJob(H, s2, work, true).0);
    }
  }

  lemma CheckLater(H: HashFn, s: Session, id: nat, job: Job, user: string, share: Share, accepted: bool)
    requires JobOk(job)
    requires id in s.jobs && s.jobs[id].serial == job.serial ==> s.jobs[id] == job
    ensures Later(s, Check(H, s, id, job, user, share, accepted).0)
  {
    hide JobOk, Candidate, HeaderBytes, FromHex, Reverse, Pack, Remember, Later, FromLE;
    var nonce, en2 := Reverse(FromHex(share.nonce)), FromHex(share.extranonce2);
    RememberLater(s, id, job, 0);
    LaterReflexive(s);
    if |nonce| == 4 && |en2| == 4 {
      RememberLater(s, id, job, Pack(nonce, en2));
    }
  }

  lemma RememberLater(s: Session, id: nat, job: Job, packed: U64)
    requires id in s.jobs && s.jobs[id].serial == job.serial ==> s.jobs[id] == job
    ensures Later(s, Remember(s, id, job, packed)) && Later(s, LogBad(Remember(s, id, job, packed)))
    ensures Later(s, LogBad(s))
  {
    hide JobOk;
  }

  /** A passing limiter leaves the job's entry as it was, or replaced by a newer job under a reissued id. */
  lemma LimitKeepsEntry(H: HashFn, c: Config, s: Session, diff: nat, now: nat, noise: Noise, work: BlockData, id: nat)
    requires Inv(c, s, now) && TemplateOk(work) && id in s.jobs
    ensures
      var (s', ok, _) := Limit(H, c, s, diff, now, noise, work);
      ok && id in s'.jobs && s'.jobs[id].serial == s.jobs[id].serial ==> s'.jobs[id] == s.jobs[id]
  {
    hide JobOk, TemplateOk, NotifyOf, Decide, ClockOk;
  }

  lemma StepLater(H: HashFn, c: Config, s: Session, i: Input)
    requires Inv(c, s, i.now) && TemplateOk(i.work)
    ensures Later(s, Step(H, c, s, i).0)
  {
    hide JobOk, TemplateOk, NotifyOf, GetJob, SetDifficulty, SendJob, Limit, Check, ClockOk, ToHex, LE;
    match i.event
    case Subscribe(en) => SendJobLater(H, s.(extranonce := en), i.work, false);
    case SendWork(clean) => SendJobLater(H, s, i.work, clean);
    case Authorize(user, found, min) =>
      var s1 := s.(workers := s.workers + {user}, minDiff := min);
      if s1.diff < s1.minDiff {
        SetDifficultyLater(H, s1, s1.minDiff, false, i.work);
      }
    case Submit(user, id, share, noise, accepted) =>
      if user in s.workers && id in s.jobs {
        var job := s.jobs[id];
        var s1 := Limit(H, c, s, job.diff, i.now, noise, i.work).0;
        LimitLater(H, c, s, job.diff, i.now, noise, i.work);
        if Limit(H, c, s, job.diff, i.now, noise, i.work).1 {
          LimitKeepsEntry(H, c, s, job.diff, i.now, noise, i.work, id);
          CheckLater(H, s1, id, job, user, share, accepted);
          LaterTransitive(s, s1, Check(H, s1, id, job, user, share, accepted).0);
        }
      }
  }

  lemma {:induction false} RunLater(H: HashFn, c: Config, s: Session, clock: nat, inputs: seq<Input>)
    requires Inv(c, s, clock) && InputsOk(clock, inputs)
    ensures Later(s, Run(H, c, s, clock, inputs).0)
    decreases inputs
  {
    hide Inv, Step, TemplateOk, Later;
    if inputs == [] {
      LaterReflexive(s);
    } else {
      var i := inputs[0];
      InvLater(c, s, clock, i.now);
      StepKeepsInv(H, c, s, i);
      StepLater(H, c, s, i);
      var s1 := Step(H, c, s, i).0;
      RunLater(H, c, s1, i.now, inputs[1..]);
      LaterTransitive(s, s1, Run(H, c, s1, i.now, inputs[1..]).0);
    }
  }

  lemma LaterReflexive(s: Session)
    ensures Later(s, s)
  {
  }

  // ---------------------------------------------------------------- credit

  function Credits(outs: seq<Output>): seq<Credit> {
    if outs == [] then []
    else
      var rest := Credits(outs[..|outs| - 1]);
      var o := outs[|outs| - 1];
      if o.Credited? then rest + [o.credit] else rest
  }

  lemma {:induction false} CreditsConcat(a: seq<Output>, b: seq<Output>)
    ensures Credits(a + b) == Credits(a) + Credits(b)
  {
    if b == [] {
      assert a + b == a;
    } else {
      var init := b[..|b| - 1];
      CreditsConcat(a, init);
      assert (a + b)[..|a + b| - 1] == a + init;
    }
  }

  /** The credit names the job, and its block is the candidate of the job's template and the share. */
  ghost predicate ForShare(H: HashFn, job: Job, en1: U32, k: Credit, share: Share)
    requires JobOk(job)
  {
    var en2, time, nonce := FromHex(share.extranonce2), Reverse(FromHex(share.ntime)), Reverse(FromHex(share.nonce));
    && |en2| == 4 && |time| == 4 && |nonce| == 4
    && k == Credit(job.serial, job.diff, nonce, en2, Candidate(H, job.block, en1, en2, time, nonce))
  }

  /** Sizes are four, the pair is new to the job, and the hash of the header a miner assembles from the job's
      notification is at most the job's target and either above the block target or accepted by the network. */
  ghost predicate Deserves(H: HashFn, en1: U32, id: U32, job: Job, share: Share, accepted: bool)
    requires JobOk(job)
  {
    var en2, time, nonce := FromHex(share.extranonce2), Reverse(FromHex(share.ntime)), Reverse(FromHex(share.nonce));
    && |en2| == 4 && |time| == 4 && |nonce| == 4 && Pack(nonce, en2) !in job.shares
    && var hash := FromLE(H(MinerHeader(H, NotifyOf(H, id, job.block, false), ToHex(LE(en1, 4)),
                                        share.extranonce2, share.ntime, share.nonce)));
       hash <= DiffToTarget(job.diff) && (hash > TargetFromBits(job.block.bits) || accepted)
  }

  /** The evidence behind a credit: the job of the submitted id and a share that deserves it. */
  ghost predicate Earned(H: HashFn, s: Session, k: Credit, e: Event) {
    && e.Submit? && e.user in s.workers && e.jobid in s.jobs
    && var job := s.jobs[e.jobid];
    && JobOk(job) && ForShare(H, job, s.extranonce, k, e.share)
    && Deserves(H, s.extranonce, e.jobid, job, e.share, e.accepted)
    && FromLE(H(HeaderBytes(k.block))) <= DiffToTarget(job.diff)
  }

  lemma LimitNoCredit(H: HashFn, c: Config, s: Session, diff: nat, now: nat, noise: Noise, work: BlockData)
    requires Inv(c, s, now) && TemplateOk(work)
    ensures
      var (s', _, out) := Limit(H, c, s, diff, now, noise, work);
      Credits(out) == [] && s'.extranonce == s.extranonce
      && (forall k :: 0 <= k < |out| ==> out[k].DifficultySet? || out[k].Notified? || out[k].Banned?)
  {
    hide JobOk, TemplateOk, NotifyOf, GetJob, Decide, ClockOk, Credits;
    var out := Limit(H, c, s, diff, now, noise, work).2;
    NoCredits(out);
  }

  lemma {:induction false} NoCredits(out: seq<Output>)
    requires forall k :: 0 <= k < |out| ==> !out[k].Credited?
    ensures Credits(out) == []
  {
    if out != [] {
      NoCredits(out[..|out| - 1]);
    }
  }

  /** Check grants one credit exactly when the share deserves it, for the given job and share. */
  lemma CheckCredit(H: HashFn, s: Session, id: U32, job: Job, user: string, share: Share, accepted: bool)
    requires JobOk(job)
    ensures
      var (s', out) := Check(H, s, id, job, user, share, accepted);
      var ks := Credits(out);
      && |ks| == (if Deserves(H, s.extranonce, id, job, share, accepted) then 1 else 0)
      && (|ks| == 1 ==>
            && ForShare(H, job, s.extranonce, ks[0], share)
            && FromLE(H(HeaderBytes(ks[0].block))) <= DiffToTarget(job.diff)
            && (id in s'.jobs && s'.jobs[id].serial == job.serial
                ==> Pack(ks[0].nonce, ks[0].extranonce2) in s'.jobs[id].shares))
  {
    hide TemplateOk, TxBytes, Cut, DiffToTarget, TargetFromBits, Candidate, HeaderBytes, FromHex, Reverse, Pack,
         FromLE, MinerHeader, NotifyOf, ToHex, LE, Credits;
    var out := Check(H, s, id, job, user, share, accepted).1;
    CreditsOfFew(out);
    var en2, time, nonce := FromHex(share.extranonce2), Reverse(FromHex(share.ntime)), Reverse(FromHex(share.nonce));
    if |en2| == 4 && |time| == 4 && |nonce| == 4 {
      HeaderAgreement(H, id, job.block, false, s.extranonce, share.extranonce2, share.ntime, share.nonce);
    }
  }

  lemma CreditsOfFew(out: seq<Output>)
    ensures |out| == 0 ==> Credits(out) == []
    ensures |out| == 1 ==> Credits(out) == if out[0].Credited? then [out[0].credit] else []
    ensures |out| == 2 && !out[1].Credited? ==> Credits(out) == if out[0].Credited? then [out[0].credit] else []
    ensures |out| == 3 && !out[0].Credited? && out[1].Credited? && !out[2].Credited? ==>
              Credits(out) == [out[1].credit]
  {
    hide *;
    Unfold(out);
    if out != [] {
      var a := out[..|out| - 1];
      Unfold(a);
      if a != [] {
        var b := a[..|a| - 1];
        Unfold(b);
        if b != [] {
          Unfold(b[..|b| - 1]);
        }
      }
    }
  }

  lemma Unfold(out: seq<Output>)
    ensures out == [] ==> Credits(out) == []
    ensures out != [] && out[|out| - 1].Credited? ==>
              Credits(out) == Credits(out[..|out| - 1]) + [out[|out| - 1].credit]
    ensures out != [] && !out[|out| - 1].Credited? ==> Credits(out) == Credits(out[..|out| - 1])
  {
  }

  /** A job with this credit's serial has the credited pair in its share set. */
  ghost predicate Covers(s: Session, k: Credit) {
    && k.serial < s.issued && |k.nonce| == 4 && |k.extranonce2| == 4
    && forall id :: id in s.jobs && s.jobs[id].serial == k.serial ==> Pack(k.nonce, k.extranonce2) in s.jobs[id].shares
  }

  lemma CoversLater(s: Session, s': Session, k: Credit)
    requires Covers(s, k) && Later(s, s')
    ensures Covers(s', k)
  {
    hide Pack;
  }

  /** The submission finds its job and the limiter lets it through. */
  ghost predicate Admitted(H: HashFn, c: Config, s: Session, i: Input)
    requires Inv(c, s, i.now) && TemplateOk(i.work)
  {
    var e := i.event;
    && e.Submit? && e.user in s.workers && e.jobid in s.jobs
    && Limit(H, c, s, s.jobs[e.jobid].diff, i.now, e.noise, i.work).1
  }

  /** A step grants one credit exactly when it is a submission the limiter lets through that deserves it; it is
      earned in the state the step starts from and covered in the state it leads to. */
  lemma StepCredit(H: HashFn, c: Config, s: Session, i: Input)
    requires Inv(c, s, i.now) && TemplateOk(i.work)
    ensures
      var (s', out) := Step(H, c, s, i);
      var ks := Credits(out);
      && |ks| <= 1 && (|ks| == 1 ==> Earned(H, s, ks[0], i.event) && Covers(s', ks[0]))
      && (|ks| == 1 <==>
            && Admitted(H, c, s, i) && JobOk(s.jobs[i.event.jobid])
            && Deserves(H, s.extranonce, i.event.jobid, s.jobs[i.event.jobid], i.event.share, i.event.accepted))
  {
    hide JobOk, TemplateOk, NotifyOf, GetJob, SetDifficulty, SendJob, Limit, Check, ClockOk, ToHex, LE, Credits,
         Deserves, Earned, Pack, FromLE, Later, Covers, OnAuthorize, OnSubmit;
    var out := Step(H, c, s, i).1;
    match i.event
    case Subscribe(en) =>
      OnlyNotified(H, s.(extranonce := en), i.work, false);
      NoCredits(out);
    case SendWork(clean) =>
      OnlyNotified(H, s, i.work, clean);
      NoCredits(out);
    case Authorize(user, found, min) => AuthorizeNoCredit(H, s, i.event, i.work);
    case Submit(user, id, share, noise, accepted) =>
      if user !in s.workers || id !in s.jobs {
        NotFoundNoCredit(H, c, s, i.event, i.now, i.work);
      } else {
        SubmitCredit(H, c, s, i);
      }
  }

  lemma NotFoundNoCredit(H: HashFn, c: Config, s: Session, e: Event, now: nat, work: BlockData)
    requires Inv(c, s, now) && TemplateOk(work) && e.Submit? && (e.user !in s.workers || e.jobid !in s.jobs)
    ensures Credits(OnSubmit(H, c, s, e, now, work).1) == []
  {
    hide JobOk, TemplateOk, ClockOk, Credits, Limit, Check;
    NoCredits(OnSubmit(H, c, s, e, now, work).1);
  }

  lemma OnlyNotified(H: HashFn, s: Session, work: BlockData, clean: bool)
    requires TemplateOk(work) && s.diff > 0
    ensures forall k :: 0 <= k < |SendJob(H, s, work, clean).1| ==> SendJob(H, s, work, clean).1[k].Notified?
  {
    hide TemplateOk, NotifyOf, GetJob;
  }

  lemma AuthorizeNoCredit(H: HashFn, s: Session, e: Event, work: BlockData)
    requires TemplateOk(work) && e.Authorize?
    ensures Credits(OnAuthorize(H, s, e, work).1) == []
  {
    hide TemplateOk, NotifyOf, GetJob, Credits;
    NoCredits(OnAuthorize(H, s, e, work).1);
  }

  lemma SubmitCredit(H: HashFn, c: Config, s: Session, i: Input)
    requires Inv(c, s, i.now) && TemplateOk(i.work)
    requires i.event.Submit? && i.event.user in s.workers && i.event.jobid in s.jobs
    ensures
      var (s', out) := OnSubmit(H, c, s, i.event, i.now, i.work);
      var ks := Credits(out);
      var job := s.jobs[i.event.jobid];
      && JobOk(job) && |ks| <= 1 && (|ks| == 1 ==> Earned(H, s, ks[0], i.event) && Covers(s', ks[0]))
      && (|ks| == 1 <==>
            Admitted(H, c, s, i) && Deserves(H, s.extranonce, i.event.jobid, job, i.event.share, i.event.accepted))
  {
    hide JobOk, TemplateOk, Limit, Check, ClockOk, Credits, Deserves, ForShare, Pack, FromLE, Later;
    var e, now, work := i.event, i.now, i.work;
    var job := s.jobs[e.jobid];
    var (s1, ok, out) := Limit(H, c, s, job.diff, now, e.noise, work);
    LimitNoCredit(H, c, s, job.diff, now, e.noise, work);
    if !ok {
      NoCredits(out + [Error(20, "Blocked by share limiter")]);
    } else {
      var (s2, more) := Check(H, s1, e.jobid, job, e.user, e.share, e.accepted);
      CheckCredit(H, s1, e.jobid, job, e.user, e.share, e.accepted);
      CreditsConcat(out, more);
      assert Credits(out + more) == Credits(more);
      LimitKeeps(H, c, s, job.diff, now, e.noise, work);
      CheckKeeps(H, c, s1, now, e.jobid, job, e.user, e.share, e.accepted);
      LimitLater(H, c, s, job.diff, now, e.noise, work);
      LimitKeepsEntry(H, c, s, job.diff, now, e.noise, work, e.jobid);
      CheckLater(H, s1, e.jobid, job, e.user, e.share, e.accepted);
      IssuedGrows(s, s1);
      IssuedGrows(s1, s2);
      SameSerialSameId(s2, e.jobid, job.serial);
      if |Credits(more)| == 1 {
        CreditShape(H, job, s.extranonce, Credits(more)[0], e.share);
      }
    }
  }

  lemma CreditShape(H: HashFn, job: Job, en1: U32, k: Credit, share: Share)
    requires JobOk(job) && ForShare(H, job, en1, k, share)
    ensures |k.nonce| == 4 && |k.extranonce2| == 4 && k.serial == job.serial && k.diff == job.diff
  {
    hide JobOk, Candidate, FromHex, Reverse;
  }

  lemma IssuedGrows(s: Session, s': Session)
    requires Later(s, s')
    ensures s.issued <= s'.issued
  {
  }

  /** Serial numbers determine ids. */
  lemma SameSerialSameId(s: Session, id: nat, serial: nat)
    requires JobsOk(s) && serial % IDS == id
    ensures forall x :: x in s.jobs && s.jobs[x].serial == serial ==> x == id
  {
    hide JobOk;
  }

  /** The hash meets the difficulty: hash * difficulty is at most 0xffff * 2^208. */
  ghost predicate Sound(H: HashFn, k: Credit) {
    k.diff > 0 && FromLE(H(HeaderBytes(k.block))) * k.diff <= DIFF_ONE
  }

  lemma EarnedIsSound(H: HashFn, s: Session, k: Credit, e: Event)
    requires Earned(H, s, k, e)
    ensures Sound(H, k)
  {
    hide TemplateOk, TxBytes, Cut, TargetFromBits, Deserves, Candidate, HeaderBytes, FromHex, Reverse, FromLE;
    AtMostQuotient(FromLE(H(HeaderBytes(k.block))), k.diff, DIFF_ONE);
  }

  ghost predicate SameShare(a: Credit, b: Credit) {
    a.serial == b.serial && a.nonce == b.nonce && a.extranonce2 == b.extranonce2
  }

  /** No two entries credit the same pair of the same job, and each is sound. */
  ghost predicate LedgerOk(H: HashFn, log: seq<Credit>) {
    && (forall n :: 0 <= n < |log| ==> Sound(H, log[n]))
    && (forall a, b :: 0 <= a < b < |log| ==> !SameShare(log[a], log[b]))
  }

  ghost predicate CoversAll(s: Session, log: seq<Credit>) {
    forall n :: 0 <= n < |log| ==> Covers(s, log[n])
  }

  /** Credit soundness over every run: starting from any ledger the state covers, the ledger extended by
      everything the run credits is sound and credits no pair of any job twice. */
  lemma {:induction false} CreditOnce(
      H: HashFn, c: Config, s: Session, clock: nat, inputs: seq<Input>, log: seq<Credit>)
    requires Inv(c, s, clock) && InputsOk(clock, inputs)
    requires LedgerOk(H, log) && CoversAll(s, log)
    ensures LedgerOk(H, log + Credits(Run(H, c, s, clock, inputs).1))
    decreases inputs
  {
    hide *;
    if inputs == [] {
      EmptyRun(H, c, s, clock);
      NoCredits([]);
      assert log + [] == log;
    } else {
      RunHead(H, c, s, clock, inputs);
      var i := inputs[0];
      StepLater(H, c, s, i);
      StepCredit(H, c, s, i);
      var (s1, out) := Step(H, c, s, i);
      LedgerGrows(H, s, s1, log, Credits(out), i.event);
      CreditOnce(H, c, s1, i.now, inputs[1..], log + Credits(out));
      var more := Run(H, c, s1, i.now, inputs[1..]).1;
      CreditsConcat(out, more);
      assert (log + Credits(out)) + Credits(more) == log + (Credits(out) + Credits(more));
    }
  }

  lemma LedgerGrows(H: HashFn, s: Session, s': Session, log: seq<Credit>, ks: seq<Credit>, e: Event)
    requires LedgerOk(H, log) && CoversAll(s, log)
    requires Later(s, s') && |ks| <= 1 && (|ks| == 1 ==> Earned(H, s, ks[0], e) && Covers(s', ks[0]))
    ensures LedgerOk(H, log + ks)
    ensures CoversAll(s', log + ks)
  {
    hide Sound, Later, JobOk, Earned, Pack, FromLE;
    forall n | 0 <= n < |log|
      ensures Covers(s', log[n])
    {
      CoversLater(s, s', log[n]);
    }
    if |ks| == 1 {
      EarnedIsSound(H, s, ks[0], e);
      EarnedIsNew(H, s, ks[0], e);
      forall n | 0 <= n < |log|
        ensures !SameShare(log[n], ks[0])
      {
        assert Covers(s, log[n]);
      }
    }
  }

  lemma EarnedIsNew(H: HashFn, s: Session, k: Credit, e: Event)
    requires Earned(H, s, k, e)
    ensures |k.nonce| == 4 && |k.extranonce2| == 4
    ensures exists id :: id in s.jobs && s.jobs[id].serial == k.serial
                         && Pack(k.nonce, k.extranonce2) !in s.jobs[id].shares
  {
    hide JobOk, Candidate, HeaderBytes, FromHex, Reverse, Pack, FromLE, MinerHeader, NotifyOf, ToHex, LE, DiffToTarget;
    assert s.jobs[e.jobid].serial == k.serial;
  }

  /** From a new connection: every credit is sound, and no job credits the same nonce and extranonce2 twice. */
  lemma SessionLedger(H: HashFn, c: Config, extranonce: U32, lastShares: nat, now: nat, inputs: seq<Input>)
    requires ConfigOk(c) && now < 0x1_0000_0000 && InputsOk(now, inputs)
    ensures Inv(c, Connected(c, extranonce, lastShares, now), now)
    ensures LedgerOk(H, Credits(Run(H, c, Connected(c, extranonce, lastShares, now), now, inputs).1))
  {
    hide Inv, Run, Credits, Covers, TemplateOk;
    ConnectedInv(c, extranonce, lastShares, now);
    var s := Connected(c, extranonce, lastShares, now);
    CreditOnce(H, c, s, now, inputs, []);
    var ks := Credits(Run(H, c, s, now, inputs).1);
    assert [] + ks == ks;
  }

  /** The nonce is the low half of the packed value, the extranonce2 the high half. */
  lemma PackMeaning(nonce: Data, en2: Data)
    requires |nonce| == 4 && |en2| == 4
    ensures Pack(nonce, en2) == FromLE(nonce) + 0x1_0000_0000 * FromLE(en2)
  {
    hide FromLE;
    FromLEConcat(nonce, en2);
    Pow256Values();
  }

  /** The 64-bit packing loses nothing. */
  lemma PackInjective(nonce: Data, en2: Data, nonce': Data, en2': Data)
    requires |nonce| == |en2| == |nonce'| == |en2'| == 4
    ensures Pack(nonce, en2) == Pack(nonce', en2') <==> nonce == nonce' && en2 == en2'
  {
    var a, b := nonce + en2, nonce' + en2';
    if Pack(nonce, en2) == Pack(nonce', en2') {
      FromLEInjective(a, b);
      assert nonce == a[..4] && en2 == a[4..] && nonce' == b[..4] && en2' == b[4..];
    }
  }
}
