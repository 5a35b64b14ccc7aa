/** Job ids: 32-bit names for jobs. How long an id stays dead, when a looked-up job can lose its id, and the runs on
    which the counter comes round. */
module JobIds {
  import opened Bytes
  import opened Codec
  import opened Blocks
  import opened Targets
  import opened Work
  import opened Limiting
  import opened Stratum
  import opened Runs

  // ---------------------------------------------------------------- issues

  lemma SetDifficultyIssues(H: HashFn, s: Session, diff: nat, resend: bool, work: BlockData)
    requires TemplateOk(work) && diff > 0
    ensures
      var n := SetDifficulty(H, s, diff, resend, work).0.issued;
      s.issued <= n <= s.issued + if resend then 1 else 0
  {
    hide TemplateOk, NotifyOf, GetJob;
  }

  lemma LimitIssues(H: HashFn, c: Config, s: Session, diff: nat, now: nat, noise: Noise, work: BlockData)
    requires Inv(c, s, now) && TemplateOk(work)
    ensures s.issued <= Limit(H, c, s, diff, now, noise, work).0.issued <= s.issued + 1
  {
    hide JobOk, JobsOk, TemplateOk, NotifyOf, GetJob, SetDifficulty, Decide;
    var (l, v) := Decide(c, s.limiter, diff, now, s.diff, noise);
    if v.Retarget? || v.Reset? {
      SetDifficultyIssues(H, s.(limiter := l), v.diff, v.Retarget?, work);
    }
  }

  lemma CheckIssues(H: HashFn, s: Session, id: nat, job: Job, user: string, share: Share, accepted: bool)
    requires JobOk(job)
    ensures Check(H, s, id, job, user, share, accepted).0.issued == s.issued
  {
    hide JobOk, Candidate, HeaderBytes, FromHex, Reverse, Pack;
  }

  /** No handler issues more than one job. */
  lemma StepIssues(H: HashFn, c: Config, s: Session, i: Input)
    requires Inv(c, s, i.now) && TemplateOk(i.work)
    ensures s.issued <= Step(H, c, s, i).0.issued <= s.issued + 1
  {
    hide JobOk, TemplateOk, NotifyOf, GetJob, SetDifficulty, Limit, Check, ClockOk, ToHex, LE;
    match i.event
    case Subscribe(_) =>
    case SendWork(_) =>
    case Authorize(user, found, min) =>
      if found {
        var s1 := s.(workers := s.workers + {user}, minDiff := min);
        if s1.diff < s1.minDiff {
          SetDifficultyIssues(H, s1, s1.minDiff, false, i.work);
        }
      }
    case Submit(user, id, share, noise, accepted) =>
      if user in s.workers && id in s.jobs {
        var job := s.jobs[id];
        LimitIssues(H, c, s, job.diff, i.now, noise, i.work);
        CheckIssues(H, Limit(H, c, s, job.diff, i.now, noise, i.work).0, id, job, user, share, accepted);
      }
  }

  lemma {:induction false} RunIssues(H: HashFn, c: Config, s: Session, clock: nat, inputs: seq<Input>)
    requires Inv(c, s, clock) && InputsOk(clock, inputs)
    ensures s.issued <= Run(H, c, s, clock, inputs).0.issued <= s.issued + |inputs|
    decreases inputs
  {
    hide *;
    if inputs == [] {
      EmptyRun(H, c, s, clock);
    } else {
      RunHead(H, c, s, clock, inputs);
      StepIssues(H, c, s, inputs[0]);
      RunIssues(H, c, Step(H, c, s, inputs[0]).0, inputs[0].now, inputs[1..]);
    }
  }

  // ---------------------------------------------------------------- old work is dead

  /** Every job in the map was issued as number k or later. */
  ghost predicate IssuedFrom(s: Session, k: nat) {
    s.issued >= k && forall id :: id in s.jobs ==> s.jobs[id].serial >= k
  }

  /** A clean send leaves only the new job. */
  lemma CleanSend(H: HashFn, s: Session, work: BlockData)
    requires TemplateOk(work) && s.diff > 0
    ensures IssuedFrom(SendJob(H, s, work, true).0, s.issued) && SendJob(H, s, work, true).0.issued == s.issued + 1
  {
    hide TemplateOk, NotifyOf, JobOk;
  }

  lemma SameIdFarApart(a: nat, b: nat)
    requires a > b && a % IDS == b % IDS
    ensures a >= b + IDS
  {
  }

  /** The id names no job, and any submission for it by a worker is answered so. */
  ghost predicate Dead(H: HashFn, c: Config, s: Session, id: nat) {
    && id !in s.jobs
    && forall e: Event, now: nat, work: BlockData ::
         Inv(c, s, now) && TemplateOk(work) && e.Submit? && e.jobid == id && e.user in s.workers ==>
           OnSubmit(H, c, s, e, now, work)
           == (LogBad(s), [Rejected(e.user, "Job not found", 1), Error(21, "Job not found")])
  }

  lemma AbsentIsDead(H: HashFn, c: Config, s: Session, id: nat)
    requires id !in s.jobs
    ensures Dead(H, c, s, id)
  {
    hide TemplateOk, Inv, Limit, Check;
  }

  lemma OldSerialAbsent(s: Session, s': Session, k: nat, old': nat)
    requires IssuedFrom(s, k) && old' < k && Later(s, s') && JobsOk(s') && s'.issued <= old' + IDS
    ensures old' % IDS !in s'.jobs
  {
    hide JobOk;
    if old' % IDS in s'.jobs {
      SameIdFarApart(s'.jobs[old' % IDS].serial, old');
    }
  }

  /** Once a clean send has run, every id issued before it is answered "Job not found" in every later state, as
      long as the inputs since are too few to bring the 32-bit counter round to it. */
  lemma OldWorkIsDead(H: HashFn, c: Config, s: Session, clock: nat, inputs: seq<Input>, k: nat, old': nat)
    requires Inv(c, s, clock) && InputsOk(clock, inputs)
    requires IssuedFrom(s, k) && old' < k && s.issued + |inputs| <= old' + IDS
    ensures Dead(H, c, Run(H, c, s, clock, inputs).0, old' % IDS)
  {
    hide Step, TemplateOk, Run, JobsOk, ClockOk, Dead, IssuedFrom, Later;
    RunLater(H, c, s, clock, inputs);
    RunKeepsInv(H, c, s, clock, inputs);
    RunIssues(H, c, s, clock, inputs);
    var r := Run(H, c, s, clock, inputs).0;
    OldSerialAbsent(s, r, k, old');
    AbsentIsDead(H, c, r, old' % IDS);
  }

  /** A server-wide clean send followed by any run: no share for a job issued before it is ever checked. */
  lemma CleanSendKillsOldWork(H: HashFn, c: Config, s: Session, i: Input, rest: seq<Input>, old': nat)
    requires Inv(c, s, i.now) && TemplateOk(i.work) && i.event == SendWork(true)
    requires InputsOk(i.now, rest) && old' < s.issued && s.issued + 1 + |rest| <= old' + 0x1_0000_0000
    ensures Inv(c, Step(H, c, s, i).0, i.now)
    ensures Dead(H, c, Run(H, c, Step(H, c, s, i).0, i.now, rest).0, old' % IDS)
  {
    hide TemplateOk, Run, JobsOk, ClockOk, SendJob, IssuedFrom, OnSubmit, Dead;
    StepKeepsInv(H, c, s, i);
    CleanSend(H, s, i.work);
    OldWorkIsDead(H, c, Step(H, c, s, i).0, i.now, rest, s.issued, old');
  }

  // ---------------------------------------------------------------- the counter comes round

  /** The same work sent n times without cleaning. */
  function Sends(n: nat, now: nat, work: BlockData): (inputs: seq<Input>)
    ensures |inputs| == n
  {
    if n == 0 then [] else Sends(n - 1, now, work) + [Input(SendWork(false), now, work)]
  }

  lemma {:induction false} SendsOk(n: nat, now: nat, work: BlockData)
    requires TemplateOk(work) && now < 0x1_0000_0000
    ensures InputsOk(now, Sends(n, now, work)) && EndClock(now, Sends(n, now, work)) == now
  {
    hide TemplateOk, InputsOk;
    if n == 0 {
      NoInputs(now);
    } else {
      SendsOk(n - 1, now, work);
      InputsSnoc(now, Sends(n - 1, now, work), Input(SendWork(false), now, work));
    }
  }

  lemma NoInputs(clock: nat)
    ensures InputsOk(clock, [])
  {
  }

  lemma {:induction false} InputsSnoc(clock: nat, inputs: seq<Input>, i: Input)
    requires InputsOk(clock, inputs) && EndClock(clock, inputs) <= i.now < 0x1_0000_0000 && TemplateOk(i.work)
    ensures InputsOk(clock, inputs + [i])
    decreases inputs
  {
    hide TemplateOk;
    if inputs == [] {
      assert [i][1..] == [];
    } else {
      InputsSnoc(inputs[0].now, inputs[1..], i);
      assert (inputs + [i])[1..] == inputs[1..] + [i];
    }
  }

  /** s' is s with n more jobs, all still in the map and all at the session's difficulty. */
  ghost predicate Sent(s: Session, s': Session, n: nat) {
    && s'.issued == s.issued + n && s' == s.(jobs := s'.jobs, issued := s'.issued)
    && forall k :: s.issued <= k < s.issued + n ==>
         k % IDS in s'.jobs && s'.jobs[k % IDS].serial == k && s'.jobs[k % IDS].diff == s.diff
  }

  lemma SentOneMore(H: HashFn, s: Session, s': Session, n: nat, work: BlockData)
    requires Sent(s, s', n) && n < IDS && TemplateOk(work) && s'.diff > 0
    ensures Sent(s, SendJob(H, s', work, false).0, n + 1)
  {
    hide SendJob, TemplateOk;
    PlainSend(H, s', work);
    var r := SendJob(H, s', work, false).0;
    forall k | s.issued <= k < s.issued + n + 1
      ensures k % IDS in r.jobs && r.jobs[k % IDS].serial == k && r.jobs[k % IDS].diff == s.diff
    {
      if k < s'.issued && k % IDS == s'.issued % IDS {
        SameIdFarApart(s'.issued, k);
      }
    }
  }

  lemma PlainSend(H: HashFn, s: Session, work: BlockData)
    requires TemplateOk(work) && s.diff > 0
    ensures
      var r, id := SendJob(H, s, work, false).0, s.issued % IDS;
      && r == s.(jobs := r.jobs, issued := s.issued + 1) && id in r.jobs
      && r.jobs == s.jobs[id := r.jobs[id]] && r.jobs[id].serial == s.issued && r.jobs[id].diff == s.diff
      && r.jobs[id].block == work && r.jobs[id].shares == {}
  {
    hide TemplateOk, NotifyOf, JobOk;
  }

  lemma {:induction false} ManySends(H: HashFn, c: Config, s: Session, now: nat, work: BlockData, n: nat)
    requires Inv(c, s, now) && TemplateOk(work) && n <= IDS
    ensures InputsOk(now, Sends(n, now, work)) && Sent(s, Run(H, c, s, now, Sends(n, now, work)).0, n)
    ensures Inv(c, Run(H, c, s, now, Sends(n, now, work)).0, now)
    decreases n
  {
    hide TemplateOk, Inv, InputsOk, Run, Sent, SendJob, OnSubmit;
    ClockFits(c, s, now);
    SendsOk(n, now, work);
    var inputs := Sends(n, now, work);
    RunKeepsInv(H, c, s, now, inputs);
    if n == 0 {
      EmptyRun(H, c, s, now);
      SentNone(s);
    } else {
      ManySends(H, c, s, now, work, n - 1);
      RunSnoc(H, c, s, now, inputs, n - 1);
      assert inputs[..n - 1] == Sends(n - 1, now, work);
      var r := Run(H, c, s, now, inputs[..n - 1]).0;
      PositiveDifficulty(c, r, now);
      SentOneMore(H, s, r, n - 1, work);
    }
  }

  lemma SentNone(s: Session)
    ensures Sent(s, s, 0)
  {
  }

  lemma ClockFits(c: Config, s: Session, now: nat)
    requires Inv(c, s, now)
    ensures now < 0x1_0000_0000
  {
  }

  lemma PositiveDifficulty(c: Config, s: Session, now: nat)
    requires Inv(c, s, now)
    ensures s.diff > 0
  {
  }

  /** The bound of CleanSendKillsOldWork is tight: after the clean send, exactly as many plain sends as it leaves
      out bring the old id back, and a worker's submission for it gets past the lookup into the limiter. */
  lemma OldIdComesBack(H: HashFn, c: Config, s: Session, i: Input, old': nat, e: Event)
    requires Inv(c, s, i.now) && TemplateOk(i.work) && i.event == SendWork(true)
    requires old' < s.issued <= old' + IDS && e.Submit? && e.jobid == old' % IDS && e.user in s.workers
    ensures Inv(c, Step(H, c, s, i).0, i.now)
    ensures
      var rest := Sends(old' + IDS - s.issued, i.now, i.work);
      && s.issued + 1 + |rest| == old' + IDS + 1 && InputsOk(i.now, rest)
      && var r := Run(H, c, Step(H, c, s, i).0, i.now, rest).0;
         && old' % IDS in r.jobs && Inv(c, r, i.now)
         && var (r', out) := OnSubmit(H, c, r, e, i.now, i.work);
            |r'.limiter.history| == |r.limiter.history| + 1 && Error(21, "Job not found") !in out
  {
    hide TemplateOk, Inv, Run, OnSubmit, Sends, SendJob, Sent, InputsOk;
    StepKeepsInv(H, c, s, i);
    var s1 := Step(H, c, s, i).0;
    CleanSent(H, c, s, i);
    var n := old' + IDS - s.issued;
    ManySends(H, c, s1, i.now, i.work, n);
    var r := Run(H, c, s1, i.now, Sends(n, i.now, i.work)).0;
    if n == 0 {
      EmptyRun(H, c, s1, i.now);
      assert Sends(n, i.now, i.work) == [];
    }
    LastSent(s1, r, n, old');
    GetsPastLookup(H, c, r, e, i.now, i.work);
  }

  /** After a clean send the new job is the whole map. */
  lemma CleanSent(H: HashFn, c: Config, s: Session, i: Input)
    requires Inv(c, s, i.now) && TemplateOk(i.work) && i.event == SendWork(true)
    ensures
      var s1 := Step(H, c, s, i).0;
      s1.issued == s.issued + 1 && s1.workers == s.workers && s1.jobs.Keys == {s.issued % IDS}
  {
    hide TemplateOk, NotifyOf, JobsOk, ClockOk, GetJob, OnSubmit;
  }

  lemma LastSent(s: Session, r: Session, n: nat, old': nat)
    requires Sent(s, r, n) && s.issued + n == old' + IDS + 1 && s.jobs.Keys == {(s.issued - 1) % IDS} && s.issued > 0
    requires n == 0 ==> r == s
    ensures old' % IDS in r.jobs && r.workers == s.workers
  {
    var last := s.issued + n - 1;
    assert last % IDS == old' % IDS;
  }

  lemma GetsPastLookup(H: HashFn, c: Config, s: Session, e: Event, now: nat, work: BlockData)
    requires Inv(c, s, now) && TemplateOk(work) && e.Submit? && e.user in s.workers && e.jobid in s.jobs
    ensures
      var (s', out) := OnSubmit(H, c, s, e, now, work);
      |s'.limiter.history| == |s.limiter.history| + 1 && Error(21, "Job not found") !in out
  {
    hide JobOk, TemplateOk, Limit, Check, ClockOk;
    var job := s.jobs[e.jobid];
    LimitRecords(H, c, s, job.diff, now, e.noise, work);
    var s1 := Limit(H, c, s, job.diff, now, e.noise, work).0;
    CheckQuiet(H, s1, e.jobid, job, e.user, e.share, e.accepted);
  }

  lemma LimitRecords(H: HashFn, c: Config, s: Session, diff: nat, now: nat, noise: Noise, work: BlockData)
    requires Inv(c, s, now) && TemplateOk(work)
    ensures
      var (s', _, out) := Limit(H, c, s, diff, now, noise, work);
      |s'.limiter.history| == |s.limiter.history| + 1 && forall o :: o in out ==> !o.Error?
  {
    hide JobOk, TemplateOk, NotifyOf, GetJob, ClockOk, TooSoon, NewDiff, Variance, MostlyBad;
  }

  lemma CheckQuiet(H: HashFn, s: Session, id: nat, job: Job, user: string, share: Share, accepted: bool)
    requires JobOk(job)
    ensures
      var (s', out) := Check(H, s, id, job, user, share, accepted);
      s'.limiter.history == s.limiter.history && Error(21, "Job not found") !in out
  {
    hide JobOk, Candidate, HeaderBytes, FromHex, Reverse, Pack, FromLE;
  }

  // ---------------------------------------------------------------- the job survives the limiter

  /** Ids stay fresh until the counter wraps: a new job never takes an id still in the map. */
  lemma FreshIds(c: Config, s: Session, now: nat)
    requires Inv(c, s, now) && s.issued < IDS
    ensures forall id :: id in s.jobs ==> id < s.issued
    ensures s.issued % IDS !in s.jobs
  {
    hide JobOk, ClockOk;
    forall id | id in s.jobs
      ensures id < s.issued
    {
      assert s.jobs[id].serial % IDS == id;
    }
  }

  /** The submission makes the limiter retarget to a new difficulty while its job's id is next in line. */
  ghost predicate Displaces(c: Config, s: Session, e: Event, now: nat)
    requires Inv(c, s, now) && e.Submit? && e.jobid in s.jobs
  {
    var v := Decide(c, s.limiter, s.jobs[e.jobid].diff, now, s.diff, e.noise).1;
    v.Retarget? && (if v.diff < s.minDiff then s.minDiff else v.diff) != s.diff && e.jobid == s.issued % IDS
  }

  /** When the limiter lets a submission through, no entry is dropped, and the job looked up before the call is
      still the map's entry exactly unless the submission displaces it. When the limiter stops it, the handler
      changes no job. */
  lemma JobSurvivesLimiter(H: HashFn, c: Config, s: Session, e: Event, now: nat, work: BlockData)
    requires Inv(c, s, now) && TemplateOk(work) && e.Submit?
    ensures
      e.jobid in s.jobs ==>
        var (s', ok, _) := Limit(H, c, s, s.jobs[e.jobid].diff, now, e.noise, work);
        var v := Decide(c, s.limiter, s.jobs[e.jobid].diff, now, s.diff, e.noise).1;
        && (ok <==> v.Pass? || v.Retarget?)
        && (ok ==> s.jobs.Keys <= s'.jobs.Keys)
        && (ok ==> (s'.jobs[e.jobid] == s.jobs[e.jobid] <==> !Displaces(c, s, e, now)))
        && (!ok && e.user in s.workers ==> OnSubmit(H, c, s, e, now, work).0 == s')
  {
    hide TemplateOk, NotifyOf, Decide, ClockOk, Check, JobOk;
  }

  /** Within the first 2^32 inputs of a connection no submission displaces its job. */
  lemma NoneDisplacedEarly(H: HashFn, c: Config, extranonce: U32, lastShares: nat, now: nat, inputs: seq<Input>,
                           e: Event, then': nat)
    requires ConfigOk(c) && now < 0x1_0000_0000 && InputsOk(now, inputs) && |inputs| < 0x1_0000_0000
    requires EndClock(now, inputs) <= then' < 0x1_0000_0000
    ensures Inv(c, Connected(c, extranonce, lastShares, now), now)
    ensures
      var r := Run(H, c, Connected(c, extranonce, lastShares, now), now, inputs).0;
      && Inv(c, r, then')
      && (e.Submit? && e.jobid in r.jobs ==> !Displaces(c, r, e, then'))
  {
    hide Inv, Run, Decide;
    ConnectedInv(c, extranonce, lastShares, now);
    var s := Connected(c, extranonce, lastShares, now);
    RunKeepsInv(H, c, s, now, inputs);
    RunIssues(H, c, s, now, inputs);
    var r := Run(H, c, s, now, inputs).0;
    InvLater(c, r, EndClock(now, inputs), then');
    FreshIds(c, r, then');
  }

  /** Every share is worth a hundred seconds at the measured rate: one share in ten seconds asks for ten times the
      difficulty. */
  function Impatient(): Config {
    Config(1, 1, 1000, 0, 0, 10, 100.0, 0)
  }

  lemma ImpatientRetargets(l: Limiter, now: nat, noise: Noise)
    requires l.history == [] && l.shares == [] && l.startTime == now - 10 && 10 <= now < 0x1_0000_0000
    ensures Decide(Impatient(), l, 1, now, 1, noise).1 == Retarget(10)
  {
    var c := Impatient();
    var l1 := Recorded(l, 1, now);
    assert l1.shares == [Record(1, now)];
    assert !TooSoon(c, l1, now) && !MostlyBad(l1);
    assert Wrap64(now - 10) == now - 10;
    var l3 := l1.(lastRetargetTime := now, lastRetargetShares := 1, shares := Dropped(l1.shares, Wrap64(now - 10)));
    assert l3.shares == [Record(1, now)];
    assert Total(l3.shares) == 1 by {
      assert l3.shares[..0] == [] && Total([]) == 0;
    }
    RateMeaning(1.0, 10.0, 100.0);
    assert Rate(1.0, 10.0, 100.0) == 10.0;
    assert NewDiff(c, l3, now, noise) == 10;
  }

  /** A session on which the property fails, reached from a new connection: a worker, 2^32 jobs, then one
      submission for the first of them. The limiter retargets, the new job takes the id, and the job under which
      the share is then checked is no longer the map's. */
  lemma DisplacedJob(H: HashFn, extranonce: U32, lastShares: nat, now: nat, work: BlockData, share: Share,
                     noise: Noise)
    requires 10 <= now < 0x1_0000_0000 && TemplateOk(work)
    ensures
      var c := Impatient();
      var s := Connected(c, extranonce, lastShares, now);
      var login := Input(Authorize("worker", true, 1), now, work);
      && Inv(c, s, now) && Inv(c, Step(H, c, s, login).0, now) && InputsOk(now, Sends(IDS, now, work))
      && var r := Run(H, c, Step(H, c, s, login).0, now, Sends(IDS, now, work)).0;
         && Inv(c, r, now) && "worker" in r.workers && 0 in r.jobs
         && Displaces(c, r, Submit("worker", 0, share, noise, true), now)
         && var (s', ok, _) := Limit(H, c, r, r.jobs[0].diff, now, noise, work);
            ok && 0 in s'.jobs && s'.jobs[0].serial == IDS && r.jobs[0].serial == 0
  {
    hide TemplateOk, Run, Sends, InputsOk, JobsOk, ClockOk, Decide, NotifyOf, GetJob;
    var c := Impatient();
    var s := Connected(c, extranonce, lastShares, now);
    ConnectedInv(c, extranonce, lastShares, now);
    var login := Input(Authorize("worker", true, 1), now, work);
    StepKeepsInv(H, c, s, login);
    var s1 := Step(H, c, s, login).0;
    ManySends(H, c, s1, now, work, IDS);
    var r := Run(H, c, s1, now, Sends(IDS, now, work)).0;
    assert 0 % IDS == 0 && r.jobs[0 % IDS].serial == 0;
    ImpatientRetargets(r.limiter, now, noise);
    JobSurvivesLimiter(H, c, r, Submit("worker", 0, share, noise, true), now, work);
    RetargetTakesId(H, c, r, 1, now, noise, work);
  }

  lemma RetargetTakesId(H: HashFn, c: Config, s: Session, diff: nat, now: nat, noise: Noise, work: BlockData)
    requires Inv(c, s, now) && TemplateOk(work)
    ensures
      var v := Decide(c, s.limiter, diff, now, s.diff, noise).1;
      var s' := Limit(H, c, s, diff, now, noise, work).0;
      v.Retarget? && (if v.diff < s.minDiff then s.minDiff else v.diff) != s.diff ==>
        s.issued % IDS in s'.jobs && s'.jobs[s.issued % IDS].serial == s.issued
  {
    hide TemplateOk, NotifyOf, Decide, ClockOk, JobOk;
  }
}
