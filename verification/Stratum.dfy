/** One client's Stratum session as a state machine: every handler is a function from the state and its
    inputs to the next state and what goes out. Handlers are atomic steps. */
module Stratum {
  import opened Bytes
  import opened Codec
  import opened Merkle
  import opened Blocks
  import opened Targets
  import opened Work
  import opened Limiting

  const IDS: nat := 0x1_0000_0000

  /** A job, named by the serial number of its issue; its id on the wire is the serial modulo 2^32. */
  datatype Job = Job(
    serial: nat, diff: nat, block: BlockData, coinbase1: Data, coinbase2: Data,
    shares: set<U64>, blockTarget: nat, jobTarget: nat)

  datatype Session = Session(
    workers: set<string>, extranonce: U32, jobs: map<nat, Job>, issued: nat,
    diff: nat, minDiff: nat, limiter: Limiter)

  datatype Output =
    | Reply
    | Error(code: nat, message: string)
    | Subscribed(extranonce: string)
    | DifficultySet(diff: nat)
    | Notified(notify: Notify)
    | Banned(seconds: nat)
      // a share row with our_result 0
    | Rejected(username: string, reason: string, shareDiff: nat)
      // a share row with our_result 1, with the evidence it was granted for; a solution's row has upstream_result 1
      // and goes to the database at once, any other goes through the upload queue
    | Credited(user: string, credit: Credit, solution: bool)
    | Submitted(block: BlockData, jobTarget: nat, blockTarget: nat)

  datatype Credit = Credit(serial: nat, diff: nat, nonce: Data, extranonce2: Data, block: BlockData)

  datatype Share = Share(extranonce2: string, ntime: string, nonce: string)

  datatype Event =
    | Subscribe(extranonce: U32)
    | Authorize(username: string, found: bool, minDiff: U32)
    | Submit(user: string, jobid: U32, share: Share, noise: Noise, accepted: bool)
    | SendWork(clean: bool)

  /** An event, the time it is handled at, and the template the server holds then. */
  datatype Input = Input(event: Event, now: nat, work: BlockData)

  // ---------------------------------------------------------------- jobs

  ghost predicate JobOk(j: Job) {
    && TemplateOk(j.block) && |TxBytes(j.block.tx[0])| >= 54
    && |j.block.tx[0].ins| == 1 && |j.block.tx[0].ins[0].script| == 12
    && (j.coinbase1, j.coinbase2) == Cut(TxBytes(j.block.tx[0]))
    && j.diff > 0 && j.jobTarget == DiffToTarget(j.diff) && j.blockTarget == TargetFromBits(j.block.bits)
  }

  function GetJob(s: Session, work: BlockData): (j: Job)
    requires TemplateOk(work) && s.diff > 0
    ensures JobOk(j)
  {
    TemplateShape(work);
    var (c1, c2) := Cut(TxBytes(work.tx[0]));
    Job(s.issued, s.diff, work, c1, c2, {}, TargetFromBits(work.bits), DiffToTarget(s.diff))
  }

  function SendJob(H: HashFn, s: Session, work: BlockData, clean: bool): (Session, seq<Output>)
    requires TemplateOk(work) && s.diff > 0
  {
    TemplateShape(work);
    var id := s.issued % IDS;
    var kept := if clean then map[] else s.jobs;
    (s.(jobs := kept[id := GetJob(s, work)], issued := s.issued + 1), [Notified(NotifyOf(H, id, work, clean))])
  }

  function SetDifficulty(H: HashFn, s: Session, diff: nat, resend: bool, work: BlockData): (Session, seq<Output>)
    requires TemplateOk(work) && diff > 0
  {
    var d := if diff < s.minDiff then s.minDiff else diff;
    if d == s.diff then (s, [])
    else
      var s1 := s.(diff := d);
      if !resend then (s1, [DifficultySet(d)])
      else
        var (s2, out) := SendJob(H, s1, work, false);
        (s2, [DifficultySet(d)] + out)
  }

  // ---------------------------------------------------------------- what every step keeps

  ghost predicate JobsOk(s: Session) {
    forall id :: id in s.jobs ==> JobOk(s.jobs[id]) && s.jobs[id].serial < s.issued && s.jobs[id].serial % IDS == id
  }

  ghost predicate Inv(c: Config, s: Session, now: nat) {
    && ConfigOk(c) && ClockOk(s.limiter, now) && s.diff >= s.minDiff && s.diff >= c.minDiff && JobsOk(s)
  }

  // ---------------------------------------------------------------- submissions

  /** The limiter's verdict applied to the session; false stops the submission. */
  function Limit(H: HashFn, c: Config, s: Session, diff: nat, now: nat, noise: Noise, work: BlockData)
    : (r: (Session, bool, seq<Output>))
    requires Inv(c, s, now) && TemplateOk(work)
  {
    var (l, v) := Decide(c, s.limiter, diff, now, s.diff, noise);
    var s1 := s.(limiter := l);
    match v
    case Pass => (s1, true, [])
    case Ban => (s1, false, [Banned(600)])
    case Retarget(d) =>
      var (s2, out) := SetDifficulty(H, s1, d, true, work);
      (s2, true, out)
    case Reset(d) =>
      var (s2, out) := SetDifficulty(H, s1, d, false, work);
      var (s3, more) := SendJob(H, s2, work, true);
      (s3, false, out + more)
  }

  function LogBad(s: Session): Session {
    s.(limiter := s.limiter.(bad := s.limiter.bad + 1))
  }

  /** The submitted share enters the job's set. The job may have left the map if its id was reissued. */
  function Remember(s: Session, id: nat, job: Job, packed: U64): Session {
    if id in s.jobs && s.jobs[id].serial == job.serial
    then s.(jobs := s.jobs[id := s.jobs[id].(shares := job.shares + {packed})])
    else s
  }

  /** Nonce and extranonce2 packed into 64 bits. */
  function Pack(nonce: Data, extranonce2: Data): U64
    requires |nonce| == 4 && |extranonce2| == 4
  {
    Pow256Values();
    FromLE(nonce + extranonce2)
  }

  /** The block of a share that is not a duplicate, held against both targets. */
  function Grade(H: HashFn, s: Session, job: Job, user: string, en2: Data, time: Data, nonce: Data, accepted: bool)
    : (Session, seq<Output>)
    requires JobOk(job) && |en2| == 4 && |time| == 4 && |nonce| == 4
  {
    var block := Candidate(H, job.block, s.extranonce, en2, time, nonce);
    var target := FromLE(H(HeaderBytes(block)));
    var credit := Credit(job.serial, job.diff, nonce, en2, block);
    if target > job.jobTarget then
      (LogBad(s), [Rejected(user, "Share above target", job.diff), Error(23, "Share above target")])
    else if target > job.blockTarget then (s, [Credited(user, credit, false), Reply])
    else
      var sent := Submitted(block, job.jobTarget, job.blockTarget);
      (s, if accepted then [sent, Credited(user, credit, true), Reply] else [sent])
  }

  /** A share of the right sizes: refused if its nonce and extranonce2 were submitted to this job before. */
  function Admit(H: HashFn, s: Session, id: nat, job: Job, user: string,
                 en2: Data, time: Data, nonce: Data, accepted: bool): (Session, seq<Output>)
    requires JobOk(job) && |en2| == 4 && |time| == 4 && |nonce| == 4
  {
    if Pack(nonce, en2) in job.shares then
      (LogBad(s), [Rejected(user, "Duplicate share", job.diff), Error(22, "Duplicate share")])
    else Grade(H, Remember(s, id, job, Pack(nonce, en2)), job, user, en2, time, nonce, accepted)
  }

  /** The checks after the limiter, on the job looked up before it. */
  function Check(H: HashFn, s: Session, id: nat, job: Job, user: string, share: Share, accepted: bool)
    : (Session, seq<Output>)
    requires JobOk(job)
  {
    var en2, time, nonce := FromHex(share.extranonce2), Reverse(FromHex(share.ntime)), Reverse(FromHex(share.nonce));
    if |en2| != 4 then (s, [Error(20, "Wrong extranonce size")])
    else if |time| != 4 then (s, [Error(20, "Wrong ntime size")])
    else if |nonce| != 4 then (s, [Error(20, "Wrong nonce size")])
    else Admit(H, s, id, job, user, en2, time, nonce, accepted)
  }

  function OnSubmit(H: HashFn, c: Config, s: Session, e: Event, now: nat, work: BlockData): (Session, seq<Output>)
    requires Inv(c, s, now) && TemplateOk(work) && e.Submit?
  {
    if e.user !in s.workers then (s, [Error(24, "Unauthorized worker")])
    else if e.jobid !in s.jobs then
      (LogBad(s), [Rejected(e.user, "Job not found", 1), Error(21, "Job not found")])
    else
      var job := s.jobs[e.jobid];
      var (s1, ok, out) := Limit(H, c, s, job.diff, now, e.noise, work);
      if !ok then (s1, out + [Error(20, "Blocked by share limiter")])
      else
        var (s2, more) := Check(H, s1, e.jobid, job, e.user, e.share, e.accepted);
        (s2, out + more)
  }

  function OnSubscribe(H: HashFn, s: Session, extranonce: U32, work: BlockData): (Session, seq<Output>)
    requires TemplateOk(work) && s.diff > 0
  {
    var (s1, out) := SendJob(H, s.(extranonce := extranonce), work, false);
    (s1, [Subscribed(ToHex(LE(extranonce, 4)))] + out)
  }

  function OnAuthorize(H: HashFn, s: Session, e: Event, work: BlockData): (Session, seq<Output>)
    requires TemplateOk(work) && e.Authorize?
  {
    if !e.found then (s, [Error(20, "Authentication failed")])
    else
      var s1 := s.(workers := s.workers + {e.username}, minDiff := e.minDiff);
      if s1.diff < s1.minDiff then
        var (s2, out) := SetDifficulty(H, s1, s1.minDiff, false, work);
        (s2, out + [Reply])
      else (s1, [Reply])
  }

  function Step(H: HashFn, c: Config, s: Session, i: Input): (Session, seq<Output>)
    requires Inv(c, s, i.now) && TemplateOk(i.work)
  {
    match i.event
    case Subscribe(en) => OnSubscribe(H, s, en, i.work)
    case Authorize(_, _, _) => OnAuthorize(H, s, i.event, i.work)
    case Submit(_, _, _, _, _) => OnSubmit(H, c, s, i.event, i.now, i.work)
    case SendWork(clean) => SendJob(H, s, i.work, clean)
  }

  // ---------------------------------------------------------------- the invariant is kept

  lemma SendJobKeeps(H: HashFn, s: Session, work: BlockData, clean: bool)
    requires TemplateOk(work) && s.diff > 0 && JobsOk(s)
    ensures JobsOk(SendJob(H, s, work, clean).0)
  {
    hide JobOk, TemplateOk, NotifyOf, Cut, TxBytes, TargetFromBits, DiffToTarget;
  }

  lemma SetDifficultyKeeps(H: HashFn, s: Session, diff: nat, resend: bool, work: BlockData)
    requires TemplateOk(work) && diff > 0 && JobsOk(s)
    ensures
      var s' := SetDifficulty(H, s, diff, resend, work).0;
      && JobsOk(s') && s'.limiter == s.limiter && s'.minDiff == s.minDiff
      && s'.diff == (if diff < s.minDiff then s.minDiff else diff)
  {
    hide JobOk, TemplateOk, NotifyOf, GetJob;
    var d := if diff < s.minDiff then s.minDiff else diff;
    if d != s.diff && resend {
      SendJobKeeps(H, s.(diff := d), work, false);
    }
  }

  lemma DecideKeepsClock(c: Config, l: Limiter, diff: nat, now: nat, cur: nat, noise: Noise)
    requires ConfigOk(c) && ClockOk(l, now) && cur > 0
    ensures ClockOk(Decide(c, l, diff, now, cur, noise).0, now)
  {
    hide Dropped, Total, Estimate, NewDiff, Variance, Wrap64;
  }

  lemma LimitKeeps(H: HashFn, c: Config, s: Session, diff: nat, now: nat, noise: Noise, work: BlockData)
    requires Inv(c, s, now) && TemplateOk(work)
    ensures Inv(c, Limit(H, c, s, diff, now, noise, work).0, now)
  {
    hide JobOk, JobsOk, TemplateOk, NotifyOf, GetJob, SetDifficulty, Decide;
    DecideKeepsClock(c, s.limiter, diff, now, s.diff, noise);
    var (l, v) := Decide(c, s.limiter, diff, now, s.diff, noise);
    var s1 := s.(limiter := l);
    SameJobs(s, s1);
    match v
    case Pass =>
    case Ban =>
    case Retarget(d) => SetDifficultyKeeps(H, s1, d, true, work);
    case Reset(d) =>
      SetDifficultyKeeps(H, s1, d, false, work);
      SendJobKeeps(H, SetDifficulty(H, s1, d, false, work).0, work, true);
  }

  lemma SameJobs(s: Session, s': Session)
    requires JobsOk(s) && s'.jobs == s.jobs && s'.issued == s.issued
    ensures JobsOk(s')
  {
  }

  lemma LogBadKeeps(c: Config, s: Session, now: nat)
    requires Inv(c, s, now)
    ensures Inv(c, LogBad(s), now)
  {
  }

  lemma RememberKeeps(c: Config, s: Session, now: nat, id: nat, job: Job, packed: U64)
    requires Inv(c, s, now)
    ensures Inv(c, Remember(s, id, job, packed), now)
  {
    hide TemplateOk, TxBytes, Cut, DiffToTarget, TargetFromBits, ClockOk;
  }

  lemma CheckKeeps(H: HashFn, c: Config, s: Session, now: nat, id: nat, job: Job, user: string, share: Share,
                   accepted: bool)
    requires JobOk(job) && Inv(c, s, now)
    ensures Inv(c, Check(H, s, id, job, user, share, accepted).0, now)
  {
    hide JobOk, Inv, Candidate, HeaderBytes, FromHex, Reverse, Pack, Remember, LogBad;
    var nonce, en2 := Reverse(FromHex(share.nonce)), FromHex(share.extranonce2);
    LogBadKeeps(c, s, now);
    if |nonce| == 4 && |en2| == 4 {
      var s1 := Remember(s, id, job, Pack(nonce, en2));
      RememberKeeps(c, s, now, id, job, Pack(nonce, en2));
      LogBadKeeps(c, s1, now);
    }
  }

  lemma StepKeepsInv(H: HashFn, c: Config, s: Session, i: Input)
    requires Inv(c, s, i.now) && TemplateOk(i.work)
    ensures Inv(c, Step(H, c, s, i).0, i.now)
  {
    hide JobOk, TemplateOk, NotifyOf, GetJob, SetDifficulty, Limit, Check, ClockOk, ToHex, LE;
    match i.event
    case Subscribe(en) => SendJobKeeps(H, s.(extranonce := en), i.work, false);
    case SendWork(clean) => SendJobKeeps(H, s, i.work, clean);
    case Authorize(user, found, min) =>
      var s1 := s.(workers := s.workers + {user}, minDiff := min);
      SameJobs(s, s1);
      if s1.diff < s1.minDiff {
        SetDifficultyKeeps(H, s1, s1.minDiff, false, i.work);
      }
    case Submit(user, id, share, noise, accepted) =>
      LogBadKeeps(c, s, i.now);
      if user in s.workers && id in s.jobs {
        var job := s.jobs[id];
        LimitKeeps(H, c, s, job.diff, i.now, noise, i.work);
        CheckKeeps(H, c, Limit(H, c, s, job.diff, i.now, noise, i.work).0, i.now, id, job, user, share, accepted);
      }
  }
}
