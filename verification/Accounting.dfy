/** Blocks handed to the network, and the limiter's counters, over whole runs. */
module Accounting {
  import opened Bytes
  import opened Codec
  import opened Blocks
  import opened Targets
  import opened Work
  import opened Limiting
  import opened Stratum
  import opened Runs

  // ---------------------------------------------------------------- submitted blocks

  /** A block handed over by a submission is the candidate of a live job: the job's template with the client's
      extranonces in the coinbase and the submitted time and nonce; its root is the full Merkle root of its own
      transactions; its hash meets the target of the job's difficulty and the target of its own bits. */
  ghost predicate FromJob(H: HashFn, s: Session, e: Event, o: Output) {
    o.Submitted? ==>
      && e.Submit? && e.user in s.workers && e.jobid in s.jobs && JobOk(s.jobs[e.jobid])
      && CandidateOf(H, s.jobs[e.jobid], s.extranonce, e.share, o.block)
      && o.jobTarget == DiffToTarget(s.jobs[e.jobid].diff)
      && o.block.bits >= 0x0300_0000 && o.blockTarget == TargetFromBits(o.block.bits)
      && FromLE(H(HeaderBytes(o.block))) <= o.jobTarget
      && FromLE(H(HeaderBytes(o.block))) <= o.blockTarget
  }

  ghost predicate CandidateOf(H: HashFn, job: Job, en1: U32, share: Share, block: BlockData)
    requires JobOk(job)
  {
    var en2, time, nonce := FromHex(share.extranonce2), Reverse(FromHex(share.ntime)), Reverse(FromHex(share.nonce));
    && |en2| == 4 && |time| == 4 && |nonce| == 4
    && block == Candidate(H, job.block, en1, en2, time, nonce)
    && |block.tx| == |job.block.tx| && block.tx[1..] == job.block.tx[1..]
    && block.merkleRootHash == TxRoot(H, block.tx)
  }

  lemma CandidateConsistent(H: HashFn, b: BlockData, en1: U32, en2: Data, time: Data, nonce: Data)
    requires |b.tx| >= 1 && |b.tx[0].ins| >= 1 && |b.tx[0].ins[0].script| >= 12
    requires |en2| == 4 && |time| == 4 && |nonce| == 4
    ensures
      var d := Candidate(H, b, en1, en2, time, nonce);
      |d.tx| == |b.tx| && d.merkleRootHash == TxRoot(H, d.tx) && d.tx[1..] == b.tx[1..] && d.bits == b.bits
  {
    hide TxRoot, LE, FromLE, WithExtranonce;
  }

  /** What Check hands over, given the job: the session's map plays no part. */
  ghost predicate Handed(H: HashFn, job: Job, en1: U32, share: Share, o: Output)
    requires JobOk(job)
  {
    o.Submitted? ==>
      && CandidateOf(H, job, en1, share, o.block) && o.block.bits == job.block.bits
      && o.jobTarget == job.jobTarget && o.blockTarget == job.blockTarget
      && FromLE(H(HeaderBytes(o.block))) <= o.jobTarget
      && FromLE(H(HeaderBytes(o.block))) <= o.blockTarget
  }

  lemma CheckHands(H: HashFn, s: Session, id: nat, job: Job, user: string, share: Share, accepted: bool)
    requires JobOk(job)
    ensures forall o :: o in Check(H, s, id, job, user, share, accepted).1 ==>
              Handed(H, job, s.extranonce, share, o)
  {
    hide IsTemplateCoinbase, TxBytes, Cut, FromHex, Reverse, Pack, Candidate, HeaderBytes, FromLE, TxRoot,
         DiffToTarget, TargetFromBits;
    var en2, time, nonce := FromHex(share.extranonce2), Reverse(FromHex(share.ntime)), Reverse(FromHex(share.nonce));
    if |en2| == 4 && |time| == 4 && |nonce| == 4 {
      CandidateConsistent(H, job.block, s.extranonce, en2, time, nonce);
    }
  }

  lemma HandedFromJob(H: HashFn, s: Session, e: Event, o: Output)
    requires e.Submit? && e.user in s.workers && e.jobid in s.jobs && JobOk(s.jobs[e.jobid])
    requires Handed(H, s.jobs[e.jobid], s.extranonce, e.share, o)
    ensures FromJob(H, s, e, o)
  {
    hide IsTemplateCoinbase, TxBytes, Cut, DiffToTarget, TargetFromBits, CandidateOf, HeaderBytes, FromLE;
  }

  lemma StepHands(H: HashFn, c: Config, s: Session, i: Input)
    requires Inv(c, s, i.now) && TemplateOk(i.work)
    ensures forall o :: o in Step(H, c, s, i).1 ==> FromJob(H, s, i.event, o)
  {
    hide JobOk, TemplateOk, NotifyOf, GetJob, Limit, Check, ClockOk, ToHex, LE, Handed, CandidateOf, FromLE,
         HeaderBytes;
    var e := i.event;
    if e.Submit? && e.user in s.workers && e.jobid in s.jobs {
      var job := s.jobs[e.jobid];
      var (s1, ok, out) := Limit(H, c, s, job.diff, i.now, e.noise, i.work);
      LimitNoCredit(H, c, s, job.diff, i.now, e.noise, i.work);
      CheckHands(H, s1, e.jobid, job, e.user, e.share, e.accepted);
      forall o | o in Step(H, c, s, i).1
        ensures FromJob(H, s, e, o)
      {
        if o.Submitted? {
          HandedFromJob(H, s, e, o);
        }
      }
    }
  }

  /** The output comes from input number j of the run, in the state the run was in then. */
  ghost predicate HandedAt(H: HashFn, c: Config, s: Session, clock: nat, inputs: seq<Input>, o: Output, j: nat)
    requires Inv(c, s, clock) && InputsOk(clock, inputs)
  {
    && j < |inputs| && InputsOk(clock, inputs[..j]) && TemplateOk(inputs[j].work)
    && var r := Run(H, c, s, clock, inputs[..j]).0;
       Inv(c, r, inputs[j].now) && o in Step(H, c, r, inputs[j]).1 && FromJob(H, r, inputs[j].event, o)
  }

  /** Every block a session ever hands to the network, over any run, is the candidate of a job that was in the map
      when it was submitted, and meets that job's target and the target of its own bits. */
  lemma SubmittedBlocks(H: HashFn, c: Config, s: Session, clock: nat, inputs: seq<Input>)
    requires Inv(c, s, clock) && InputsOk(clock, inputs)
    ensures forall o :: o in Run(H, c, s, clock, inputs).1 && o.Submitted? ==>
              exists j: nat :: HandedAt(H, c, s, clock, inputs, o, j)
  {
    hide Inv, Step, TemplateOk, Run, InputsOk, FromJob;
    var out := Run(H, c, s, clock, inputs).1;
    forall n: nat | n < |out|
      ensures exists j: nat :: HandedAt(H, c, s, clock, inputs, out[n], j)
    {
      var j := OutputOrigin(H, c, s, clock, inputs, n);
      StepHands(H, c, Run(H, c, s, clock, inputs[..j]).0, inputs[j]);
      assert HandedAt(H, c, s, clock, inputs, out[n], j);
    }
  }

  // ---------------------------------------------------------------- every block found is submitted

  /** The blocks among the outputs, in order. */
  function Submits(outs: seq<Output>): seq<BlockData> {
    if outs == [] then []
    else
      var o := outs[|outs| - 1];
      Submits(outs[..|outs| - 1]) + if o.Submitted? then [o.block] else []
  }

  lemma {:induction false} SubmitsConcat(a: seq<Output>, b: seq<Output>)
    ensures Submits(a + b) == Submits(a) + Submits(b)
  {
    if b == [] {
      assert a + b == a;
    } else {
      SubmitsConcat(a, b[..|b| - 1]);
      assert (a + b)[..|a + b| - 1] == a + b[..|b| - 1];
    }
  }

  lemma {:induction false} NoSubmits(outs: seq<Output>)
    requires forall o :: o in outs ==> !o.Submitted?
    ensures Submits(outs) == []
  {
    if outs != [] {
      NoSubmits(outs[..|outs| - 1]);
    }
  }

  lemma SubmitsFirst(o: Output, rest: seq<Output>)
    requires o.Submitted? && forall x :: x in rest ==> !x.Submitted?
    ensures Submits([o] + rest) == [o.block]
  {
    SubmitsConcat([o], rest);
    NoSubmits(rest);
    assert [o][..0] == [];
    assert Submits([]) == [];
  }

  ghost predicate SizesOk(share: Share) {
    |FromHex(share.extranonce2)| == |FromHex(share.ntime)| == |FromHex(share.nonce)| == 4
  }

  /** The hash of the header a miner assembles from the job's notification, as a number. */
  ghost function MinerHash(H: HashFn, en1: U32, id: U32, job: Job, share: Share): nat
    requires JobOk(job)
  {
    FromLE(H(MinerHeader(H, NotifyOf(H, id, job.block, false), ToHex(LE(en1, 4)),
                         share.extranonce2, share.ntime, share.nonce)))
  }

  /** Sizes are four, the pair is new to the job, and that hash is at most the target of the job's difficulty and that
      of the template's bits. */
  ghost predicate Solves(H: HashFn, en1: U32, id: U32, job: Job, share: Share)
    requires JobOk(job)
  {
    && SizesOk(share) && Pack(Reverse(FromHex(share.nonce)), FromHex(share.extranonce2)) !in job.shares
    && MinerHash(H, en1, id, job, share) <= DiffToTarget(job.diff)
    && MinerHash(H, en1, id, job, share) <= TargetFromBits(job.block.bits)
  }

  /** The block the share stands for. */
  ghost function ShareCandidate(H: HashFn, en1: U32, job: Job, share: Share): BlockData
    requires JobOk(job) && SizesOk(share)
  {
    Candidate(H, job.block, en1, FromHex(share.extranonce2), Reverse(FromHex(share.ntime)),
              Reverse(FromHex(share.nonce)))
  }

  /** What is to be answered to a share, decided by the miner's header. */
  ghost function Answer(H: HashFn, en1: U32, id: U32, job: Job, user: string, share: Share, accepted: bool): seq<Output>
    requires JobOk(job)
  {
    var en2, nonce := FromHex(share.extranonce2), Reverse(FromHex(share.nonce));
    if |en2| != 4 then [Error(20, "Wrong extranonce size")]
    else if |FromHex(share.ntime)| != 4 then [Error(20, "Wrong ntime size")]
    else if |nonce| != 4 then [Error(20, "Wrong nonce size")]
    else if Pack(nonce, en2) in job.shares then
      [Rejected(user, "Duplicate share", job.diff), Error(22, "Duplicate share")]
    else
      var hash, block := MinerHash(H, en1, id, job, share), ShareCandidate(H, en1, job, share);
      var credit := Credit(job.serial, job.diff, nonce, en2, block);
      if hash > DiffToTarget(job.diff) then
        [Rejected(user, "Share above target", job.diff), Error(23, "Share above target")]
      else if hash > TargetFromBits(job.block.bits) then [Credited(user, credit, false), Reply]
      else
        [Submitted(block, DiffToTarget(job.diff), TargetFromBits(job.block.bits))]
        + if accepted then [Credited(user, credit, true), Reply] else []
  }

  lemma CheckAnswers(H: HashFn, s: Session, id: U32, job: Job, user: string, share: Share, accepted: bool)
    requires JobOk(job)
    ensures Check(H, s, id, job, user, share, accepted).1 == Answer(H, s.extranonce, id, job, user, share, accepted)
  {
    hide IsTemplateCoinbase, TxBytes, Cut, DiffToTarget, TargetFromBits, Candidate, HeaderBytes, FromHex, Pack,
         FromLE, MinerHeader, NotifyOf, ToHex, LE;
    var en2, time, nonce := FromHex(share.extranonce2), Reverse(FromHex(share.ntime)), Reverse(FromHex(share.nonce));
    if |en2| == 4 && |time| == 4 && |nonce| == 4 {
      HeaderAgreement(H, id, job.block, false, s.extranonce, share.extranonce2, share.ntime, share.nonce);
    }
  }

  /** What a step must hand over. */
  ghost function Solved(H: HashFn, c: Config, s: Session, i: Input): seq<BlockData>
    requires Inv(c, s, i.now) && TemplateOk(i.work)
  {
    var e := i.event;
    if Admitted(H, c, s, i) && JobOk(s.jobs[e.jobid]) && Solves(H, s.extranonce, e.jobid, s.jobs[e.jobid], e.share)
    then [ShareCandidate(H, s.extranonce, s.jobs[e.jobid], e.share)]
    else []
  }

  /** Every credit for a solution directly follows the block it is for. */
  ghost predicate SolutionsFollow(outs: seq<Output>) {
    forall k :: 0 <= k < |outs| && outs[k].Credited? && outs[k].solution ==>
      k > 0 && outs[k - 1].Submitted? && outs[k - 1].block == outs[k].credit.block
  }

  lemma FollowConcat(a: seq<Output>, b: seq<Output>)
    requires SolutionsFollow(a) && SolutionsFollow(b)
    ensures SolutionsFollow(a + b)
  {
    var ab := a + b;
    forall k | 0 <= k < |ab| && ab[k].Credited? && ab[k].solution
      ensures k > 0 && ab[k - 1].Submitted? && ab[k - 1].block == ab[k].credit.block
    {
      if k >= |a| {
        assert ab[k] == b[k - |a|];
      }
    }
  }

  lemma CheckSubmits(H: HashFn, s: Session, id: U32, job: Job, user: string, share: Share, accepted: bool)
    requires JobOk(job)
    ensures
      var out := Check(H, s, id, job, user, share, accepted).1;
      && Submits(out) == (if Solves(H, s.extranonce, id, job, share) then [ShareCandidate(H, s.extranonce, job, share)]
                          else [])
      && SolutionsFollow(out)
  {
    hide JobOk, DiffToTarget, TargetFromBits, ShareCandidate, FromHex, Pack, MinerHash, Check, Submits;
    CheckAnswers(H, s, id, job, user, share, accepted);
    var out := Answer(H, s.extranonce, id, job, user, share, accepted);
    if Solves(H, s.extranonce, id, job, share) {
      SubmitsFirst(out[0], out[1..]);
      assert out == [out[0]] + out[1..];
    } else {
      NoSubmits(out);
    }
  }

  /** A step hands over exactly the block it must, if any, and credits a solution only right after it. */
  lemma StepSubmits(H: HashFn, c: Config, s: Session, i: Input)
    requires Inv(c, s, i.now) && TemplateOk(i.work)
    ensures Submits(Step(H, c, s, i).1) == Solved(H, c, s, i) && SolutionsFollow(Step(H, c, s, i).1)
  {
    hide JobOk, TemplateOk, NotifyOf, GetJob, Limit, Check, ClockOk, ToHex, LE, Submits, Solves, ShareCandidate;
    var e, out := i.event, Step(H, c, s, i).1;
    if e.Submit? && e.user in s.workers && e.jobid in s.jobs {
      var job := s.jobs[e.jobid];
      var (s1, ok, o1) := Limit(H, c, s, job.diff, i.now, e.noise, i.work);
      LimitNoCredit(H, c, s, job.diff, i.now, e.noise, i.work);
      NoSubmits(o1);
      if ok {
        var o2 := Check(H, s1, e.jobid, job, e.user, e.share, e.accepted).1;
        CheckSubmits(H, s1, e.jobid, job, e.user, e.share, e.accepted);
        SubmitsConcat(o1, o2);
        FollowConcat(o1, o2);
        assert out == o1 + o2 && [] + Submits(o2) == Submits(o2);
      } else {
        NoSubmits(out);
      }
    } else {
      NoSubmits(out);
    }
  }

  /** The candidates of all submissions along a run that solve a block, in order. */
  ghost function RunSolved(H: HashFn, c: Config, s: Session, clock: nat, inputs: seq<Input>): seq<BlockData>
    requires Inv(c, s, clock) && InputsOk(clock, inputs)
    decreases inputs
  {
    if inputs == [] then []
    else
      RunHead(H, c, s, clock, inputs);
      Solved(H, c, s, inputs[0]) + RunSolved(H, c, Step(H, c, s, inputs[0]).0, inputs[0].now, inputs[1..])
  }

  /** Over any run the network is handed exactly the blocks that were found, each once and in order, and a solution is
      credited only right after its block was. */
  lemma {:induction false} EveryBlockSubmitted(H: HashFn, c: Config, s: Session, clock: nat, inputs: seq<Input>)
    requires Inv(c, s, clock) && InputsOk(clock, inputs)
    ensures Submits(Run(H, c, s, clock, inputs).1) == RunSolved(H, c, s, clock, inputs)
    ensures SolutionsFollow(Run(H, c, s, clock, inputs).1)
    decreases inputs
  {
    hide Inv, Step, TemplateOk, Run, Submits, Solved, SolutionsFollow;
    if inputs == [] {
      EmptyRun(H, c, s, clock);
      NoSubmits([]);
      NoneFollow();
    } else {
      RunHead(H, c, s, clock, inputs);
      StepSubmits(H, c, s, inputs[0]);
      var (s1, out) := Step(H, c, s, inputs[0]);
      EveryBlockSubmitted(H, c, s1, inputs[0].now, inputs[1..]);
      var more := Run(H, c, s1, inputs[0].now, inputs[1..]).1;
      SubmitsConcat(out, more);
      FollowConcat(out, more);
    }
  }

  lemma NoneFollow()
    ensures SolutionsFollow([])
  {
  }

  // ---------------------------------------------------------------- counters

  /** The event is a submission by an authorized worker that finds its job. */
  predicate Found(s: Session, e: Event) {
    e.Submit? && e.user in s.workers && e.jobid in s.jobs
  }

  function Rejections(outs: seq<Output>): nat {
    if outs == [] then 0
    else (if outs[|outs| - 1].Rejected? then 1 else 0) + Rejections(outs[..|outs| - 1])
  }

  lemma {:induction false} RejectionsConcat(a: seq<Output>, b: seq<Output>)
    ensures Rejections(a + b) == Rejections(a) + Rejections(b)
  {
    if b == [] {
      assert a + b == a;
    } else {
      RejectionsConcat(a, b[..|b| - 1]);
      assert (a + b)[..|a + b| - 1] == a + b[..|b| - 1];
    }
  }

  lemma {:induction false} NoRejections(outs: seq<Output>)
    requires forall k :: 0 <= k < |outs| ==> !outs[k].Rejected?
    ensures Rejections(outs) == 0
  {
    if outs != [] {
      NoRejections(outs[..|outs| - 1]);
    }
  }

  lemma OneRejection(o: Output, rest: seq<Output>)
    requires o.Rejected? && forall k :: 0 <= k < |rest| ==> !rest[k].Rejected?
    ensures Rejections([o] + rest) == 1
  {
    RejectionsConcat([o], rest);
    NoRejections(rest);
    assert [o][..0] == [];
    assert Rejections([o]) == 1;
  }

  /** Submissions along a run that found their job. */
  function RunFound(H: HashFn, c: Config, s: Session, ghost clock: nat, inputs: seq<Input>): nat
    requires Inv(c, s, clock) && InputsOk(clock, inputs)
    decreases inputs
  {
    if inputs == [] then 0
    else
      var i := inputs[0];
      InvLater(c, s, clock, i.now);
      StepKeepsInv(H, c, s, i);
      (if Found(s, i.event) then 1 else 0) + RunFound(H, c, Step(H, c, s, i).0, i.now, inputs[1..])
  }

  lemma LimitCounts(H: HashFn, c: Config, s: Session, diff: nat, now: nat, noise: Noise, work: BlockData)
    requires Inv(c, s, now) && TemplateOk(work)
    ensures
      var (s', ok, out) := Limit(H, c, s, diff, now, noise, work);
      && |s'.limiter.history| == |s.limiter.history| + 1 && s'.limiter.bad == s.limiter.bad
      && Rejections(out) == 0
      && (Banned(600) in out <==>
            var l := Recorded(s.limiter, diff, now);
            !TooSoon(c, l, now) && MostlyBad(l))
      && forall o :: o in out && o.Banned? ==> o.seconds == 600
  {
    hide JobOk, TemplateOk, NotifyOf, GetJob, ClockOk, Rejections, TooSoon, NewDiff, Variance, Dropped;
    var out := Limit(H, c, s, diff, now, noise, work).2;
    NoRejections(out);
    if Decide(c, s.limiter, diff, now, s.diff, noise).1.Ban? {
      assert out[0] == Banned(600);
    }
  }

  lemma GradeCounts(H: HashFn, s: Session, job: Job, user: string,
                    en2: Data, time: Data, nonce: Data, accepted: bool)
    requires JobOk(job) && |en2| == 4 && |time| == 4 && |nonce| == 4
    ensures
      var (s', out) := Grade(H, s, job, user, en2, time, nonce, accepted);
      && s'.limiter.history == s.limiter.history && s'.limiter.bad == s.limiter.bad + Rejections(out)
      && forall o :: o in out ==> !o.Banned?
  {
    hide JobOk, Candidate, HeaderBytes, FromLE, Rejections;
    FewRejections(Grade(H, s, job, user, en2, time, nonce, accepted).1);
  }

  lemma CheckCounts(H: HashFn, s: Session, id: nat, job: Job, user: string, share: Share, accepted: bool)
    requires JobOk(job)
    ensures
      var (s', out) := Check(H, s, id, job, user, share, accepted);
      && s'.limiter.history == s.limiter.history && s'.limiter.bad == s.limiter.bad + Rejections(out)
      && forall o :: o in out ==> !o.Banned?
  {
    hide JobOk, Grade, FromHex, Reverse, Pack, Rejections, Remember;
    FewRejections(Check(H, s, id, job, user, share, accepted).1);
    var en2, time, nonce := FromHex(share.extranonce2), Reverse(FromHex(share.ntime)), Reverse(FromHex(share.nonce));
    if |en2| == 4 && |time| == 4 && |nonce| == 4 {
      RememberSameLimiter(s, id, job, Pack(nonce, en2));
      GradeCounts(H, Remember(s, id, job, Pack(nonce, en2)), job, user, en2, time, nonce, accepted);
    }
  }

  lemma RememberSameLimiter(s: Session, id: nat, job: Job, packed: U64)
    ensures Remember(s, id, job, packed).limiter == s.limiter
  {
  }

  lemma FewRejections(out: seq<Output>)
    ensures (forall k :: 0 <= k < |out| ==> !out[k].Rejected?) ==> Rejections(out) == 0
    ensures |out| == 2 && out[0].Rejected? && !out[1].Rejected? ==> Rejections(out) == 1
  {
    hide *;
    if forall k :: 0 <= k < |out| ==> !out[k].Rejected? {
      NoRejections(out);
    } else if |out| == 2 && out[0].Rejected? && !out[1].Rejected? {
      OneRejection(out[0], [out[1]]);
      assert out == [out[0]] + [out[1]];
    }
  }

  /** The submission finds its job, and with it recorded it is time for a new look and most shares were bad. */
  predicate Bans(c: Config, s: Session, i: Input) {
    && Found(s, i.event)
    && var l := Recorded(s.limiter, s.jobs[i.event.jobid].diff, i.now);
       !TooSoon(c, l, i.now) && MostlyBad(l)
  }

  lemma StepCounts(H: HashFn, c: Config, s: Session, i: Input)
    requires Inv(c, s, i.now) && TemplateOk(i.work)
    ensures
      var (s', out) := Step(H, c, s, i);
      && |s'.limiter.history| == |s.limiter.history| + (if Found(s, i.event) then 1 else 0)
      && s'.limiter.bad == s.limiter.bad + Rejections(out)
      && (Banned(600) in out <==> Bans(c, s, i))
      && forall o :: o in out && o.Banned? ==> o.seconds == 600
  {
    hide JobOk, TemplateOk, NotifyOf, GetJob, Limit, Check, ClockOk, ToHex, LE, Rejections;
    var (s', out) := Step(H, c, s, i);
    var e := i.event;
    if e.Submit? && e.user in s.workers {
      if e.jobid !in s.jobs {
        OneRejection(out[0], out[1..]);
        assert out == [out[0]] + out[1..];
      } else {
        var job := s.jobs[e.jobid];
        var (s1, ok, o1) := Limit(H, c, s, job.diff, i.now, e.noise, i.work);
        LimitCounts(H, c, s, job.diff, i.now, e.noise, i.work);
        var o2 := if ok then Check(H, s1, e.jobid, job, e.user, e.share, e.accepted).1
                  else [Error(20, "Blocked by share limiter")];
        assert out == o1 + o2;
        RejectionsConcat(o1, o2);
        if ok {
          CheckCounts(H, s1, e.jobid, job, e.user, e.share, e.accepted);
        } else {
          NoRejections(o2);
        }
      }
    } else {
      NoRejections(out);
    }
  }

  /** The limiter's two counters are the submissions that found a job and the rejected rows pushed. */
  lemma {:induction false} CountersExact(H: HashFn, c: Config, s: Session, clock: nat, inputs: seq<Input>)
    requires Inv(c, s, clock) && InputsOk(clock, inputs)
    ensures
      var (r, out) := Run(H, c, s, clock, inputs);
      && |r.limiter.history| == |s.limiter.history| + RunFound(H, c, s, clock, inputs)
      && r.limiter.bad == s.limiter.bad + Rejections(out)
    decreases inputs
  {
    hide Inv, Step, TemplateOk, Rejections, Found;
    if inputs == [] {
      NoRejections([]);
    } else {
      var i := inputs[0];
      InvLater(c, s, clock, i.now);
      StepKeepsInv(H, c, s, i);
      StepCounts(H, c, s, i);
      var (s1, out) := Step(H, c, s, i);
      CountersExact(H, c, s1, i.now, inputs[1..]);
      RejectionsConcat(out, Run(H, c, s1, i.now, inputs[1..]).1);
    }
  }

  /** At any point of any session a submission leads to a ban exactly when it finds its job, the interval and the
      share threshold do not spare it, it is at least number 201 of those that did, and the rejected rows are above
      nine tenths of them. */
  lemma BanIsDeserved(H: HashFn, c: Config, extranonce: U32, lastShares: nat, now: nat, inputs: seq<Input>, i: Input)
    requires ConfigOk(c) && now < 0x1_0000_0000
    requires InputsOk(now, inputs) && TemplateOk(i.work)
    requires EndClock(now, inputs) <= i.now < 0x1_0000_0000
    ensures Inv(c, Connected(c, extranonce, lastShares, now), now)
    ensures
      var s := Connected(c, extranonce, lastShares, now);
      var (r, out) := Run(H, c, s, now, inputs);
      && Inv(c, r, i.now)
      && var found := RunFound(H, c, s, now, inputs) + 1;
         (Banned(600) in Step(H, c, r, i).1 <==>
            && Found(r, i.event) && !TooSoon(c, Recorded(r.limiter, r.jobs[i.event.jobid].diff, i.now), i.now)
            && found > 200 && 10 * Rejections(out) > 9 * found)
  {
    hide Inv, Run, Step, TemplateOk, Rejections, RunFound, TooSoon;
    ConnectedInv(c, extranonce, lastShares, now);
    var s := Connected(c, extranonce, lastShares, now);
    RunKeepsInv(H, c, s, now, inputs);
    var r := Run(H, c, s, now, inputs).0;
    InvLater(c, r, EndClock(now, inputs), i.now);
    StepCounts(H, c, r, i);
    CountersExact(H, c, s, now, inputs);
  }

  // ---------------------------------------------------------------- the window

  lemma LimitLimiter(H: HashFn, c: Config, s: Session, diff: nat, now: nat, noise: Noise, work: BlockData)
    requires Inv(c, s, now) && TemplateOk(work)
    ensures Limit(H, c, s, diff, now, noise, work).0.limiter == Decide(c, s.limiter, diff, now, s.diff, noise).0
  {
    hide JobOk, JobsOk, TemplateOk, NotifyOf, GetJob, ClockOk, Decide;
  }

  lemma SameAge(c: Config, l: Limiter, l': Limiter, clock: nat, now: nat, early: bool)
    requires Aged(c, l, clock, early) && clock <= now && l' == l.(bad := l'.bad)
    ensures Aged(c, l', now, early)
  {
  }

  /** The submission gets as far as a new estimate. */
  ghost predicate Reestimates(c: Config, s: Session, i: Input) {
    Found(s, i.event) && Estimates(c, s.limiter, s.jobs[i.event.jobid].diff, i.now)
  }

  /** The deque used for a new estimate is the true window exactly if the clock is at least the buffer and nothing
      the window should hold was dropped before. */
  ghost predicate WindowOrMissing(c: Config, l: Limiter, l': Limiter, now: nat) {
    && SuffixOk(l)
    && (l'.shares == Window(l'.history, now - c.timeBuffer) <==> c.timeBuffer <= now && NoneMissing(c, l, now))
  }

  lemma StepWindow(H: HashFn, c: Config, s: Session, clock: nat, i: Input, early: bool)
    requires Inv(c, s, i.now) && TemplateOk(i.work) && Aged(c, s.limiter, clock, early) && clock <= i.now
    requires c.timeBuffer <= i.now || early
    ensures
      var l := Step(H, c, s, i).0.limiter;
      Aged(c, l, i.now, early) && (Reestimates(c, s, i) ==> WindowOrMissing(c, s.limiter, l, i.now))
  {
    hide JobOk, TemplateOk, NotifyOf, GetJob, Limit, Check, ToHex, LE, ClockOk, Aged, Decide, Window, Estimates,
         SuffixOk, NoneMissing;
    var e := i.event;
    SameAge(c, s.limiter, s.limiter, clock, i.now, early);
    SameAge(c, s.limiter, LogBad(s).limiter, clock, i.now, early);
    if Found(s, e) {
      var job := s.jobs[e.jobid];
      var s1 := Limit(H, c, s, job.diff, i.now, e.noise, i.work).0;
      LimitLimiter(H, c, s, job.diff, i.now, e.noise, i.work);
      AgedSuffix(c, s.limiter, clock, early);
      DecideAges(c, s.limiter, job.diff, clock, i.now, s.diff, e.noise, early);
      WindowExact(c, s.limiter, job.diff, i.now, s.diff, e.noise);
      CheckRest(H, s1, e.jobid, job, e.user, e.share, e.accepted);
      SameAge(c, s1.limiter, Check(H, s1, e.jobid, job, e.user, e.share, e.accepted).0.limiter, i.now, i.now, early);
    }
  }

  lemma AgedSuffix(c: Config, l: Limiter, clock: nat, early: bool)
    requires Aged(c, l, clock, early)
    ensures SuffixOk(l)
  {
  }

  lemma {:induction false} RunWindow(H: HashFn, c: Config, s: Session, clock: nat, inputs: seq<Input>, early: bool)
    requires Inv(c, s, clock) && InputsOk(clock, inputs) && Aged(c, s.limiter, clock, early)
    requires c.timeBuffer <= clock || early
    ensures Aged(c, Run(H, c, s, clock, inputs).0.limiter, EndClock(clock, inputs), early)
    decreases inputs
  {
    hide Inv, Step, TemplateOk, Aged, Reestimates, Run;
    if inputs == [] {
      EmptyRun(H, c, s, clock);
    } else {
      RunHead(H, c, s, clock, inputs);
      StepWindow(H, c, s, clock, inputs[0], early);
      RunWindow(H, c, Step(H, c, s, inputs[0]).0, inputs[0].now, inputs[1..], early);
    }
  }

  /** At any point of any session the deque is a suffix of the connection's records, and whenever a submission leads
      to a new estimate the deque it is weighed by is exactly the records newer than now - timeBuffer if and only if
      the clock is at least the buffer and nothing still in the window was dropped before. Nothing can have been if
      the connection was made with the clock past the buffer, or if the clock is past twice the buffer. */
  lemma SessionWindow(H: HashFn, c: Config, extranonce: U32, lastShares: nat, now: nat, inputs: seq<Input>, i: Input)
    requires ConfigOk(c) && now < 0x1_0000_0000
    requires InputsOk(now, inputs) && TemplateOk(i.work) && EndClock(now, inputs) <= i.now < 0x1_0000_0000
    ensures Inv(c, Connected(c, extranonce, lastShares, now), now)
    ensures
      var r := Run(H, c, Connected(c, extranonce, lastShares, now), now, inputs).0;
      && Inv(c, r, i.now) && SuffixOk(r.limiter)
      && (Reestimates(c, r, i) ==> WindowOrMissing(c, r.limiter, Step(H, c, r, i).0.limiter, i.now))
      && (c.timeBuffer <= now || 2 * c.timeBuffer <= i.now ==> NoneMissing(c, r.limiter, i.now))
  {
    hide *;
    ConnectedInv(c, extranonce, lastShares, now);
    var s, early := Connected(c, extranonce, lastShares, now), now < c.timeBuffer;
    NothingDropped(c, extranonce, lastShares, now, early);
    RunWindow(H, c, s, now, inputs, early);
    RunKeepsInv(H, c, s, now, inputs);
    ClockForward(now, inputs);
    var r := Run(H, c, s, now, inputs).0;
    InvLater(c, r, EndClock(now, inputs), i.now);
    StepWindow(H, c, r, EndClock(now, inputs), i, early);
    NoneMissingWhen(c, r.limiter, EndClock(now, inputs), i.now, early);
  }

  lemma NothingDropped(c: Config, extranonce: U32, lastShares: nat, now: nat, early: bool)
    ensures Aged(c, Connected(c, extranonce, lastShares, now).limiter, now, early)
  {
  }

  lemma NoneMissingWhen(c: Config, l: Limiter, clock: nat, now: nat, early: bool)
    requires Aged(c, l, clock, early) && clock <= now
    ensures SuffixOk(l) && (!early || 2 * c.timeBuffer <= now ==> NoneMissing(c, l, now))
  {
  }
}
