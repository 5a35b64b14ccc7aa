/** What counts as a duplicate: over whole sessions, which submissions are refused as duplicates, and which blocks can
    be credited more than once. */
module Duplicates {
  import opened Bytes
  import opened Codec
  import opened Blocks
  import opened Targets
  import opened Work
  import opened Commitment
  import opened Limiting
  import opened Stratum
  import opened Runs
  import opened JobIds

  // ---------------------------------------------------------------- tries

  /** A share that reached the duplicate check: the job by its serial, the pair the check looks at, and what else
      went into its header. */
  datatype Try = Try(serial: nat, nonce: Data, extranonce2: Data, time: Data, extranonce1: U32)

  /** The try a step makes, if any. */
  ghost function Tried(H: HashFn, c: Config, s: Session, i: Input): (ts: seq<Try>)
    requires Inv(c, s, i.now) && TemplateOk(i.work)
  {
    if Admitted(H, c, s, i) then TriedShare(s.jobs[i.event.jobid].serial, s.extranonce, i.event.share) else []
  }

  function TriedShare(serial: nat, en1: U32, share: Share): (ts: seq<Try>)
    ensures |ts| <= 1 && AllSized(ts) && forall t :: t in ts ==> t.serial == serial
  {
    var en2, time, nonce := FromHex(share.extranonce2), Reverse(FromHex(share.ntime)), Reverse(FromHex(share.nonce));
    if |en2| == 4 && |time| == 4 && |nonce| == 4 then [Try(serial, nonce, en2, time, en1)] else []
  }

  ghost predicate Sized(t: Try) {
    |t.nonce| == 4 && |t.extranonce2| == 4 && |t.time| == 4
  }

  ghost predicate AllSized(ts: seq<Try>) {
    forall t :: t in ts ==> Sized(t)
  }

  /** The check cannot tell the two apart. */
  ghost predicate SamePair(t: Try, u: Try) {
    t.serial == u.serial && t.nonce == u.nonce && t.extranonce2 == u.extranonce2
  }

  /** The packed pairs tried on the job with this serial. */
  ghost function Packed(ts: seq<Try>, serial: nat): set<U64>
    requires AllSized(ts)
  {
    set t | t in ts && t.serial == serial :: Pack(t.nonce, t.extranonce2)
  }

  /** The packing loses nothing, so the set of a job knows exactly which pairs were tried on it. */
  lemma PackedKnows(ts: seq<Try>, t: Try)
    requires AllSized(ts) && Sized(t)
    ensures Pack(t.nonce, t.extranonce2) in Packed(ts, t.serial) <==> exists u :: u in ts && SamePair(u, t)
  {
    hide Pack;
    if Pack(t.nonce, t.extranonce2) in Packed(ts, t.serial) {
      var u :| u in ts && u.serial == t.serial && Pack(u.nonce, u.extranonce2) == Pack(t.nonce, t.extranonce2);
      PackInjective(u.nonce, u.extranonce2, t.nonce, t.extranonce2);
      assert SamePair(u, t);
    }
  }

  lemma PackedConcat(a: seq<Try>, b: seq<Try>, serial: nat)
    requires AllSized(a) && AllSized(b)
    ensures AllSized(a + b) && Packed(a + b, serial) == Packed(a, serial) + Packed(b, serial)
  {
    hide Pack;
  }

  // ---------------------------------------------------------------- one step

  /** At most one job was issued, with the given work and no shares; every other job is as it was, but for the
      tries made on it. */
  ghost predicate Evolves(s: Session, s': Session, work: BlockData, ts: seq<Try>) {
    && AllSized(ts) && s.issued <= s'.issued <= s.issued + 1
    && forall id :: id in s'.jobs ==> EntryEvolves(s, s'.jobs[id], id, work, ts)
  }

  ghost predicate EntryEvolves(s: Session, j: Job, id: nat, work: BlockData, ts: seq<Try>)
    requires AllSized(ts)
  {
    if j.serial < s.issued
    then id in s.jobs && j == s.jobs[id].(shares := s.jobs[id].shares + Packed(ts, j.serial))
    else j.block == work && j.shares == {}
  }

  lemma StaysPut(s: Session, s': Session, work: BlockData)
    requires s'.jobs == s.jobs && s'.issued == s.issued && JobsOk(s)
    ensures Evolves(s, s', work, [])
  {
    hide JobOk, Pack;
  }

  lemma SendEvolves(H: HashFn, s: Session, work: BlockData, clean: bool)
    requires TemplateOk(work) && s.diff > 0 && JobsOk(s)
    ensures Evolves(s, SendJob(H, s, work, clean).0, work, [])
  {
    hide JobOk, TemplateOk, NotifyOf, Pack;
  }

  lemma SetDifficultyEvolves(H: HashFn, s: Session, diff: nat, resend: bool, work: BlockData)
    requires TemplateOk(work) && diff > 0 && JobsOk(s)
    ensures Evolves(s, SetDifficulty(H, s, diff, resend, work).0, work, [])
    ensures !resend ==> SetDifficulty(H, s, diff, resend, work).0.jobs == s.jobs
    ensures !resend ==> SetDifficulty(H, s, diff, resend, work).0.issued == s.issued
  {
    hide TemplateOk, SendJob, Evolves, JobOk, JobsOk;
    var d := if diff < s.minDiff then s.minDiff else diff;
    var s1 := s.(diff := d);
    StaysPut(s, s, work);
    StaysPut(s, s1, work);
    SameJobs(s, s1);
    SendEvolves(H, s1, work, false);
    SameStart(s, s1, SendJob(H, s1, work, false).0, work, []);
  }

  lemma SameStart(s: Session, s1: Session, s': Session, work: BlockData, ts: seq<Try>)
    requires s1.jobs == s.jobs && s1.issued == s.issued && Evolves(s1, s', work, ts)
    ensures Evolves(s, s', work, ts)
  {
    hide Pack;
  }

  lemma LimitEvolves(H: HashFn, c: Config, s: Session, diff: nat, now: nat, noise: Noise, work: BlockData)
    requires Inv(c, s, now) && TemplateOk(work)
    ensures Evolves(s, Limit(H, c, s, diff, now, noise, work).0, work, [])
  {
    hide JobOk, JobsOk, TemplateOk, SendJob, SetDifficulty, Decide, Evolves;
    var (l, v) := Decide(c, s.limiter, diff, now, s.diff, noise);
    var s1 := s.(limiter := l);
    SameJobs(s, s1);
    match v
    case Pass => StaysPut(s, s1, work);
    case Ban => StaysPut(s, s1, work);
    case Retarget(d) =>
      SetDifficultyEvolves(H, s1, d, true, work);
      SameStart(s, s1, SetDifficulty(H, s1, d, true, work).0, work, []);
    case Reset(d) =>
      SetDifficultyEvolves(H, s1, d, false, work);
      SetDifficultyKeeps(H, s1, d, false, work);
      var s2 := SetDifficulty(H, s1, d, false, work).0;
      SendEvolves(H, s2, work, true);
      SameStart(s, s2, SendJob(H, s2, work, true).0, work, []);
  }

  /** What the check does to the map: the tried pair enters the entry that is still the job. */
  lemma CheckJobs(H: HashFn, s: Session, id: nat, job: Job, user: string, share: Share, accepted: bool)
    requires JobOk(job)
    requires id in s.jobs && s.jobs[id].serial == job.serial ==> s.jobs[id] == job
    ensures
      var s' := Check(H, s, id, job, user, share, accepted).0;
      var ps := Packed(TriedShare(job.serial, s.extranonce, share), job.serial);
      && s'.issued == s.issued && s'.jobs.Keys == s.jobs.Keys
      && forall x :: x in s.jobs ==>
           s'.jobs[x] == if x == id && s.jobs[id].serial == job.serial then job.(shares := job.shares + ps)
                         else s.jobs[x]
  {
    hide JobOk, Admit, FromHex, Reverse, Pack, Packed;
    var en2, time, nonce := FromHex(share.extranonce2), Reverse(FromHex(share.ntime)), Reverse(FromHex(share.nonce));
    if |en2| == 4 && |time| == 4 && |nonce| == 4 {
      PackedOne(Try(job.serial, nonce, en2, time, s.extranonce));
      AdmitJobs(H, s, id, job, user, en2, time, nonce, accepted);
    } else {
      PackedNone(job.serial);
      assert job.shares + {} == job.shares;
    }
  }

  lemma AdmitJobs(H: HashFn, s: Session, id: nat, job: Job, user: string,
                  en2: Data, time: Data, nonce: Data, accepted: bool)
    requires JobOk(job) && |en2| == 4 && |time| == 4 && |nonce| == 4
    requires id in s.jobs && s.jobs[id].serial == job.serial ==> s.jobs[id] == job
    ensures
      var s' := Admit(H, s, id, job, user, en2, time, nonce, accepted).0;
      && s'.issued == s.issued && s'.jobs.Keys == s.jobs.Keys
      && forall x :: x in s.jobs ==>
           s'.jobs[x] == if x == id && s.jobs[id].serial == job.serial
                         then job.(shares := job.shares + {Pack(nonce, en2)})
                         else s.jobs[x]
  {
    hide JobOk, Candidate, HeaderBytes, Pack, FromLE;
    if Pack(nonce, en2) in job.shares {
      assert job.shares + {Pack(nonce, en2)} == job.shares;
    }
  }

  lemma PackedNone(serial: nat)
    ensures Packed([], serial) == {}
  {
  }

  lemma PackedOne(t: Try)
    requires Sized(t)
    ensures AllSized([t]) && Packed([t], t.serial) == {Pack(t.nonce, t.extranonce2)}
  {
    hide Pack;
    assert t in [t];
  }

  lemma SubmitEvolves(s: Session, s1: Session, s2: Session, id: nat, work: BlockData, ts: seq<Try>)
    requires JobsOk(s) && id in s.jobs && Evolves(s, s1, work, []) && AllSized(ts)
    requires forall t :: t in ts ==> t.serial == s.jobs[id].serial
    requires s2.issued == s1.issued && s2.jobs.Keys == s1.jobs.Keys
    requires forall x :: x in s1.jobs ==>
               s2.jobs[x] == if x == id && s1.jobs[id].serial == s.jobs[id].serial
                             then s.jobs[id].(shares := s.jobs[id].shares + Packed(ts, s.jobs[id].serial))
                             else s1.jobs[x]
    ensures Evolves(s, s2, work, ts)
  {
    hide JobOk, Pack;
    var serial := s.jobs[id].serial;
    forall x | x in s2.jobs
      ensures EntryEvolves(s, s2.jobs[x], x, work, ts)
    {
      assert EntryEvolves(s, s1.jobs[x], x, work, []);
      if s2.jobs[x].serial != serial {
        assert Packed(ts, s2.jobs[x].serial) == {};
      } else {
        assert x == id;
      }
    }
  }

  lemma StepEvolves(H: HashFn, c: Config, s: Session, i: Input)
    requires Inv(c, s, i.now) && TemplateOk(i.work)
    ensures Evolves(s, Step(H, c, s, i).0, i.work, Tried(H, c, s, i))
  {
    hide JobOk, TemplateOk, SendJob, SetDifficulty, Limit, Check, ClockOk, ToHex, LE, Evolves, TriedShare, Packed,
         JobsOk;
    match i.event
    case Subscribe(en) =>
      var s1 := s.(extranonce := en);
      SameJobs(s, s1);
      SendEvolves(H, s1, i.work, false);
      SameStart(s, s1, SendJob(H, s1, i.work, false).0, i.work, []);
    case SendWork(clean) => SendEvolves(H, s, i.work, clean);
    case Authorize(user, found, min) =>
      var s1 := s.(workers := s.workers + {user}, minDiff := min);
      StaysPut(s, s, i.work);
      StaysPut(s, s1, i.work);
      SameJobs(s, s1);
      if s1.diff < s1.minDiff {
        SetDifficultyEvolves(H, s1, s1.minDiff, false, i.work);
        SameStart(s, s1, SetDifficulty(H, s1, s1.minDiff, false, i.work).0, i.work, []);
      }
    case Submit(user, id, share, noise, accepted) =>
      StaysPut(s, s, i.work);
      StaysPut(s, LogBad(s), i.work);
      if user in s.workers && id in s.jobs {
        OnSubmitEvolves(H, c, s, i);
      }
  }

  lemma OnSubmitEvolves(H: HashFn, c: Config, s: Session, i: Input)
    requires Inv(c, s, i.now) && TemplateOk(i.work)
    requires i.event.Submit? && i.event.user in s.workers && i.event.jobid in s.jobs
    ensures Evolves(s, OnSubmit(H, c, s, i.event, i.now, i.work).0, i.work, Tried(H, c, s, i))
  {
    hide JobOk, TemplateOk, Limit, Check, ClockOk, Evolves, TriedShare, Packed;
    var e := i.event;
    var job := s.jobs[e.jobid];
    var (s1, ok, _) := Limit(H, c, s, job.diff, i.now, e.noise, i.work);
    LimitEvolves(H, c, s, job.diff, i.now, e.noise, i.work);
    if ok {
      LimitKeepsEntry(H, c, s, job.diff, i.now, e.noise, i.work, e.jobid);
      LimitNoCredit(H, c, s, job.diff, i.now, e.noise, i.work);
      CheckJobs(H, s1, e.jobid, job, e.user, e.share, e.accepted);
      var s2 := Check(H, s1, e.jobid, job, e.user, e.share, e.accepted).0;
      SubmitEvolves(s, s1, s2, e.jobid, i.work, TriedShare(job.serial, s.extranonce, e.share));
    }
  }

  // ---------------------------------------------------------------- the two logs

  /** The works of all jobs issued along a run, in order. */
  ghost function RunWorks(H: HashFn, c: Config, s: Session, clock: nat, inputs: seq<Input>): seq<BlockData>
    requires Inv(c, s, clock) && InputsOk(clock, inputs)
    decreases inputs
  {
    if inputs == [] then []
    else
      RunHead(H, c, s, clock, inputs);
      var s1 := Step(H, c, s, inputs[0]).0;
      (if s1.issued == s.issued then [] else [inputs[0].work]) + RunWorks(H, c, s1, inputs[0].now, inputs[1..])
  }

  /** Every try made along a run, in order. */
  ghost function RunTries(H: HashFn, c: Config, s: Session, clock: nat, inputs: seq<Input>): seq<Try>
    requires Inv(c, s, clock) && InputsOk(clock, inputs)
    decreases inputs
  {
    if inputs == [] then []
    else
      RunHead(H, c, s, clock, inputs);
      Tried(H, c, s, inputs[0]) + RunTries(H, c, Step(H, c, s, inputs[0]).0, inputs[0].now, inputs[1..])
  }

  /** The logs tell all about the map: a job's serial is its place in the first, and its share set is what the
      second says was tried on it. */
  ghost predicate Logged(s: Session, works: seq<BlockData>, ts: seq<Try>) {
    && |works| == s.issued && (forall w :: w in works ==> TemplateOk(w))
    && AllSized(ts) && (forall t :: t in ts ==> t.serial < s.issued)
    && forall id :: id in s.jobs ==>
         && s.jobs[id].serial < |works| && s.jobs[id].block == works[s.jobs[id].serial]
         && s.jobs[id].shares == Packed(ts, s.jobs[id].serial)
  }

  lemma LogsGrow(s: Session, s': Session, work: BlockData, works: seq<BlockData>, ts: seq<Try>, more: seq<Try>)
    requires Logged(s, works, ts) && Evolves(s, s', work, more) && JobsOk(s') && TemplateOk(work)
    requires forall t :: t in more ==> t.serial < s.issued
    ensures Logged(s', works + (if s'.issued == s.issued then [] else [work]), ts + more)
  {
    hide JobOk, Pack, TemplateOk, Sized;
    var works' := works + if s'.issued == s.issued then [] else [work];
    forall id | id in s'.jobs
      ensures s'.jobs[id].serial < |works'| && s'.jobs[id].block == works'[s'.jobs[id].serial]
      ensures AllSized(ts + more) && s'.jobs[id].shares == Packed(ts + more, s'.jobs[id].serial)
    {
      var j := s'.jobs[id];
      assert EntryEvolves(s, j, id, work, more);
      PackedConcat(ts, more, j.serial);
      if j.serial >= s.issued {
        assert Packed(ts, j.serial) == {} && Packed(more, j.serial) == {};
      }
    }
  }

  lemma StepLogged(H: HashFn, c: Config, s: Session, i: Input, works: seq<BlockData>, ts: seq<Try>)
    requires Inv(c, s, i.now) && TemplateOk(i.work) && Logged(s, works, ts)
    ensures
      var s' := Step(H, c, s, i).0;
      Logged(s', works + (if s'.issued == s.issued then [] else [i.work]), ts + Tried(H, c, s, i))
  {
    hide TemplateOk, Step, JobOk, ClockOk, Logged, Evolves, Packed;
    StepEvolves(H, c, s, i);
    StepKeepsInv(H, c, s, i);
    LogsGrow(s, Step(H, c, s, i).0, i.work, works, ts, Tried(H, c, s, i));
  }

  lemma NoLogs(H: HashFn, c: Config, s: Session, clock: nat)
    requires Inv(c, s, clock)
    ensures InputsOk(clock, []) && RunWorks(H, c, s, clock, []) == [] && RunTries(H, c, s, clock, []) == []
  {
    hide Inv;
  }

  lemma LogsHead(H: HashFn, c: Config, s: Session, clock: nat, inputs: seq<Input>)
    requires Inv(c, s, clock) && InputsOk(clock, inputs) && inputs != []
    ensures
      var i := inputs[0];
      && Inv(c, s, i.now) && TemplateOk(i.work) && InputsOk(i.now, inputs[1..])
      && var s1 := Step(H, c, s, i).0;
         && Inv(c, s1, i.now)
         && RunWorks(H, c, s, clock, inputs)
            == (if s1.issued == s.issued then [] else [i.work]) + RunWorks(H, c, s1, i.now, inputs[1..])
         && RunTries(H, c, s, clock, inputs) == Tried(H, c, s, i) + RunTries(H, c, s1, i.now, inputs[1..])
  {
    hide Inv, TemplateOk, Step, Tried;
    RunHead(H, c, s, clock, inputs);
  }

  lemma {:induction false} RunLogged(
      H: HashFn, c: Config, s: Session, clock: nat, inputs: seq<Input>, works: seq<BlockData>, ts: seq<Try>)
    requires Inv(c, s, clock) && InputsOk(clock, inputs) && Logged(s, works, ts)
    ensures Logged(Run(H, c, s, clock, inputs).0,
                   works + RunWorks(H, c, s, clock, inputs), ts + RunTries(H, c, s, clock, inputs))
    decreases inputs
  {
    hide *;
    if inputs == [] {
      EmptyRun(H, c, s, clock);
      NoLogs(H, c, s, clock);
      assert works + [] == works && ts + [] == ts;
    } else {
      var i := inputs[0];
      RunHead(H, c, s, clock, inputs);
      LogsHead(H, c, s, clock, inputs);
      StepLogged(H, c, s, i, works, ts);
      var s1 := Step(H, c, s, i).0;
      var w, t := if s1.issued == s.issued then [] else [i.work], Tried(H, c, s, i);
      RunLogged(H, c, s1, i.now, inputs[1..], works + w, ts + t);
      var w', t' := RunWorks(H, c, s1, i.now, inputs[1..]), RunTries(H, c, s1, i.now, inputs[1..]);
      assert (works + w) + w' == works + (w + w');
      assert (ts + t) + t' == ts + (t + t');
    }
  }

  lemma SessionLogged(H: HashFn, c: Config, extranonce: U32, lastShares: nat, now: nat, inputs: seq<Input>)
    requires ConfigOk(c) && now < 0x1_0000_0000 && InputsOk(now, inputs)
    ensures Inv(c, Connected(c, extranonce, lastShares, now), now)
    ensures
      var s := Connected(c, extranonce, lastShares, now);
      Logged(Run(H, c, s, now, inputs).0, RunWorks(H, c, s, now, inputs), RunTries(H, c, s, now, inputs))
  {
    hide *;
    ConnectedInv(c, extranonce, lastShares, now);
    var s := Connected(c, extranonce, lastShares, now);
    NothingLogged(c, extranonce, lastShares, now);
    RunLogged(H, c, s, now, inputs, [], []);
    var works, ts := RunWorks(H, c, s, now, inputs), RunTries(H, c, s, now, inputs);
    assert [] + works == works && [] + ts == ts;
  }

  // ---------------------------------------------------------------- duplicates

  ghost predicate IsDuplicate(o: Output) {
    o.Rejected? && o.reason == "Duplicate share"
  }

  lemma CheckDuplicate(H: HashFn, s: Session, id: nat, job: Job, user: string, share: Share, accepted: bool)
    requires JobOk(job)
    ensures
      var ts := TriedShare(job.serial, s.extranonce, share);
      (exists o :: o in Check(H, s, id, job, user, share, accepted).1 && IsDuplicate(o))
      <==> |ts| == 1 && Sized(ts[0]) && Pack(ts[0].nonce, ts[0].extranonce2) in job.shares
  {
    hide JobOk, Candidate, HeaderBytes, FromHex, Reverse, Pack, FromLE;
    var out := Check(H, s, id, job, user, share, accepted).1;
    var en2, time, nonce := FromHex(share.extranonce2), Reverse(FromHex(share.ntime)), Reverse(FromHex(share.nonce));
    assert |"Share above target"| == 18 && |"Duplicate share"| == 15;
    if |en2| == 4 && |time| == 4 && |nonce| == 4 && Pack(nonce, en2) in job.shares {
      assert IsDuplicate(out[0]);
    }
  }

  lemma StepDuplicate(H: HashFn, c: Config, s: Session, i: Input)
    requires Inv(c, s, i.now) && TemplateOk(i.work)
    ensures
      var ts := Tried(H, c, s, i);
      (exists o :: o in Step(H, c, s, i).1 && IsDuplicate(o))
      <==> |ts| == 1 && i.event.Submit? && i.event.jobid in s.jobs && ts[0].serial == s.jobs[i.event.jobid].serial
           && Sized(ts[0]) && Pack(ts[0].nonce, ts[0].extranonce2) in s.jobs[i.event.jobid].shares
  {
    hide JobOk, TemplateOk, NotifyOf, GetJob, Limit, Check, ClockOk, ToHex, LE, Pack, TriedShare;
    var e, out := i.event, Step(H, c, s, i).1;
    if e.Submit? && e.user in s.workers && e.jobid in s.jobs {
      var job := s.jobs[e.jobid];
      var (s1, ok, o1) := Limit(H, c, s, job.diff, i.now, e.noise, i.work);
      LimitNoCredit(H, c, s, job.diff, i.now, e.noise, i.work);
      if ok {
        CheckDuplicate(H, s1, e.jobid, job, e.user, e.share, e.accepted);
        var o2 := Check(H, s1, e.jobid, job, e.user, e.share, e.accepted).1;
        assert out == o1 + o2;
      } else {
        assert out == o1 + [Error(20, "Blocked by share limiter")];
      }
    } else {
      assert |"Job not found"| == 13 && |"Duplicate share"| == 15;
    }
  }

  /** Over every session: a submission is refused as a duplicate exactly when it reaches the check with a pair
      that an earlier submission already tried on the job of the same serial, whatever became of that one. */
  lemma DuplicateExact(H: HashFn, c: Config, extranonce: U32, lastShares: nat, now: nat, inputs: seq<Input>, i: Input)
    requires ConfigOk(c) && now < 0x1_0000_0000 && InputsOk(now, inputs) && TemplateOk(i.work)
    requires EndClock(now, inputs) <= i.now < 0x1_0000_0000
    ensures Inv(c, Connected(c, extranonce, lastShares, now), now)
    ensures
      var s := Connected(c, extranonce, lastShares, now);
      var r := Run(H, c, s, now, inputs).0;
      && Inv(c, r, i.now)
      && var ts := Tried(H, c, r, i);
         (exists o :: o in Step(H, c, r, i).1 && IsDuplicate(o))
         <==> |ts| == 1 && exists u :: u in RunTries(H, c, s, now, inputs) && SamePair(u, ts[0])
  {
    hide Inv, Run, RunWorks, RunTries, Packed, Pack, Step, TemplateOk, TriedShare, Limit, SamePair, Sized;
    SessionLogged(H, c, extranonce, lastShares, now, inputs);
    var s := Connected(c, extranonce, lastShares, now);
    RunKeepsInv(H, c, s, now, inputs);
    var r := Run(H, c, s, now, inputs).0;
    InvLater(c, r, EndClock(now, inputs), i.now);
    StepDuplicate(H, c, r, i);
    var ts, log := Tried(H, c, r, i), RunTries(H, c, s, now, inputs);
    if |ts| == 1 {
      assert ts[0] in ts;
      PackedKnows(log, ts[0]);
    }
  }

  // ---------------------------------------------------------------- duplicates and headers

  /** The block of a try on the work its serial names. */
  ghost function TriedBlock(H: HashFn, works: seq<BlockData>, t: Try): BlockData
    requires (forall w :: w in works ==> TemplateOk(w)) && t.serial < |works| && Sized(t)
  {
    TemplateShape(works[t.serial]);
    Candidate(H, works[t.serial], t.extranonce1, t.extranonce2, t.time, t.nonce)
  }

  /** Two tries on one job make the same header exactly when they agree in everything. */
  lemma TriesApart(H: HashFn, works: seq<BlockData>, t: Try, u: Try, S: set<Data>)
    requires (forall w :: w in works ==> TemplateOk(w)) && t.serial == u.serial < |works| && Sized(t) && Sized(u)
    requires Ordinary(works[t.serial]) && CollisionFree(H, S)
    requires TriedWithin(H, works, t, S) && TriedWithin(H, works, u, S)
    ensures HeaderBytes(TriedBlock(H, works, t)) == HeaderBytes(TriedBlock(H, works, u)) <==> t == u
  {
    hide HeaderBytes, BlockInputs, CollisionFree, Candidate, IsTemplateCoinbase, Ordinary, Proper, SameWork;
    var w := works[t.serial];
    CandidateProper(H, w, t.extranonce1, t.extranonce2, t.time, t.nonce);
    CandidateProper(H, w, u.extranonce1, u.extranonce2, u.time, u.nonce);
    HeaderCommits(H, TriedBlock(H, works, t), TriedBlock(H, works, u), S);
    if TriedBlock(H, works, t) == TriedBlock(H, works, u) {
      CandidateInjective(H, w, t.extranonce1, t.extranonce2, t.time, t.nonce,
                         w, u.extranonce1, u.extranonce2, u.time, u.nonce);
    }
  }

  /** Every string hashed for the try's block is in S. */
  ghost predicate TriedWithin(H: HashFn, works: seq<BlockData>, t: Try, S: set<Data>)
    requires (forall w :: w in works ==> TemplateOk(w)) && t.serial < |works| && Sized(t)
  {
    var tx := TriedBlock(H, works, t).tx;
    |tx| >= 1 && BlockInputs(H, tx) <= S
  }

  /** Some earlier try on the job made this header. */
  ghost predicate HeaderTried(H: HashFn, works: seq<BlockData>, log: seq<Try>, t: Try)
    requires (forall w :: w in works ==> TemplateOk(w)) && t.serial < |works| && Sized(t)
    requires AllSized(log)
  {
    exists u :: u in log && u.serial == t.serial
                && HeaderBytes(TriedBlock(H, works, u)) == HeaderBytes(TriedBlock(H, works, t))
  }

  lemma HeaderTriedExact(H: HashFn, works: seq<BlockData>, log: seq<Try>, t: Try, S: set<Data>)
    requires (forall w :: w in works ==> TemplateOk(w) && Ordinary(w)) && t.serial < |works| && Sized(t)
    requires AllSized(log) && CollisionFree(H, S) && TriedWithin(H, works, t, S)
    requires forall u :: u in log && u.serial == t.serial ==> TriedWithin(H, works, u, S)
    ensures HeaderTried(H, works, log, t) <==> t in log
  {
    hide HeaderBytes, TriedBlock, CollisionFree, TemplateOk, Ordinary, TriedWithin, Sized;
    forall u | u in log && u.serial == t.serial
      ensures HeaderBytes(TriedBlock(H, works, u)) == HeaderBytes(TriedBlock(H, works, t)) <==> u == t
    {
      TriesApart(H, works, u, t, S);
    }
  }

  /** Every try of the run, and the one after it, hashes only strings of S. */
  ghost predicate AllTriedWithin(H: HashFn, works: seq<BlockData>, log: seq<Try>, ts: seq<Try>, S: set<Data>) {
    && (forall w :: w in works ==> TemplateOk(w) && Ordinary(w)) && AllSized(log) && AllSized(ts)
    && (forall u :: u in log && u.serial < |works| ==> TriedWithin(H, works, u, S))
    && (forall u :: u in ts && u.serial < |works| ==> TriedWithin(H, works, u, S))
  }

  /** Over every session, when a refusal is deserved: with ordinary templates and no two strings hashed for the tried
      blocks colliding, a submission that reaches the check repeats the header of an earlier try on its job exactly
      when an earlier try had the same pair, the same time and the same extranonce1; it is refused as soon as one
      had the same pair. */
  lemma RefusedHeaderRepeats(H: HashFn, c: Config, extranonce: U32, lastShares: nat, now: nat, inputs: seq<Input>,
                             i: Input, S: set<Data>)
    requires ConfigOk(c) && now < 0x1_0000_0000 && InputsOk(now, inputs) && TemplateOk(i.work)
    requires EndClock(now, inputs) <= i.now < 0x1_0000_0000 && CollisionFree(H, S)
    ensures Inv(c, Connected(c, extranonce, lastShares, now), now)
    ensures
      var s := Connected(c, extranonce, lastShares, now);
      var r := Run(H, c, s, now, inputs).0;
      && Inv(c, r, i.now)
      && var works, log, ts := RunWorks(H, c, s, now, inputs), RunTries(H, c, s, now, inputs), Tried(H, c, r, i);
         AllTriedWithin(H, works, log, ts, S) && |ts| == 1 ==>
           && ts[0].serial < |works| && Sized(ts[0])
           && (HeaderTried(H, works, log, ts[0]) <==> ts[0] in log)
           && ((exists o :: o in Step(H, c, r, i).1 && IsDuplicate(o)) <==>
                 exists u :: u in log && SamePair(u, ts[0]))
  {
    hide *;
    DuplicateExact(H, c, extranonce, lastShares, now, inputs, i);
    SessionLogged(H, c, extranonce, lastShares, now, inputs);
    var s := Connected(c, extranonce, lastShares, now);
    var r := Run(H, c, s, now, inputs).0;
    var works, log, ts := RunWorks(H, c, s, now, inputs), RunTries(H, c, s, now, inputs), Tried(H, c, r, i);
    if AllTriedWithin(H, works, log, ts, S) && |ts| == 1 {
      TrySerial(H, c, r, i, works, log);
      TriedParts(H, works, log, ts, S);
      HeaderTriedExact(H, works, log, ts[0], S);
    }
  }

  lemma TrySerial(H: HashFn, c: Config, s: Session, i: Input, works: seq<BlockData>, log: seq<Try>)
    requires Inv(c, s, i.now) && TemplateOk(i.work) && Logged(s, works, log)
    ensures forall t :: t in Tried(H, c, s, i) ==> t.serial < |works|
  {
    hide JobOk, TemplateOk, ClockOk, TriedShare, Packed, Limit;
  }

  lemma TriedParts(H: HashFn, works: seq<BlockData>, log: seq<Try>, ts: seq<Try>, S: set<Data>)
    requires AllTriedWithin(H, works, log, ts, S) && |ts| == 1 && ts[0] in ts && ts[0].serial < |works|
    ensures Sized(ts[0]) && AllSized(log) && (forall w :: w in works ==> TemplateOk(w) && Ordinary(w))
    ensures TriedWithin(H, works, ts[0], S)
    ensures forall u :: u in log && u.serial == ts[0].serial ==> TriedWithin(H, works, u, S)
  {
    hide TriedWithin, TemplateOk, Ordinary, Sized;
  }

  /** Time and extranonce1 are no part of the pair: once a share was checked on a job, the same pair with any other
      time, or after a subscription that changed the extranonce, is refused as a duplicate, though its header is
      the same exactly when both are. */
  lemma OtherHeaderRefused(H: HashFn, s: Session, id: nat, user: string, share: Share, ntime: string, en1: U32,
                           accepted: bool, S: set<Data>)
    requires id in s.jobs && JobOk(s.jobs[id]) && Ordinary(s.jobs[id].block) && CollisionFree(H, S)
    requires TriedShare(s.jobs[id].serial, s.extranonce, share) != [] && |FromHex(ntime)| == 4
    ensures
      var job, share' := s.jobs[id], share.(ntime := ntime);
      var s1 := Check(H, s, id, job, user, share, accepted).0.(extranonce := en1);
      && id in s1.jobs && JobOk(s1.jobs[id])
      && (exists o :: o in Check(H, s1, id, s1.jobs[id], user, share', accepted).1 && IsDuplicate(o))
      && var en2, nonce := FromHex(share.extranonce2), Reverse(FromHex(share.nonce));
         var time, time' := Reverse(FromHex(share.ntime)), Reverse(FromHex(ntime));
         && |en2| == 4 && |nonce| == 4 && |time| == 4 && |time'| == 4
         && var block := Candidate(H, job.block, s.extranonce, en2, time, nonce);
            var block' := Candidate(H, job.block, en1, en2, time', nonce);
            (|block.tx| >= 1 && BlockInputs(H, block.tx) <= S && |block'.tx| >= 1 && BlockInputs(H, block'.tx) <= S ==>
               (HeaderBytes(block) == HeaderBytes(block') <==> time == time' && s.extranonce == en1))
  {
    hide Candidate, HeaderBytes, FromHex, Pack, FromLE, Check, IsTemplateCoinbase, TxBytes, Cut, DiffToTarget,
         TargetFromBits, BlockInputs, CollisionFree, Ordinary;
    var job, share' := s.jobs[id], share.(ntime := ntime);
    var en2, nonce := FromHex(share.extranonce2), Reverse(FromHex(share.nonce));
    var time, time' := Reverse(FromHex(share.ntime)), Reverse(FromHex(ntime));
    CheckJobs(H, s, id, job, user, share, accepted);
    PackedOne(Try(job.serial, nonce, en2, time, s.extranonce));
    var s1 := Check(H, s, id, job, user, share, accepted).0.(extranonce := en1);
    CheckDuplicate(H, s1, id, s1.jobs[id], user, share', accepted);
    CandidatesApart(H, job.block, s.extranonce, en1, en2, time, time', nonce, S);
  }

  lemma CandidatesApart(H: HashFn, w: BlockData, en1: U32, en1': U32, en2: Data, time: Data, time': Data, nonce: Data,
                        S: set<Data>)
    requires Ordinary(w) && TemplateOk(w) && |w.tx[0].ins| == 1 && |w.tx[0].ins[0].script| == 12 && CollisionFree(H, S)
    requires |en2| == 4 && |time| == 4 && |time'| == 4 && |nonce| == 4
    ensures
      var block, block' := Candidate(H, w, en1, en2, time, nonce), Candidate(H, w, en1', en2, time', nonce);
      |block.tx| >= 1 && BlockInputs(H, block.tx) <= S && |block'.tx| >= 1 && BlockInputs(H, block'.tx) <= S ==>
        (HeaderBytes(block) == HeaderBytes(block') <==> time == time' && en1 == en1')
  {
    hide HeaderBytes, BlockInputs, CollisionFree, IsTemplateCoinbase, Ordinary, Proper, Candidate, SameWork;
    var block, block' := Candidate(H, w, en1, en2, time, nonce), Candidate(H, w, en1', en2, time', nonce);
    CandidateProper(H, w, en1, en2, time, nonce);
    CandidateProper(H, w, en1', en2, time', nonce);
    if |block.tx| >= 1 && BlockInputs(H, block.tx) <= S && |block'.tx| >= 1 && BlockInputs(H, block'.tx) <= S {
      HeaderCommits(H, block, block', S);
      if block == block' {
        CandidateInjective(H, w, en1, en2, time, nonce, w, en1', en2, time', nonce);
      }
    }
  }

  // ---------------------------------------------------------------- headers

  /** Every subscription of the run hands the client an extranonce of the set. */
  ghost predicate HandsOnly(inputs: seq<Input>, ens: set<U32>) {
    forall i :: i in inputs && i.event.Subscribe? ==> i.event.extranonce in ens
  }

  lemma StepExtranonce(H: HashFn, c: Config, s: Session, i: Input)
    requires Inv(c, s, i.now) && TemplateOk(i.work)
    ensures Step(H, c, s, i).0.extranonce == if i.event.Subscribe? then i.event.extranonce else s.extranonce
  {
    hide JobOk, TemplateOk, NotifyOf, GetJob, Limit, Check, ClockOk, ToHex, LE;
    var e := i.event;
    if e.Submit? && e.user in s.workers && e.jobid in s.jobs {
      var job := s.jobs[e.jobid];
      LimitNoCredit(H, c, s, job.diff, i.now, e.noise, i.work);
      CheckRest(H, Limit(H, c, s, job.diff, i.now, e.noise, i.work).0, e.jobid, job, e.user, e.share, e.accepted);
    }
  }

  /** The credit's block is a candidate of the work its serial names, with an extranonce of the set. */
  ghost predicate MadeFrom(H: HashFn, k: Credit, works: seq<BlockData>, ens: set<U32>) {
    && k.serial < |works| && |k.nonce| == 4 && |k.extranonce2| == 4
    && var w := works[k.serial];
    && TemplateOk(w) && |w.tx[0].ins| == 1 && |w.tx[0].ins[0].script| == 12
    && exists en1: U32, time: Data ::
         en1 in ens && |time| == 4 && k.block == Candidate(H, w, en1, k.extranonce2, time, k.nonce)
  }

  lemma EarnedMade(H: HashFn, s: Session, k: Credit, e: Event, works: seq<BlockData>, more: seq<BlockData>,
                   ts: seq<Try>, ens: set<U32>)
    requires Earned(H, s, k, e) && Logged(s, works, ts) && s.extranonce in ens
    ensures MadeFrom(H, k, works + more, ens)
  {
    hide IsTemplateCoinbase, TxBytes, Cut, DiffToTarget, TargetFromBits, Candidate, HeaderBytes, FromHex, Deserves,
         FromLE, Packed, Pack;
    var job := s.jobs[e.jobid];
    assert (works + more)[job.serial] == job.block;
    var time := Reverse(FromHex(e.share.ntime));
    assert k.block == Candidate(H, job.block, s.extranonce, k.extranonce2, time, k.nonce);
  }

  lemma {:induction false} CreditsMade(
      H: HashFn, c: Config, s: Session, clock: nat, inputs: seq<Input>, works: seq<BlockData>, ts: seq<Try>,
      ens: set<U32>)
    requires Inv(c, s, clock) && InputsOk(clock, inputs) && Logged(s, works, ts)
    requires s.extranonce in ens && HandsOnly(inputs, ens)
    ensures forall k :: k in Credits(Run(H, c, s, clock, inputs).1) ==>
              MadeFrom(H, k, works + RunWorks(H, c, s, clock, inputs), ens)
    decreases inputs
  {
    hide *;
    if inputs == [] {
      EmptyRun(H, c, s, clock);
      NoCredits([]);
    } else {
      var i := inputs[0];
      RunHead(H, c, s, clock, inputs);
      LogsHead(H, c, s, clock, inputs);
      StepLogged(H, c, s, i, works, ts);
      StepCredit(H, c, s, i);
      var (s1, out) := Step(H, c, s, i);
      var w, t := if s1.issued == s.issued then [] else [i.work], Tried(H, c, s, i);
      StepExtranonce(H, c, s, i);
      HandsRest(inputs, ens);
      CreditsMade(H, c, s1, i.now, inputs[1..], works + w, ts + t, ens);
      var w' := RunWorks(H, c, s1, i.now, inputs[1..]);
      assert (works + w) + w' == works + (w + w');
      if |Credits(out)| == 1 {
        EarnedMade(H, s, Credits(out)[0], i.event, works, w + w', ts, ens);
      }
      CreditsConcat(out, Run(H, c, s1, i.now, inputs[1..]).1);
    }
  }

  lemma HandsRest(inputs: seq<Input>, ens: set<U32>)
    requires inputs != [] && HandsOnly(inputs, ens)
    ensures HandsOnly(inputs[1..], ens) && (inputs[0].event.Subscribe? ==> inputs[0].event.extranonce in ens)
  {
  }

  /** Every string hashed for the credited blocks is in S. */
  ghost predicate Within(H: HashFn, ks: seq<Credit>, S: set<Data>) {
    forall n :: 0 <= n < |ks| ==> |ks[n].block.tx| >= 1 && BlockInputs(H, ks[n].block.tx) <= S
  }

  /** Credits with one header are for the same work and pair, and some extranonce made them both. */
  lemma SameHeaderSameWork(H: HashFn, a: Credit, b: Credit, works: seq<BlockData>, works': seq<BlockData>,
                           ens: set<U32>, ens': set<U32>, S: set<Data>)
    requires MadeFrom(H, a, works, ens) && MadeFrom(H, b, works', ens')
    requires Ordinary(works[a.serial]) && Ordinary(works'[b.serial])
    requires |a.block.tx| >= 1 && |b.block.tx| >= 1
    requires CollisionFree(H, S) && BlockInputs(H, a.block.tx) <= S && BlockInputs(H, b.block.tx) <= S
    requires HeaderBytes(a.block) == HeaderBytes(b.block)
    ensures SameWork(works[a.serial], works'[b.serial]) && a.nonce == b.nonce && a.extranonce2 == b.extranonce2
    ensures a.block == b.block && ens * ens' != {}
  {
    hide HeaderBytes, BlockInputs, CollisionFree, Candidate, IsTemplateCoinbase, Ordinary, Proper, SameWork;
    var w, w' := works[a.serial], works'[b.serial];
    var en1: U32, time: Data :|
      en1 in ens && |time| == 4 && a.block == Candidate(H, w, en1, a.extranonce2, time, a.nonce);
    var en1': U32, time': Data :|
      en1' in ens' && |time'| == 4 && b.block == Candidate(H, w', en1', b.extranonce2, time', b.nonce);
    CandidateProper(H, w, en1, a.extranonce2, time, a.nonce);
    CandidateProper(H, w', en1', b.extranonce2, time', b.nonce);
    HeaderCommits(H, a.block, b.block, S);
    CandidateInjective(H, w, en1, a.extranonce2, time, a.nonce, w', en1', b.extranonce2, time', b.nonce);
    assert en1 in ens * ens';
  }

  /** The two credits are for the same work, with the same coinbase, time and nonce. */
  ghost predicate SameClaim(a: Credit, b: Credit, works: seq<BlockData>, works': seq<BlockData>) {
    && a.serial < |works| && b.serial < |works'| && SameWork(works[a.serial], works'[b.serial])
    && |a.block.tx| >= 1 && |b.block.tx| >= 1 && a.block.tx[0] == b.block.tx[0]
    && a.block.time == b.block.time && a.nonce == b.nonce
  }

  lemma SameClaimSameHeader(H: HashFn, a: Credit, b: Credit, works: seq<BlockData>, works': seq<BlockData>,
                            ens: set<U32>, ens': set<U32>)
    requires MadeFrom(H, a, works, ens) && MadeFrom(H, b, works', ens') && SameClaim(a, b, works, works')
    ensures HeaderBytes(a.block) == HeaderBytes(b.block)
  {
    hide HeaderBytes, IsTemplateCoinbase, TxRoot, LE, FromLE, WithExtranonce;
    var w, w' := works[a.serial], works'[b.serial];
    assert |a.block.tx| == |w.tx| && |b.block.tx| == |w'.tx|;
    forall i | 0 <= i < |w.tx|
      ensures a.block.tx[i] == b.block.tx[i]
    {
      if i > 0 {
        assert a.block.tx[i] == w.tx[i] && b.block.tx[i] == w'.tx[i];
      }
    }
    assert a.block.tx == b.block.tx;
    assert a.block.merkleRootHash == TxRoot(H, a.block.tx) && b.block.merkleRootHash == TxRoot(H, b.block.tx);
  }

  /** Two credits have the same header exactly when they make the same claim, and then they are for two jobs. */
  ghost predicate SharedHeadersExact(works: seq<BlockData>, ks: seq<Credit>) {
    forall a, b :: 0 <= a < b < |ks| ==>
      && (HeaderBytes(ks[a].block) == HeaderBytes(ks[b].block) <==> SameClaim(ks[a], ks[b], works, works))
      && (SameClaim(ks[a], ks[b], works, works) ==> ks[a].serial != ks[b].serial)
  }

  /** No two jobs of the log had the same work. */
  ghost predicate AllWorkDiffers(works: seq<BlockData>) {
    forall m, n :: 0 <= m < |works| && 0 <= n < |works| && m != n ==> !SameWork(works[m], works[n])
  }

  ghost predicate HeadersDiffer(ks: seq<Credit>) {
    forall a, b :: 0 <= a < b < |ks| ==> HeaderBytes(ks[a].block) != HeaderBytes(ks[b].block)
  }

  lemma LedgerHeaders(H: HashFn, works: seq<BlockData>, ks: seq<Credit>, ens: set<U32>, S: set<Data>)
    requires LedgerOk(H, ks) && forall k :: k in ks ==> MadeFrom(H, k, works, ens)
    requires (forall w :: w in works ==> Ordinary(w)) && CollisionFree(H, S) && Within(H, ks, S)
    ensures SharedHeadersExact(works, ks) && (AllWorkDiffers(works) ==> HeadersDiffer(ks))
  {
    hide HeaderBytes, BlockInputs, CollisionFree, Ordinary, SameWork, MadeFrom, Sound;
    forall a, b | 0 <= a < b < |ks|
      ensures HeaderBytes(ks[a].block) == HeaderBytes(ks[b].block) <==> SameClaim(ks[a], ks[b], works, works)
      ensures SameClaim(ks[a], ks[b], works, works) ==> ks[a].serial != ks[b].serial
    {
      MadeSerial(H, ks[a], works, ens);
      MadeSerial(H, ks[b], works, ens);
      assert !SameShare(ks[a], ks[b]);
      if SameClaim(ks[a], ks[b], works, works) {
        SameClaimSameHeader(H, ks[a], ks[b], works, works, ens, ens);
      }
      if HeaderBytes(ks[a].block) == HeaderBytes(ks[b].block) {
        SameHeaderSameWork(H, ks[a], ks[b], works, works, ens, ens, S);
      }
    }
  }

  lemma MadeSerial(H: HashFn, k: Credit, works: seq<BlockData>, ens: set<U32>)
    requires MadeFrom(H, k, works, ens)
    ensures k.serial < |works|
  {
  }

  /** When a header is credited twice: with ordinary templates and no two strings hashed for the credited blocks
      colliding, exactly when two jobs had the same work and were sent the same coinbase, time and nonce. So
      never on a connection whose jobs all had different work. */
  lemma HeaderOnce(H: HashFn, c: Config, extranonce: U32, lastShares: nat, now: nat, inputs: seq<Input>, S: set<Data>)
    requires ConfigOk(c) && now < 0x1_0000_0000 && InputsOk(now, inputs)
    requires Inv(c, Connected(c, extranonce, lastShares, now), now)
    requires
      var s := Connected(c, extranonce, lastShares, now);
      && (forall w :: w in RunWorks(H, c, s, now, inputs) ==> Ordinary(w))
      && CollisionFree(H, S) && Within(H, Credits(Run(H, c, s, now, inputs).1), S)
    ensures
      var s := Connected(c, extranonce, lastShares, now);
      var works, ks := RunWorks(H, c, s, now, inputs), Credits(Run(H, c, s, now, inputs).1);
      SharedHeadersExact(works, ks) && (AllWorkDiffers(works) ==> HeadersDiffer(ks))
  {
    hide *;
    var s := Connected(c, extranonce, lastShares, now);
    SessionLedger(H, c, extranonce, lastShares, now, inputs);
    NothingLogged(c, extranonce, lastShares, now);
    var ens := Extranonces(extranonce, inputs);
    StartsWith(c, extranonce, lastShares, now);
    CreditsMade(H, c, s, now, inputs, [], [], ens);
    var works := RunWorks(H, c, s, now, inputs);
    assert [] + works == works;
    LedgerHeaders(H, works, Credits(Run(H, c, s, now, inputs).1), ens, S);
  }

  /** Every extranonce a client holds over a run. */
  ghost function Extranonces(initial: U32, inputs: seq<Input>): (ens: set<U32>)
    ensures initial in ens && HandsOnly(inputs, ens)
  {
    {initial} + set i | i in inputs && i.event.Subscribe? :: i.event.extranonce
  }

  lemma StartsWith(c: Config, extranonce: U32, lastShares: nat, now: nat)
    ensures Connected(c, extranonce, lastShares, now).extranonce == extranonce
  {
  }

  lemma NothingLogged(c: Config, extranonce: U32, lastShares: nat, now: nat)
    ensures Logged(Connected(c, extranonce, lastShares, now), [], [])
  {
  }
}
