/** What a miner can know: the session as it appears from the messages that went out, and the logins that came in. */
module Messages {
  import opened Bytes
  import opened Codec
  import opened Merkle
  import opened Blocks
  import opened Targets
  import opened Work
  import opened Limiting
  import opened Stratum
  import opened Runs
  import opened Duplicates
  import opened Accounting

  datatype Option<T> = None | Some(value: T)

  /** A notification and the difficulty last announced before it, if one was. */
  datatype Notice = Notice(notify: Notify, told: Option<nat>)

  /** A miner's bookkeeping: the extranonce and the difficulty last announced, and the jobs it may work on. */
  datatype View = View(extranonce: Option<string>, told: Option<nat>, notices: map<nat, Notice>)

  const BLANK: View := View(None, None, map[])

  /** How a Stratum miner takes a message: a clean notification voids all jobs before it. */
  function See(v: View, o: Output): View {
    match o
    case Subscribed(text) => v.(extranonce := Some(text))
    case DifficultySet(d) => v.(told := Some(d))
    case Notified(n) =>
      var kept := if n.clean then map[] else v.notices;
      v.(notices := kept[n.jobid := Notice(n, v.told)])
    case _ => v
  }

  function Watch(v: View, outs: seq<Output>): View {
    if outs == [] then v else See(Watch(v, outs[..|outs| - 1]), outs[|outs| - 1])
  }

  lemma {:induction false} WatchConcat(v: View, a: seq<Output>, b: seq<Output>)
    ensures Watch(v, a + b) == Watch(Watch(v, a), b)
  {
    if b == [] {
      assert a + b == a;
    } else {
      WatchConcat(v, a, b[..|b| - 1]);
      assert (a + b)[..|a + b| - 1] == a + b[..|b| - 1];
    }
  }

  lemma WatchOne(v: View, o: Output)
    ensures Watch(v, [o]) == See(v, o) && Watch(v, []) == v
  {
    assert [o][..0] == [];
  }

  lemma {:induction false} WatchNothing(v: View, outs: seq<Output>)
    requires forall o :: o in outs ==> !o.Subscribed? && !o.DifficultySet? && !o.Notified?
    ensures Watch(v, outs) == v
  {
    if outs != [] {
      WatchNothing(v, outs[..|outs| - 1]);
    }
  }

  // ---------------------------------------------------------------- the mirror

  /** The difficulty in force: the one announced, or the one connections start with. */
  function InForce(told: Option<nat>, start: nat): nat {
    if told.Some? then told.value else start
  }

  /** The notice is the one for this job, and the job has the difficulty in force when it was sent. */
  ghost predicate NoticeOf(H: HashFn, start: nat, id: nat, job: Job, m: Notice) {
    && JobOk(job) && id < IDS && m.notify == NotifyOf(H, id, job.block, m.notify.clean)
    && job.diff == InForce(m.told, start)
  }

  /** The session is what the miner thinks it is. */
  ghost predicate Mirror(H: HashFn, start: nat, s: Session, v: View) {
    && (v.extranonce.Some? ==> v.extranonce.value == ToHex(LE(s.extranonce, 4)))
    && s.diff == InForce(v.told, start) && v.notices.Keys == s.jobs.Keys
    && forall id :: id in s.jobs ==> NoticeOf(H, start, id, s.jobs[id], v.notices[id])
  }

  lemma SendMirror(H: HashFn, start: nat, s: Session, v: View, work: BlockData, clean: bool)
    requires TemplateOk(work) && s.diff > 0 && Mirror(H, start, s, v)
    ensures Mirror(H, start, SendJob(H, s, work, clean).0, Watch(v, SendJob(H, s, work, clean).1))
  {
    hide JobOk, IsTemplateCoinbase, NotifyOf, ToHex, LE, Watch;
    TemplateShape(work);
    WatchOne(v, Notified(NotifyOf(H, s.issued % IDS, work, clean)));
    NotifyShape(H, s.issued % IDS, work, clean);
  }

  lemma NotifyShape(H: HashFn, id: U32, work: BlockData, clean: bool)
    requires |work.tx| >= 1 && |TxBytes(work.tx[0])| >= 54
    ensures NotifyOf(H, id, work, clean).jobid == id && NotifyOf(H, id, work, clean).clean == clean
  {
  }

  lemma SetDifficultyMirror(H: HashFn, start: nat, s: Session, v: View, diff: nat, resend: bool, work: BlockData)
    requires TemplateOk(work) && diff > 0 && Mirror(H, start, s, v)
    ensures
      var (s', out) := SetDifficulty(H, s, diff, resend, work);
      Mirror(H, start, s', Watch(v, out))
  {
    hide JobOk, TemplateOk, NotifyOf, ToHex, LE, Watch, SendJob, NoticeOf;
    var d := if diff < s.minDiff then s.minDiff else diff;
    WatchOne(v, DifficultySet(d));
    var s1, v1 := s.(diff := d), See(v, DifficultySet(d));
    assert Mirror(H, start, s1, v1);
    SendMirror(H, start, s1, v1, work, false);
    WatchConcat(v, [DifficultySet(d)], SendJob(H, s1, work, false).1);
  }

  lemma SameMirror(H: HashFn, start: nat, s: Session, s': Session, v: View)
    requires Mirror(H, start, s, v) && s'.extranonce == s.extranonce && s'.diff == s.diff && s'.jobs == s.jobs
    ensures Mirror(H, start, s', v)
  {
  }

  lemma LimitMirror(H: HashFn, start: nat, c: Config, s: Session, v: View, diff: nat, now: nat, noise: Noise,
                    work: BlockData)
    requires Inv(c, s, now) && TemplateOk(work) && Mirror(H, start, s, v)
    ensures
      var (s', _, out) := Limit(H, c, s, diff, now, noise, work);
      Mirror(H, start, s', Watch(v, out))
  {
    hide JobOk, JobsOk, TemplateOk, SendJob, SetDifficulty, Decide, Mirror, Watch, ClockOk;
    var (l, verdict) := Decide(c, s.limiter, diff, now, s.diff, noise);
    var s1 := s.(limiter := l);
    SameMirror(H, start, s, s1, v);
    WatchNothing(v, []);
    match verdict
    case Pass =>
    case Ban => WatchNothing(v, [Banned(600)]);
    case Retarget(d) => SetDifficultyMirror(H, start, s1, v, d, true, work);
    case Reset(d) =>
      SameJobs(s, s1);
      SetDifficultyMirror(H, start, s1, v, d, false, work);
      SetDifficultyKeeps(H, s1, d, false, work);
      var (s2, out) := SetDifficulty(H, s1, d, false, work);
      SendMirror(H, start, s2, Watch(v, out), work, true);
      WatchConcat(v, out, SendJob(H, s2, work, true).1);
  }

  /** Share sets do not show. */
  lemma CheckMirror(H: HashFn, start: nat, s: Session, v: View, id: U32, job: Job, user: string, share: Share,
                    accepted: bool)
    requires JobOk(job) && Mirror(H, start, s, v)
    requires id in s.jobs && s.jobs[id].serial == job.serial ==> s.jobs[id] == job
    ensures
      var (s', out) := Check(H, s, id, job, user, share, accepted);
      Mirror(H, start, s', Watch(v, out))
  {
    hide TemplateOk, TxBytes, Cut, DiffToTarget, TargetFromBits, NotifyOf, Check, Watch, ToHex, LE, Packed, TriedShare;
    var (s', out) := Check(H, s, id, job, user, share, accepted);
    CheckJobs(H, s, id, job, user, share, accepted);
    CheckRest(H, s, id, job, user, share, accepted);
    CheckSameDifficulty(H, s, id, job, user, share, accepted);
    CheckQuietOutputs(H, s, id, job, user, share, accepted);
    WatchNothing(v, out);
    forall x | x in s'.jobs
      ensures NoticeOf(H, start, x, s'.jobs[x], v.notices[x])
    {
      assert NoticeOf(H, start, x, s.jobs[x], v.notices[x]);
    }
  }

  lemma CheckQuietOutputs(H: HashFn, s: Session, id: U32, job: Job, user: string, share: Share, accepted: bool)
    requires JobOk(job)
    ensures forall o :: o in Check(H, s, id, job, user, share, accepted).1 ==>
              !o.Subscribed? && !o.DifficultySet? && !o.Notified?
  {
    hide JobOk, Check, FromHex, Reverse, Pack, MinerHash, ShareCandidate, DiffToTarget, TargetFromBits;
    CheckAnswers(H, s, id, job, user, share, accepted);
  }

  lemma StepMirror(H: HashFn, start: nat, c: Config, s: Session, v: View, i: Input)
    requires Inv(c, s, i.now) && TemplateOk(i.work) && Mirror(H, start, s, v)
    ensures Mirror(H, start, Step(H, c, s, i).0, Watch(v, Step(H, c, s, i).1))
  {
    hide JobOk, TemplateOk, SendJob, SetDifficulty, OnSubmit, ClockOk, ToHex, LE, Watch, Mirror, JobsOk;
    match i.event
    case Subscribe(en) => SubscribeMirror(H, start, s, v, en, i.work);
    case SendWork(clean) => SendMirror(H, start, s, v, i.work, clean);
    case Authorize(user, found, min) =>
      var s1 := s.(workers := s.workers + {user}, minDiff := min);
      SameMirror(H, start, s, s1, v);
      WatchNothing(v, [Error(20, "Authentication failed")]);
      WatchNothing(v, [Reply]);
      if s1.diff < s1.minDiff {
        var (s2, out) := SetDifficulty(H, s1, s1.minDiff, false, i.work);
        SetDifficultyMirror(H, start, s1, v, s1.minDiff, false, i.work);
        WatchConcat(v, out, [Reply]);
        WatchNothing(Watch(v, out), [Reply]);
      }
    case Submit(_, _, _, _, _) => SubmitMirror(H, start, c, s, v, i.event, i.now, i.work);
  }

  lemma SubscribeMirror(H: HashFn, start: nat, s: Session, v: View, en: U32, work: BlockData)
    requires TemplateOk(work) && s.diff > 0 && Mirror(H, start, s, v)
    ensures Mirror(H, start, OnSubscribe(H, s, en, work).0, Watch(v, OnSubscribe(H, s, en, work).1))
  {
    hide JobOk, TemplateOk, SendJob, ToHex, LE, Watch, NoticeOf;
    var s1, text := s.(extranonce := en), ToHex(LE(en, 4));
    WatchOne(v, Subscribed(text));
    assert Mirror(H, start, s1, See(v, Subscribed(text)));
    SendMirror(H, start, s1, See(v, Subscribed(text)), work, false);
    WatchConcat(v, [Subscribed(text)], SendJob(H, s1, work, false).1);
  }

  lemma SubmitMirror(H: HashFn, start: nat, c: Config, s: Session, v: View, e: Event, now: nat, work: BlockData)
    requires Inv(c, s, now) && TemplateOk(work) && Mirror(H, start, s, v) && e.Submit?
    ensures
      var (s', out) := OnSubmit(H, c, s, e, now, work);
      Mirror(H, start, s', Watch(v, out))
  {
    hide JobOk, TemplateOk, Limit, Check, ClockOk, Mirror, Watch;
    SameMirror(H, start, s, LogBad(s), v);
    WatchNothing(v, [Error(24, "Unauthorized worker")]);
    WatchNothing(v, [Rejected(e.user, "Job not found", 1), Error(21, "Job not found")]);
    if e.user in s.workers && e.jobid in s.jobs {
      var job := s.jobs[e.jobid];
      var (s1, ok, out) := Limit(H, c, s, job.diff, now, e.noise, work);
      LimitMirror(H, start, c, s, v, job.diff, now, e.noise, work);
      var v1 := Watch(v, out);
      if ok {
        LimitKeepsEntry(H, c, s, job.diff, now, e.noise, work, e.jobid);
        CheckMirror(H, start, s1, v1, e.jobid, job, e.user, e.share, e.accepted);
        WatchConcat(v, out, Check(H, s1, e.jobid, job, e.user, e.share, e.accepted).1);
      } else {
        WatchNothing(v1, [Error(20, "Blocked by share limiter")]);
        WatchConcat(v, out, [Error(20, "Blocked by share limiter")]);
      }
    }
  }

  lemma {:induction false} RunMirror(
      H: HashFn, start: nat, c: Config, s: Session, v: View, clock: nat, inputs: seq<Input>)
    requires Inv(c, s, clock) && InputsOk(clock, inputs) && Mirror(H, start, s, v)
    ensures
      var (r, out) := Run(H, c, s, clock, inputs);
      Mirror(H, start, r, Watch(v, out))
    decreases inputs
  {
    hide *;
    if inputs == [] {
      EmptyRun(H, c, s, clock);
      WatchNothing(v, []);
    } else {
      RunHead(H, c, s, clock, inputs);
      StepMirror(H, start, c, s, v, inputs[0]);
      var (s1, out) := Step(H, c, s, inputs[0]);
      RunMirror(H, start, c, s1, Watch(v, out), inputs[0].now, inputs[1..]);
      WatchConcat(v, out, Run(H, c, s1, inputs[0].now, inputs[1..]).1);
    }
  }

  /** A miner that only reads its messages mirrors the session at any point: the jobs it may work on are exactly those
      in the map, under their ids, each notification is that of the job's template, and each job has the
      difficulty last announced before its notification, or the starting difficulty, which is never announced. */
  lemma MinerMirrors(H: HashFn, c: Config, extranonce: U32, lastShares: nat, now: nat, inputs: seq<Input>)
    requires ConfigOk(c) && now < 0x1_0000_0000 && InputsOk(now, inputs)
    ensures Inv(c, Connected(c, extranonce, lastShares, now), now)
    ensures
      var (r, out) := Run(H, c, Connected(c, extranonce, lastShares, now), now, inputs);
      Mirror(H, c.startingDiff, r, Watch(BLANK, out))
  {
    hide *;
    ConnectedInv(c, extranonce, lastShares, now);
    var s := Connected(c, extranonce, lastShares, now);
    BlankMirror(H, c, extranonce, lastShares, now);
    RunMirror(H, c.startingDiff, c, s, BLANK, now, inputs);
  }

  lemma BlankMirror(H: HashFn, c: Config, extranonce: U32, lastShares: nat, now: nat)
    ensures Mirror(H, c.startingDiff, Connected(c, extranonce, lastShares, now), BLANK)
  {
  }

  // ---------------------------------------------------------------- one notification

  /** Every notification among the outputs announces the job just issued, under the id and with the difficulty it has
      in the map, and says truly whether the older jobs were dropped; there is one exactly if a job was issued. */
  ghost predicate NoticesOk(s: Session, s': Session, work: BlockData, outs: seq<Output>, clean: bool) {
    && (forall n :: Notified(n) in outs ==>
          && n.clean == clean && n.jobid == s.issued % IDS && n.jobid in s'.jobs
          && var job := s'.jobs[n.jobid];
          && job.serial == s.issued && job.block == work && job.diff == s'.diff
          && s'.jobs.Keys == (if clean then {} else s.jobs.Keys) + {n.jobid})
    && ((exists n :: Notified(n) in outs) <==> s'.issued == s.issued + 1)
  }

  lemma SendNotices(H: HashFn, s: Session, work: BlockData, clean: bool)
    requires TemplateOk(work) && s.diff > 0
    ensures NoticesOk(s, SendJob(H, s, work, clean).0, work, SendJob(H, s, work, clean).1, clean)
    ensures |SendJob(H, s, work, clean).1| == 1
  {
    hide JobOk, IsTemplateCoinbase, NotifyOf;
    TemplateShape(work);
    NotifyShape(H, s.issued % IDS, work, clean);
    var out := SendJob(H, s, work, clean).1;
    assert out[0] == Notified(NotifyOf(H, s.issued % IDS, work, clean));
  }

  /** Outputs without notifications around, and a start that has the same jobs, make no difference. */
  lemma NoticesWithin(s0: Session, s: Session, s': Session, work: BlockData, a: seq<Output>, out: seq<Output>,
                      b: seq<Output>, clean: bool)
    requires NoticesOk(s, s', work, out, clean) && s0.jobs == s.jobs && s0.issued == s.issued
    requires (forall o :: o in a ==> !o.Notified?) && (forall o :: o in b ==> !o.Notified?)
    ensures NoticesOk(s0, s', work, a + out + b, clean)
  {
    forall n
      ensures Notified(n) in a + out + b <==> Notified(n) in out
    {
    }
  }

  lemma NoNotices(s: Session, s': Session, work: BlockData, out: seq<Output>, clean: bool)
    requires s'.issued == s.issued && forall o :: o in out ==> !o.Notified?
    ensures NoticesOk(s, s', work, out, clean)
  {
  }

  lemma SetDifficultyNotices(H: HashFn, s: Session, diff: nat, resend: bool, work: BlockData)
    requires TemplateOk(work) && diff > 0
    ensures
      var (s', out) := SetDifficulty(H, s, diff, resend, work);
      && NoticesOk(s, s', work, out, false)
      && (!resend ==> s'.jobs == s.jobs && s'.issued == s.issued && forall o :: o in out ==> !o.Notified?)
  {
    hide TemplateOk, SendJob, NoticesOk;
    var d := if diff < s.minDiff then s.minDiff else diff;
    if d == s.diff || !resend {
      var (s', out) := SetDifficulty(H, s, diff, resend, work);
      NoNotices(s, s', work, out, false);
    } else {
      var s1 := s.(diff := d);
      var (s2, out) := SendJob(H, s1, work, false);
      SendNotices(H, s1, work, false);
      NoticesWithin(s, s1, s2, work, [DifficultySet(d)], out, [], false);
      assert [DifficultySet(d)] + out + [] == [DifficultySet(d)] + out;
    }
  }

  lemma LimitNotices(H: HashFn, c: Config, s: Session, diff: nat, now: nat, noise: Noise, work: BlockData)
    requires Inv(c, s, now) && TemplateOk(work)
    ensures
      var (s', _, out) := Limit(H, c, s, diff, now, noise, work);
      NoticesOk(s, s', work, out, Decide(c, s.limiter, diff, now, s.diff, noise).1.Reset?)
  {
    hide JobOk, JobsOk, TemplateOk, SendJob, SetDifficulty, Decide, NoticesOk, ClockOk;
    var (l, verdict) := Decide(c, s.limiter, diff, now, s.diff, noise);
    var s1 := s.(limiter := l);
    match verdict
    case Pass => NoNotices(s, s1, work, [], false);
    case Ban => NoNotices(s, s1, work, [Banned(600)], false);
    case Retarget(d) =>
      var (s2, out) := SetDifficulty(H, s1, d, true, work);
      SetDifficultyNotices(H, s1, d, true, work);
      NoticesWithin(s, s1, s2, work, [], out, [], false);
      assert [] + out + [] == out;
    case Reset(d) =>
      var (s2, out) := SetDifficulty(H, s1, d, false, work);
      SetDifficultyNotices(H, s1, d, false, work);
      SameJobs(s, s1);
      SetDifficultyKeeps(H, s1, d, false, work);
      var (s3, more) := SendJob(H, s2, work, true);
      SendNotices(H, s2, work, true);
      NoticesWithin(s, s2, s3, work, out, more, [], true);
      assert out + more + [] == out + more;
  }

  /** Whether a step's notification is clean: as the server says, or when the limiter resets. */
  ghost predicate Cleans(c: Config, s: Session, i: Input)
    requires Inv(c, s, i.now)
  {
    var e := i.event;
    || (e.SendWork? && e.clean)
    || (Found(s, e) && Decide(c, s.limiter, s.jobs[e.jobid].diff, i.now, s.diff, e.noise).1.Reset?)
  }

  /** What goes out is what is kept, step by step. */
  lemma StepNotices(H: HashFn, c: Config, s: Session, i: Input)
    requires Inv(c, s, i.now) && TemplateOk(i.work)
    ensures NoticesOk(s, Step(H, c, s, i).0, i.work, Step(H, c, s, i).1, Cleans(c, s, i))
  {
    hide JobOk, TemplateOk, SendJob, SetDifficulty, Limit, Check, ClockOk, ToHex, LE, NoticesOk, JobsOk, Decide;
    var e, out := i.event, Step(H, c, s, i).1;
    match e
    case Subscribe(en) =>
      var s1 := s.(extranonce := en);
      var (s2, more) := SendJob(H, s1, i.work, false);
      SendNotices(H, s1, i.work, false);
      NoticesWithin(s, s1, s2, i.work, [Subscribed(ToHex(LE(en, 4)))], more, [], false);
      assert [Subscribed(ToHex(LE(en, 4)))] + more + [] == out;
    case SendWork(clean) => SendNotices(H, s, i.work, clean);
    case Authorize(user, found, min) =>
      var s1 := s.(workers := s.workers + {user}, minDiff := min);
      if found && s1.diff < s1.minDiff {
        SetDifficultyNotices(H, s1, s1.minDiff, false, i.work);
      }
      NoNotices(s, Step(H, c, s, i).0, i.work, out, false);
    case Submit(_, _, _, _, _) =>
      if Found(s, e) {
        FoundNotices(H, c, s, i);
      } else {
        NoNotices(s, Step(H, c, s, i).0, i.work, out, false);
      }
  }

  lemma FoundNotices(H: HashFn, c: Config, s: Session, i: Input)
    requires Inv(c, s, i.now) && TemplateOk(i.work) && Found(s, i.event)
    ensures
      var (s', out) := OnSubmit(H, c, s, i.event, i.now, i.work);
      NoticesOk(s, s', i.work, out, Cleans(c, s, i))
  {
    hide JobOk, TemplateOk, Limit, Check, ClockOk, NoticesOk, Decide, Packed, TriedShare;
    var e, job := i.event, s.jobs[i.event.jobid];
    var (s1, ok, out) := Limit(H, c, s, job.diff, i.now, e.noise, i.work);
    LimitNotices(H, c, s, job.diff, i.now, e.noise, i.work);
    if ok {
      var (s2, more) := Check(H, s1, e.jobid, job, e.user, e.share, e.accepted);
      LimitKeepsEntry(H, c, s, job.diff, i.now, e.noise, i.work, e.jobid);
      CheckJobs(H, s1, e.jobid, job, e.user, e.share, e.accepted);
      CheckSameDifficulty(H, s1, e.jobid, job, e.user, e.share, e.accepted);
      CheckQuietOutputs(H, s1, e.jobid, job, e.user, e.share, e.accepted);
      NoticesAfterCheck(s, s1, s2, i.work, out, Cleans(c, s, i), job.serial);
      NoticesWithin(s, s, s2, i.work, [], out, more, Cleans(c, s, i));
      assert [] + out + more == out + more;
    } else {
      var blocked := [Error(20, "Blocked by share limiter")];
      NoticesWithin(s, s, s1, i.work, [], out, blocked, Cleans(c, s, i));
      assert [] + out + blocked == out + blocked;
    }
  }

  lemma NoticesAfterCheck(s: Session, s1: Session, s2: Session, work: BlockData, out: seq<Output>, clean: bool,
                          serial: nat)
    requires NoticesOk(s, s1, work, out, clean) && s2.issued == s1.issued && s2.diff == s1.diff && serial < s.issued
    requires s2.jobs.Keys == s1.jobs.Keys
    requires forall id :: id in s1.jobs && s1.jobs[id].serial != serial ==> s2.jobs[id] == s1.jobs[id]
    ensures NoticesOk(s, s2, work, out, clean)
  {
  }

  // ---------------------------------------------------------------- shares, from the messages alone

  /** What the notification says of the template's time and target. */
  ghost function NoticeTime(n: Notify): nat {
    FromLE(Reverse(FromHex(n.ntime)))
  }

  ghost function NoticeTarget(n: Notify): nat {
    var bits := FromLE(Reverse(FromHex(n.bits)));
    if 0x0300_0000 <= bits < 0x1_0000_0000 then TargetFromBits(bits) else 0
  }

  lemma NoticeFields(H: HashFn, id: U32, b: BlockData, clean: bool)
    requires TemplateOk(b) && |TxBytes(b.tx[0])| >= 54
    ensures NoticeTime(NotifyOf(H, id, b, clean)) == b.time
    ensures NoticeTarget(NotifyOf(H, id, b, clean)) == TargetFromBits(b.bits)
  {
    hide TxBytes, Cut, Branch, Flat, LE, FromLE, FromHex, ToHex, Reverse, PrevHashField, IsTemplateCoinbase,
         TargetFromBits;
    ReversedField(b.time);
    ReversedField(b.bits);
    FromLEOfLE(b.time, 4);
    FromLEOfLE(b.bits, 4);
    Pow256Values();
  }

  /** The flag plays no part in the header. */
  lemma CleanDoesNotMatter(H: HashFn, id: U32, b: BlockData, clean: bool, en1: string, en2: string, ntime: string,
                           nonce: string)
    requires |b.tx| >= 1 && |TxBytes(b.tx[0])| >= 54
    ensures MinerHeader(H, NotifyOf(H, id, b, clean), en1, en2, ntime, nonce)
            == MinerHeader(H, NotifyOf(H, id, b, false), en1, en2, ntime, nonce)
  {
    hide TxBytes, Cut, Branch, Flat, LE, FromHex, ToHex, Reverse, PrevHashField, WordSwap, Fold;
  }

  /** The hash of the header a miner assembles from its messages and its own texts. */
  ghost function ViewHash(H: HashFn, v: View, id: nat, share: Share): nat
    requires v.extranonce.Some? && id in v.notices
  {
    FromLE(H(MinerHeader(H, v.notices[id].notify, v.extranonce.value, share.extranonce2, share.ntime, share.nonce)))
  }

  lemma ViewIsExact(H: HashFn, start: nat, c: Config, s: Session, v: View, now: nat, id: nat, share: Share)
    requires Inv(c, s, now) && Mirror(H, start, s, v) && v.extranonce.Some? && id in s.jobs
    ensures JobOk(s.jobs[id]) && id < IDS && id in v.notices
    ensures ViewHash(H, v, id, share) == MinerHash(H, s.extranonce, id, s.jobs[id], share)
    ensures NoticeTarget(v.notices[id].notify) == TargetFromBits(s.jobs[id].block.bits)
    ensures InForce(v.notices[id].told, start) == s.jobs[id].diff
    ensures NoticeTime(v.notices[id].notify) == s.jobs[id].block.time
  {
    hide IsTemplateCoinbase, TxBytes, Cut, LE, FromLE, ToHex, NotifyOf, MinerHeader, DiffToTarget, TargetFromBits,
         NoticeTarget, NoticeTime, ClockOk;
    var job, m := s.jobs[id], v.notices[id];
    assert NoticeOf(H, start, id, job, m);
    NoticeFields(H, id, job.block, m.notify.clean);
    CleanDoesNotMatter(H, id, job.block, m.notify.clean, v.extranonce.value, share.extranonce2, share.ntime,
                       share.nonce);
  }

  /** The share meets a target of the messages. */
  ghost predicate ViewCredits(H: HashFn, start: nat, v: View, id: nat, share: Share, accepted: bool)
    requires v.extranonce.Some? && id in v.notices && InForce(v.notices[id].told, start) > 0
  {
    var hash, m := ViewHash(H, v, id, share), v.notices[id];
    hash <= DiffToTarget(InForce(m.told, start)) && (hash > NoticeTarget(m.notify) || accepted)
  }

  ghost predicate ViewSolves(H: HashFn, start: nat, v: View, id: nat, share: Share)
    requires v.extranonce.Some? && id in v.notices && InForce(v.notices[id].told, start) > 0
  {
    var hash, m := ViewHash(H, v, id, share), v.notices[id];
    hash <= DiffToTarget(InForce(m.told, start)) && hash <= NoticeTarget(m.notify)
  }

  /** The work sent is the work checked, in terms of messages alone: at any point of any session of a subscribed
      client, a submission by a worker is answered "Job not found" exactly if the messages name no such job; let
      through by the limiter, well sized and not refused as a duplicate, it is credited, and its block submitted,
      exactly as the header assembled from the messages and the difficulty announced in them demand. */
  lemma MessagesDecide(H: HashFn, c: Config, extranonce: U32, lastShares: nat, now: nat, inputs: seq<Input>, i: Input)
    requires ConfigOk(c) && now < 0x1_0000_0000 && InputsOk(now, inputs) && TemplateOk(i.work) && i.event.Submit?
    requires EndClock(now, inputs) <= i.now < 0x1_0000_0000
    ensures Inv(c, Connected(c, extranonce, lastShares, now), now)
    ensures
      var (r, out) := Run(H, c, Connected(c, extranonce, lastShares, now), now, inputs);
      && Inv(c, r, i.now)
      && var v, e, answer := Watch(BLANK, out), i.event, Step(H, c, r, i).1;
         && (e.user in r.workers && e.jobid !in v.notices ==>
               answer == [Rejected(e.user, "Job not found", 1), Error(21, "Job not found")])
         && (Admitted(H, c, r, i) ==> e.jobid in v.notices && InForce(v.notices[e.jobid].told, c.startingDiff) > 0)
         && (Admitted(H, c, r, i) && v.extranonce.Some? && SizesOk(e.share)
             && (forall o :: o in answer ==> !IsDuplicate(o)) ==>
               && (|Credits(answer)| == 1 <==> ViewCredits(H, c.startingDiff, v, e.jobid, e.share, e.accepted))
               && (|Submits(answer)| == 1 <==> ViewSolves(H, c.startingDiff, v, e.jobid, e.share)))
  {
    hide *;
    MinerMirrors(H, c, extranonce, lastShares, now, inputs);
    var s := Connected(c, extranonce, lastShares, now);
    RunKeepsInv(H, c, s, now, inputs);
    var (r, out) := Run(H, c, s, now, inputs);
    InvLater(c, r, EndClock(now, inputs), i.now);
    SubmissionFromView(H, c.startingDiff, c, r, Watch(BLANK, out), i);
  }

  lemma SubmissionFromView(H: HashFn, start: nat, c: Config, s: Session, v: View, i: Input)
    requires Inv(c, s, i.now) && TemplateOk(i.work) && i.event.Submit? && Mirror(H, start, s, v)
    ensures
      var e, answer := i.event, Step(H, c, s, i).1;
      && (e.user in s.workers && e.jobid !in v.notices ==>
            answer == [Rejected(e.user, "Job not found", 1), Error(21, "Job not found")])
      && (Admitted(H, c, s, i) ==> e.jobid in v.notices && InForce(v.notices[e.jobid].told, start) > 0)
      && (Admitted(H, c, s, i) && v.extranonce.Some? && SizesOk(e.share)
          && (forall o :: o in answer ==> !IsDuplicate(o)) ==>
            && (|Credits(answer)| == 1 <==> ViewCredits(H, start, v, e.jobid, e.share, e.accepted))
            && (|Submits(answer)| == 1 <==> ViewSolves(H, start, v, e.jobid, e.share)))
  {
    hide TemplateOk, TxBytes, Cut, Limit, Check, ClockOk, MinerHeader, NotifyOf, ToHex, LE, FromLE, DiffToTarget,
         FromHex, TargetFromBits, NoticeTarget, ViewHash, Credits, Submits, Step, ShareCandidate, Earned, Covers,
         Reverse, Pack;
    var e := i.event;
    NotFoundAnswer(H, c, s, i);
    if Admitted(H, c, s, i) {
      assert NoticeOf(H, start, e.jobid, s.jobs[e.jobid], v.notices[e.jobid]);
      StepCredit(H, c, s, i);
      StepSubmits(H, c, s, i);
      StepDuplicate(H, c, s, i);
      if v.extranonce.Some? {
        ViewIsExact(H, start, c, s, v, i.now, e.jobid, e.share);
      }
    }
  }

  lemma NotFoundAnswer(H: HashFn, c: Config, s: Session, i: Input)
    requires Inv(c, s, i.now) && TemplateOk(i.work) && i.event.Submit?
    ensures i.event.user in s.workers && i.event.jobid !in s.jobs ==>
              Step(H, c, s, i).1 == [Rejected(i.event.user, "Job not found", 1), Error(21, "Job not found")]
    ensures i.event.user !in s.workers ==> Step(H, c, s, i) == (s, [Error(24, "Unauthorized worker")])
    ensures Found(s, i.event) && !Admitted(H, c, s, i) ==>
              Step(H, c, s, i).1 == Limit(H, c, s, s.jobs[i.event.jobid].diff, i.now, i.event.noise, i.work).2
                                    + [Error(20, "Blocked by share limiter")]
  {
    hide JobOk, TemplateOk, Limit, Check, ClockOk;
  }

  // ---------------------------------------------------------------- replies

  /** A response to a request, as opposed to a notification or a share row. */
  predicate IsReply(o: Output) {
    o.Reply? || o.Error? || o.Subscribed?
  }

  function Replies(outs: seq<Output>): nat {
    if outs == [] then 0
    else (if IsReply(outs[|outs| - 1]) then 1 else 0) + Replies(outs[..|outs| - 1])
  }

  lemma {:induction false} RepliesConcat(a: seq<Output>, b: seq<Output>)
    ensures Replies(a + b) == Replies(a) + Replies(b)
  {
    if b == [] {
      assert a + b == a;
    } else {
      RepliesConcat(a, b[..|b| - 1]);
      assert (a + b)[..|a + b| - 1] == a + b[..|b| - 1];
    }
  }

  lemma {:induction false} NoReplies(outs: seq<Output>)
    requires forall o :: o in outs ==> !IsReply(o)
    ensures Replies(outs) == 0
  {
    if outs != [] {
      NoReplies(outs[..|outs| - 1]);
    }
  }

  lemma LastReplies(outs: seq<Output>, o: Output)
    requires IsReply(o) && forall x :: x in outs ==> !IsReply(x)
    ensures Replies(outs + [o]) == 1
  {
    NoReplies(outs);
    assert (outs + [o])[..|outs|] == outs;
  }

  lemma FirstReplies(o: Output, outs: seq<Output>)
    requires IsReply(o) && forall x :: x in outs ==> !IsReply(x)
    ensures Replies([o] + outs) == 1
  {
    RepliesConcat([o], outs);
    NoReplies(outs);
    LastReplies([], o);
    assert [] + [o] == [o];
  }

  /** How many responses the input is due: one for a request, none for a send, and none for a submitted block that the
      network refuses. */
  ghost function Due(H: HashFn, c: Config, s: Session, i: Input): nat
    requires Inv(c, s, i.now) && TemplateOk(i.work)
  {
    var e := i.event;
    if e.SendWork? || (e.Submit? && !e.accepted && Solved(H, c, s, i) != []) then 0 else 1
  }

  lemma SetDifficultyQuiet(H: HashFn, s: Session, diff: nat, resend: bool, work: BlockData)
    requires TemplateOk(work) && diff > 0
    ensures forall o :: o in SetDifficulty(H, s, diff, resend, work).1 ==> !IsReply(o)
  {
    hide TemplateOk, NotifyOf, GetJob;
  }

  lemma AnswerReplies(H: HashFn, en1: U32, id: U32, job: Job, user: string, share: Share, accepted: bool)
    requires JobOk(job)
    ensures Replies(Answer(H, en1, id, job, user, share, accepted))
            == if Solves(H, en1, id, job, share) && !accepted then 0 else 1
  {
    hide JobOk, DiffToTarget, TargetFromBits, ShareCandidate, FromHex, Pack, MinerHash, Replies;
    var out := Answer(H, en1, id, job, user, share, accepted);
    if Solves(H, en1, id, job, share) && !accepted {
      NoReplies(out);
    } else {
      var n := |out| - 1;
      LastReplies(out[..n], out[n]);
      assert out == out[..n] + [out[n]];
    }
  }

  lemma SubmitReplies(H: HashFn, c: Config, s: Session, i: Input)
    requires Inv(c, s, i.now) && TemplateOk(i.work) && Found(s, i.event)
    ensures Replies(OnSubmit(H, c, s, i.event, i.now, i.work).1) == Due(H, c, s, i)
  {
    hide JobOk, TemplateOk, Limit, Check, ClockOk, Replies, Solves, Answer, ShareCandidate;
    var e, job := i.event, s.jobs[i.event.jobid];
    var (s1, ok, out) := Limit(H, c, s, job.diff, i.now, e.noise, i.work);
    LimitNoCredit(H, c, s, job.diff, i.now, e.noise, i.work);
    NoReplies(out);
    if ok {
      CheckAnswers(H, s1, e.jobid, job, e.user, e.share, e.accepted);
      AnswerReplies(H, s1.extranonce, e.jobid, job, e.user, e.share, e.accepted);
      RepliesConcat(out, Check(H, s1, e.jobid, job, e.user, e.share, e.accepted).1);
    } else {
      LastReplies(out, Error(20, "Blocked by share limiter"));
    }
  }

  lemma StepReplies(H: HashFn, c: Config, s: Session, i: Input)
    requires Inv(c, s, i.now) && TemplateOk(i.work)
    ensures Replies(Step(H, c, s, i).1) == Due(H, c, s, i)
  {
    hide JobOk, TemplateOk, SendJob, SetDifficulty, Limit, Check, ClockOk, ToHex, LE, Replies, JobsOk, Solves, Found;
    var e, out := i.event, Step(H, c, s, i).1;
    match e
    case Subscribe(en) =>
      OnlyNotified(H, s.(extranonce := en), i.work, false);
      FirstReplies(out[0], out[1..]);
      assert out == [out[0]] + out[1..];
    case SendWork(clean) =>
      OnlyNotified(H, s, i.work, clean);
      NoReplies(out);
    case Authorize(user, found, min) =>
      var s1 := s.(workers := s.workers + {user}, minDiff := min);
      if found && s1.diff < s1.minDiff {
        SetDifficultyQuiet(H, s1, s1.minDiff, false, i.work);
      }
      LastReplies(out[..|out| - 1], out[|out| - 1]);
      assert out == out[..|out| - 1] + [out[|out| - 1]];
    case Submit(user, id, _, _, _) =>
      FoundExactly(s, e);
      if Found(s, e) {
        SubmitReplies(H, c, s, i);
      } else {
        LastReplies(out[..|out| - 1], out[|out| - 1]);
        assert out == out[..|out| - 1] + [out[|out| - 1]];
      }
  }

  lemma FoundExactly(s: Session, e: Event)
    requires e.Submit?
    ensures Found(s, e) <==> e.user in s.workers && e.jobid in s.jobs
  {
  }

  /** Responses due along a run. */
  ghost function RunDue(H: HashFn, c: Config, s: Session, clock: nat, inputs: seq<Input>): nat
    requires Inv(c, s, clock) && InputsOk(clock, inputs)
    decreases inputs
  {
    if inputs == [] then 0
    else
      RunHead(H, c, s, clock, inputs);
      Due(H, c, s, inputs[0]) + RunDue(H, c, Step(H, c, s, inputs[0]).0, inputs[0].now, inputs[1..])
  }

  /** Over any run every request gets exactly one response, but for the one quirk: a block the network refuses. */
  lemma {:induction false} OneReplyEach(H: HashFn, c: Config, s: Session, clock: nat, inputs: seq<Input>)
    requires Inv(c, s, clock) && InputsOk(clock, inputs)
    ensures Replies(Run(H, c, s, clock, inputs).1) == RunDue(H, c, s, clock, inputs)
    decreases inputs
  {
    hide Inv, Step, TemplateOk, Run, Replies, Due;
    if inputs == [] {
      EmptyRun(H, c, s, clock);
      NoReplies([]);
    } else {
      RunHead(H, c, s, clock, inputs);
      StepReplies(H, c, s, inputs[0]);
      var (s1, out) := Step(H, c, s, inputs[0]);
      OneReplyEach(H, c, s1, inputs[0].now, inputs[1..]);
      RepliesConcat(out, Run(H, c, s1, inputs[0].now, inputs[1..]).1);
    }
  }

  // ---------------------------------------------------------------- logins

  /** The last minimum that came with a successful login, or the one before. */
  function LastMinimum(min: nat, inputs: seq<Input>): nat {
    if inputs == [] then min
    else
      var e := inputs[|inputs| - 1].event;
      if e.Authorize? && e.found then e.minDiff else LastMinimum(min, inputs[..|inputs| - 1])
  }

  ghost predicate LoggedInAs(inputs: seq<Input>, user: string) {
    exists i :: i in inputs && i.event.Authorize? && i.event.username == user && i.event.found
  }

  lemma LimitSame(H: HashFn, c: Config, s: Session, diff: nat, now: nat, noise: Noise, work: BlockData)
    requires Inv(c, s, now) && TemplateOk(work)
    ensures
      var s' := Limit(H, c, s, diff, now, noise, work).0;
      s'.workers == s.workers && s'.minDiff == s.minDiff
  {
    hide JobOk, JobsOk, TemplateOk, NotifyOf, GetJob, Decide, ClockOk;
  }

  lemma SetDifficultySame(H: HashFn, s: Session, diff: nat, resend: bool, work: BlockData)
    requires TemplateOk(work) && diff > 0
    ensures
      var s' := SetDifficulty(H, s, diff, resend, work).0;
      s'.workers == s.workers && s'.minDiff == s.minDiff
  {
    hide TemplateOk, NotifyOf, GetJob;
  }

  lemma StepLogins(H: HashFn, c: Config, s: Session, i: Input)
    requires Inv(c, s, i.now) && TemplateOk(i.work)
    ensures
      var s', e := Step(H, c, s, i).0, i.event;
      if e.Authorize? && e.found then s'.workers == s.workers + {e.username} && s'.minDiff == e.minDiff
      else s'.workers == s.workers && s'.minDiff == s.minDiff
  {
    hide JobOk, TemplateOk, NotifyOf, GetJob, SetDifficulty, Limit, Check, ClockOk, ToHex, LE;
    match i.event
    case Subscribe(_) =>
    case SendWork(_) =>
    case Authorize(user, found, min) =>
      var s1 := s.(workers := s.workers + {user}, minDiff := min);
      if s1.diff < s1.minDiff {
        SetDifficultySame(H, s1, s1.minDiff, false, i.work);
      }
    case Submit(user, id, share, noise, accepted) =>
      if user in s.workers && id in s.jobs {
        var job := s.jobs[id];
        LimitSame(H, c, s, job.diff, i.now, noise, i.work);
        var s1 := Limit(H, c, s, job.diff, i.now, noise, i.work).0;
        CheckRest(H, s1, id, job, user, share, accepted);
        CheckSameDifficulty(H, s1, id, job, user, share, accepted);
      }
  }

  /** A login that is not found changes nothing and is told so; one that is found is confirmed, after the new
      difficulty if its minimum raises it. */
  lemma LoginAnswered(H: HashFn, c: Config, s: Session, i: Input)
    requires Inv(c, s, i.now) && TemplateOk(i.work) && i.event.Authorize?
    ensures !i.event.found ==> Step(H, c, s, i) == (s, [Error(20, "Authentication failed")])
    ensures i.event.found ==>
              Step(H, c, s, i).1
              == if s.diff < i.event.minDiff then [DifficultySet(i.event.minDiff), Reply] else [Reply]
  {
    hide JobOk, TemplateOk, NotifyOf, GetJob, ClockOk, SendJob, OnSubmit;
  }

  /** Over any run: a name may submit exactly if it could before or a login under it was found, and the minimum in
      force is that of the last login found. */
  lemma {:induction false} LoginsExact(H: HashFn, c: Config, s: Session, clock: nat, inputs: seq<Input>, user: string)
    requires Inv(c, s, clock) && InputsOk(clock, inputs)
    ensures
      var r := Run(H, c, s, clock, inputs).0;
      && (user in r.workers <==> user in s.workers || LoggedInAs(inputs, user))
      && r.minDiff == LastMinimum(s.minDiff, inputs)
    decreases |inputs|
  {
    hide Inv, Step, TemplateOk, Run, InputsOk;
    if inputs == [] {
      EmptyRun(H, c, s, clock);
    } else {
      var n := |inputs| - 1;
      RunSnoc(H, c, s, clock, inputs, n);
      LoginsExact(H, c, s, clock, inputs[..n], user);
      StepLogins(H, c, Run(H, c, s, clock, inputs[..n]).0, inputs[n]);
      assert inputs == inputs[..n] + [inputs[n]];
    }
  }
}
