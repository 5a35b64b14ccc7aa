/** Sessions on which the code does not do what one would expect: runs from new connections for the properties that
    hold only under a condition. */
module Counterexamples {
  import opened Bytes
  import opened Codec
  import opened Blocks
  import opened Targets
  import opened Work
  import opened Commitment
  import opened Limiting
  import opened Stratum
  import opened Runs
  import opened JobIds
  import opened Accounting
  import opened Duplicates
  import opened Pool
  import opened Messages

  // ---------------------------------------------------------------- runs under a steady limiter

  /** Difficulty one, always: a new estimate changes nothing. */
  ghost predicate Steady(c: Config) {
    c.startingDiff == c.minDiff == c.maxDiff == 1 && c.variance >= 1
  }

  lemma SteadyPasses(c: Config, l: Limiter, diff: nat, now: nat, noise: Noise)
    requires Steady(c) && |l.history| < 200
    ensures Decide(c, l, diff, now, 1, noise).1 == Pass
  {
    hide Estimate, Dropped, TooSoon, Total;
  }

  /** The run leads to r and grants the credits ks. */
  ghost predicate Reaches(H: HashFn, c: Config, s: Session, clock: nat, inputs: seq<Input>, r: Session, ks: seq<Credit>)
  {
    && Inv(c, s, clock) && InputsOk(clock, inputs) && Inv(c, r, EndClock(clock, inputs))
    && Run(H, c, s, clock, inputs).0 == r && Credits(Run(H, c, s, clock, inputs).1) == ks
  }

  lemma ReachStart(H: HashFn, c: Config, s: Session, clock: nat)
    requires Inv(c, s, clock)
    ensures Reaches(H, c, s, clock, [], s, [])
  {
    hide Inv, Run, Credits;
    EmptyRun(H, c, s, clock);
    NoCredits([]);
  }

  lemma ReachNext(H: HashFn, c: Config, s: Session, clock: nat, inputs: seq<Input>, r: Session, ks: seq<Credit>,
                  i: Input)
    requires Reaches(H, c, s, clock, inputs, r, ks)
    requires EndClock(clock, inputs) <= i.now < 0x1_0000_0000 && TemplateOk(i.work)
    ensures Inv(c, r, i.now)
    ensures Reaches(H, c, s, clock, inputs + [i], Step(H, c, r, i).0, ks + Credits(Step(H, c, r, i).1))
    ensures EndClock(clock, inputs + [i]) == i.now
  {
    hide Inv, Run, Credits, InputsOk, Step, TemplateOk;
    var all := inputs + [i];
    InvLater(c, r, EndClock(clock, inputs), i.now);
    StepKeepsInv(H, c, r, i);
    InputsSnoc(clock, inputs, i);
    RunSnoc(H, c, s, clock, all, |inputs|);
    assert all[..|inputs|] == inputs;
    CreditsConcat(Run(H, c, s, clock, inputs).1, Step(H, c, r, i).1);
  }

  // ---------------------------------------------------------------- the steps

  function Login(now: nat, work: BlockData): Input {
    Input(Authorize("worker", true, 1), now, work)
  }

  lemma LoggedIn(H: HashFn, c: Config, extranonce: U32, lastShares: nat, now: nat, work: BlockData)
    requires Steady(c) && now < 0x1_0000_0000 && TemplateOk(work)
    ensures
      var s := Connected(c, extranonce, lastShares, now);
      Reaches(H, c, s, now, [Login(now, work)], s.(workers := {"worker"}), [])
  {
    hide TemplateOk, JobsOk, OnSubmit, Reaches, Credits, ClockOk;
    var s, i := Connected(c, extranonce, lastShares, now), Login(now, work);
    ConnectedInv(c, extranonce, lastShares, now);
    ReachStart(H, c, s, now);
    ReachNext(H, c, s, now, [], s, [], i);
    assert [] + [i] == [i];
    NoSubmitNoCredit(H, c, s, i);
    var none: seq<Credit> := [];
    assert none + none == none;
    assert {} + {"worker"} == {"worker"};
    assert Step(H, c, s, i).0 == s.(workers := {"worker"});
  }

  lemma NoSubmitNoCredit(H: HashFn, c: Config, s: Session, i: Input)
    requires Inv(c, s, i.now) && TemplateOk(i.work) && !i.event.Submit?
    ensures Credits(Step(H, c, s, i).1) == []
  {
    hide Inv, TemplateOk, Step, Credits, Earned, Covers, Deserves, Limit;
    StepCredit(H, c, s, i);
  }

  /** A plain send, or a subscription, adds the next job. */
  lemma SentPlain(H: HashFn, c: Config, s: Session, clock: nat, inputs: seq<Input>, r: Session, ks: seq<Credit>,
                  i: Input)
    returns (r': Session)
    requires Reaches(H, c, s, clock, inputs, r, ks) && r.issued < IDS
    requires EndClock(clock, inputs) <= i.now < 0x1_0000_0000 && TemplateOk(i.work)
    requires i.event == SendWork(false) || i.event.Subscribe?
    ensures Reaches(H, c, s, clock, inputs + [i], r', ks) && EndClock(clock, inputs + [i]) == i.now
    ensures r.issued in r'.jobs && r'.jobs == r.jobs[r.issued := r'.jobs[r.issued]]
    ensures r' == r.(extranonce := r'.extranonce, jobs := r'.jobs, issued := r.issued + 1)
    ensures r'.extranonce == if i.event.Subscribe? then i.event.extranonce else r.extranonce
    ensures r'.jobs[r.issued].serial == r.issued && r'.jobs[r.issued].diff == r.diff
    ensures r'.jobs[r.issued].block == i.work && r'.jobs[r.issued].shares == {}
  {
    hide TemplateOk, JobsOk, ClockOk, SendJob, OnSubmit, Reaches, Credits, ToHex, LE;
    ReachNext(H, c, s, clock, inputs, r, ks, i);
    NoSubmitNoCredit(H, c, r, i);
    assert ks + [] == ks;
    r' := Step(H, c, r, i).0;
    PlainSend(H, if i.event.Subscribe? then r.(extranonce := i.event.extranonce) else r, i.work);
  }

  /** A submission under a steady limiter is let through and changes only its own job. */
  lemma SteadySubmit(H: HashFn, c: Config, s: Session, i: Input)
    requires Inv(c, s, i.now) && TemplateOk(i.work) && Steady(c) && s.diff == 1 && |s.limiter.history| < 200
    requires i.event.Submit? && i.event.user in s.workers && i.event.jobid in s.jobs
    ensures Admitted(H, c, s, i)
    ensures
      var s', job := Step(H, c, s, i).0, s.jobs[i.event.jobid];
      && s' == s.(jobs := s'.jobs, limiter := s'.limiter)
      && (var l := Decide(c, s.limiter, job.diff, i.now, 1, i.event.noise).0; s'.limiter == l.(bad := s'.limiter.bad))
      && s'.jobs.Keys == s.jobs.Keys
      && (forall id :: id in s.jobs && id != i.event.jobid ==> s'.jobs[id] == s.jobs[id])
      && s'.jobs[i.event.jobid]
         == job.(shares := job.shares + Packed(TriedShare(job.serial, s.extranonce, i.event.share), job.serial))
  {
    hide JobOk, TemplateOk, Check, ClockOk, Decide, SetDifficulty, SendJob, Packed, TriedShare;
    var e, job := i.event, s.jobs[i.event.jobid];
    SteadyPasses(c, s.limiter, job.diff, i.now, e.noise);
    var s1 := s.(limiter := Decide(c, s.limiter, job.diff, i.now, 1, e.noise).0);
    assert Limit(H, c, s, job.diff, i.now, e.noise, i.work) == (s1, true, []);
    CheckJobs(H, s1, e.jobid, job, e.user, e.share, e.accepted);
    CheckRest(H, s1, e.jobid, job, e.user, e.share, e.accepted);
    CheckSame(H, s1, e.jobid, job, e.user, e.share, e.accepted);
  }

  lemma CheckSame(H: HashFn, s: Session, id: nat, job: Job, user: string, share: Share, accepted: bool)
    requires JobOk(job)
    ensures
      var s' := Check(H, s, id, job, user, share, accepted).0;
      s' == s.(jobs := s'.jobs, limiter := s'.limiter)
  {
    hide JobOk, Candidate, HeaderBytes, FromHex, Reverse, Pack, FromLE;
  }

  lemma HistoryGrows(c: Config, l: Limiter, diff: nat, now: nat, cur: nat, noise: Noise)
    requires cur > 0
    ensures Decide(c, l, diff, now, cur, noise).0.history == l.history + [Record(diff, now)]
  {
    hide Decide, Recorded, Dropped, Estimates;
    DecideDeque(c, l, diff, now, cur, noise);
    RecordedHistory(l, diff, now);
  }

  // ---------------------------------------------------------------- one header, two credits

  /** Jobs of the same work credit the same header for the same share. */
  lemma SameWorkSameHeader(H: HashFn, s: Session, s': Session, k: Credit, k': Credit, e: Event, e': Event)
    requires Earned(H, s, k, e) && Earned(H, s', k', e') && e.share == e'.share && s.extranonce == s'.extranonce
    requires SameWork(s.jobs[e.jobid].block, s'.jobs[e'.jobid].block)
    ensures HeaderBytes(k.block) == HeaderBytes(k'.block)
    ensures k.serial == s.jobs[e.jobid].serial && k'.serial == s'.jobs[e'.jobid].serial
  {
    hide IsTemplateCoinbase, TxBytes, Cut, DiffToTarget, TargetFromBits, HeaderBytes, FromHex, Reverse, Deserves,
         FromLE, TxRoot, WithExtranonce, LE;
  }

  /** At difficulty one the share is worth a credit on this work. */
  ghost predicate Worthy(H: HashFn, work: BlockData, en1: U32, share: Share, accepted: bool)
    requires TemplateOk(work)
  {
    var en2, time, nonce := FromHex(share.extranonce2), Reverse(FromHex(share.ntime)), Reverse(FromHex(share.nonce));
    && |en2| == 4 && |time| == 4 && |nonce| == 4 && |work.tx[0].ins| == 1 && |work.tx[0].ins[0].script| == 12
    && var hash := FromLE(H(HeaderBytes(Candidate(H, work, en1, en2, time, nonce))));
       hash <= DiffToTarget(1) && (hash > TargetFromBits(work.bits) || accepted)
  }

  lemma WorthyDeserves(H: HashFn, job: Job, en1: U32, id: U32, share: Share, accepted: bool)
    requires JobOk(job) && job.diff == 1 && job.shares == {} && Worthy(H, job.block, en1, share, accepted)
    ensures Deserves(H, en1, id, job, share, accepted)
  {
    hide IsTemplateCoinbase, TxBytes, Cut, DiffToTarget, TargetFromBits, HeaderBytes, FromHex, Reverse, FromLE,
         Candidate, Pack, MinerHeader, NotifyOf, ToHex, LE;
    HeaderAgreement(H, id, job.block, false, en1, share.extranonce2, share.ntime, share.nonce);
  }

  lemma JobsAreOk(c: Config, s: Session, now: nat, id: nat)
    requires Inv(c, s, now) && id in s.jobs
    ensures JobOk(s.jobs[id])
  {
    hide JobOk;
  }

  /** A worthy share on an untouched job of difficulty one earns its credit. */
  lemma WorthyIsCredited(H: HashFn, c: Config, s: Session, clock: nat, inputs: seq<Input>, r: Session, ks: seq<Credit>,
                         i: Input)
    returns (k: Credit)
    requires Reaches(H, c, s, clock, inputs, r, ks) && EndClock(clock, inputs) <= i.now < 0x1_0000_0000
    requires TemplateOk(i.work) && Steady(c) && r.diff == 1 && |r.limiter.history| < 200
    requires i.event.Submit? && i.event.user in r.workers && i.event.jobid in r.jobs
    requires
      var job, e := r.jobs[i.event.jobid], i.event;
      && job.diff == 1 && job.shares == {} && TemplateOk(job.block)
      && Worthy(H, job.block, r.extranonce, e.share, e.accepted)
    ensures Inv(c, r, i.now) && Earned(H, r, k, i.event)
    ensures Reaches(H, c, s, clock, inputs + [i], Step(H, c, r, i).0, ks + [k])
    ensures EndClock(clock, inputs + [i]) == i.now
  {
    hide TemplateOk, Inv, Reaches, Credits, Step, Admitted, Deserves, Worthy, HeaderBytes, JobOk, Covers, Earned,
         EndClock;
    ReachNext(H, c, s, clock, inputs, r, ks, i);
    SteadySubmit(H, c, r, i);
    JobsAreOk(c, r, i.now, i.event.jobid);
    WorthyDeserves(H, r.jobs[i.event.jobid], r.extranonce, i.event.jobid, i.event.share, i.event.accepted);
    StepCredit(H, c, r, i);
    k := Credits(Step(H, c, r, i).1)[0];
    assert Credits(Step(H, c, r, i).1) == [k];
  }

  /** No header credited twice fails without its condition: a worker who is sent the same work as two jobs submits one
      share under both ids, and one header is credited twice. */
  lemma HeaderCreditedTwice(H: HashFn, c: Config, extranonce: U32, lastShares: nat, now: nat, work: BlockData,
                            share: Share, noise: Noise, accepted: bool)
    requires Steady(c) && now < 0x1_0000_0000 && TemplateOk(work) && Worthy(H, work, extranonce, share, accepted)
    ensures
      var s := Connected(c, extranonce, lastShares, now);
      var send := Input(SendWork(false), now, work);
      var first := Input(Submit("worker", 0, share, noise, accepted), now, work);
      var again := Input(Submit("worker", 1, share, noise, accepted), now, work);
      var inputs := [Login(now, work), send, send, first, again];
      && Inv(c, s, now) && InputsOk(now, inputs)
      && var ks := Credits(Run(H, c, s, now, inputs).1);
         |ks| == 2 && ks[0].serial == 0 && ks[1].serial == 1 && HeaderBytes(ks[0].block) == HeaderBytes(ks[1].block)
  {
    hide TemplateOk, Inv, InputsOk, Run, Credits, Step, Admitted, Worthy, HeaderBytes, Earned, Reaches, EndClock,
         Decide, Packed, TriedShare;
    var s, login := Connected(c, extranonce, lastShares, now), Login(now, work);
    var send := Input(SendWork(false), now, work);
    var first := Input(Submit("worker", 0, share, noise, accepted), now, work);
    var again := Input(Submit("worker", 1, share, noise, accepted), now, work);
    LoggedIn(H, c, extranonce, lastShares, now, work);
    OneInput(now, login);
    var r1 := SentPlain(H, c, s, now, [login], s.(workers := {"worker"}), [], send);
    var r2 := SentPlain(H, c, s, now, [login] + [send], r1, [], send);
    var k := WorthyIsCredited(H, c, s, now, [login] + [send] + [send], r2, [], first);
    SteadySubmit(H, c, r2, first);
    HistoryGrows(c, r2.limiter, 1, now, 1, noise);
    var r3 := Step(H, c, r2, first).0;
    var k' := WorthyIsCredited(H, c, s, now, [login] + [send] + [send] + [first], r3, [] + [k], again);
    assert [login] + [send] + [send] + [first] + [again] == [login, send, send, first, again];
    SameWorkSameHeader(H, r2, r3, k, k', first.event, again.event);
    Reached(H, c, s, now, [login, send, send, first, again], Step(H, c, r3, again).0, [] + [k] + [k']);
    assert [] + [k] + [k'] == [k, k'];
  }

  lemma OneInput(clock: nat, i: Input)
    ensures EndClock(clock, [i]) == i.now
  {
  }

  lemma Reached(H: HashFn, c: Config, s: Session, clock: nat, inputs: seq<Input>, r: Session, ks: seq<Credit>)
    requires Reaches(H, c, s, clock, inputs, r, ks)
    ensures Inv(c, s, clock) && InputsOk(clock, inputs) && Inv(c, r, EndClock(clock, inputs))
    ensures Run(H, c, s, clock, inputs).0 == r && Credits(Run(H, c, s, clock, inputs).1) == ks
  {
  }

  function ZeroHash(): HashFn {
    (d: Data) => Zeros(32)
  }

  function ZeroWork(): BlockData {
    BlockData(1, Zeros(32), Zeros(32), 0, 0x1d00_ffff, 0, [CreateCoinbaseTX(0, [], 0)])
  }

  lemma {:induction false} ZerosAreZero(n: nat)
    ensures FromLE(Zeros(n)) == 0
  {
    if n > 0 {
      ZerosAreZero(n - 1);
      assert Zeros(n)[1..] == Zeros(n - 1);
    }
  }

  /** There are worthy shares. */
  lemma SomeShareIsWorthy(en1: U32)
    ensures TemplateOk(ZeroWork())
    ensures Worthy(ZeroHash(), ZeroWork(), en1, Share("00000000", "00000000", "00000000"), true)
  {
    hide TxBytes, HeaderBytes, TxRoot, LE, WithExtranonce, CreateCoinbaseTX, DiffToTarget;
    var t := CreateCoinbaseTX(0, [], 0);
    assert IsTemplateCoinbase(t);
    TemplateShape(ZeroWork());
    ZerosAreZero(32);
    assert |FromHex("00000000")| == 4;
  }

  // ---------------------------------------------------------------- a duplicate with a new header

  /** Only a repeated header is a duplicate fails in a run: a worker's share is checked, the worker subscribes again,
      and the same nonce and extranonce2 sent for the old job are refused, with whatever time; the header is the
      same exactly when the time and the extranonce are. */
  lemma ResubscribedRefused(H: HashFn, c: Config, extranonce: U32, lastShares: nat, now: nat, work: BlockData,
                            en: U32, en': U32, share: Share, ntime: string, noise: Noise, accepted: bool, S: set<Data>)
    requires Steady(c) && now < 0x1_0000_0000 && TemplateOk(work) && Ordinary(work) && CollisionFree(H, S)
    requires TriedShare(0, en, share) != [] && |FromHex(ntime)| == 4
    ensures
      var s, share' := Connected(c, extranonce, lastShares, now), share.(ntime := ntime);
      var subscribe, subscribe' := Input(Subscribe(en), now, work), Input(Subscribe(en'), now, work);
      var first := Input(Submit("worker", 0, share, noise, accepted), now, work);
      var again := Input(Submit("worker", 0, share', noise, accepted), now, work);
      var inputs := [Login(now, work), subscribe, first, subscribe'];
      && Inv(c, s, now) && InputsOk(now, inputs)
      && var r := Run(H, c, s, now, inputs).0;
         && Inv(c, r, now) && (exists o :: o in Step(H, c, r, again).1 && IsDuplicate(o))
         && |TriedShare(0, en', share')| == 1
         && var t, t' := TriedShare(0, en, share)[0], TriedShare(0, en', share')[0];
            && Sized(t) && Sized(t')
            && (TriedWithin(H, [work], t, S) && TriedWithin(H, [work], t', S) ==>
                  (HeaderBytes(TriedBlock(H, [work], t)) == HeaderBytes(TriedBlock(H, [work], t')) <==>
                     t.time == t'.time && en == en'))
  {
    hide TemplateOk, Inv, InputsOk, Run, Credits, Step, HeaderBytes, Reaches, EndClock, Decide, Ordinary, CollisionFree,
         TriedWithin, TriedBlock, Packed, Pack, FromHex, Admitted;
    var s, login, share' := Connected(c, extranonce, lastShares, now), Login(now, work), share.(ntime := ntime);
    var subscribe, subscribe' := Input(Subscribe(en), now, work), Input(Subscribe(en'), now, work);
    var first := Input(Submit("worker", 0, share, noise, accepted), now, work);
    var again := Input(Submit("worker", 0, share', noise, accepted), now, work);
    LoggedIn(H, c, extranonce, lastShares, now, work);
    OneInput(now, login);
    var r1 := SentPlain(H, c, s, now, [login], s.(workers := {"worker"}), [], subscribe);
    ReachNext(H, c, s, now, [login] + [subscribe], r1, [], first);
    SteadySubmit(H, c, r1, first);
    HistoryGrows(c, r1.limiter, 1, now, 1, noise);
    var r2, ks := Step(H, c, r1, first).0, [] + Credits(Step(H, c, r1, first).1);
    var r := SentPlain(H, c, s, now, [login] + [subscribe] + [first], r2, ks, subscribe');
    assert [login] + [subscribe] + [first] + [subscribe'] == [login, subscribe, first, subscribe'];
    Reached(H, c, s, now, [login, subscribe, first, subscribe'], r, ks);
    var t, t' := TriedShare(0, en, share)[0], TriedShare(0, en', share')[0];
    PackedOne(t);
    SteadySubmit(H, c, r, again);
    StepDuplicate(H, c, r, again);
    if TriedWithin(H, [work], t, S) && TriedWithin(H, [work], t', S) {
      TriesApart(H, [work], t, t', S);
    }
  }

  // ---------------------------------------------------------------- a difficulty nobody was told

  /** The starting difficulty is never announced: the first job of a connection has it, and no message says so. A
      miner that takes one for granted is right exactly if the starting difficulty is one. */
  lemma StartUnannounced(H: HashFn, c: Config, extranonce: U32, lastShares: nat, now: nat, work: BlockData)
    requires ConfigOk(c) && now < 0x1_0000_0000 && TemplateOk(work)
    ensures
      var s, inputs := Connected(c, extranonce, lastShares, now), [Input(SendWork(false), now, work)];
      && Inv(c, s, now) && InputsOk(now, inputs)
      && var (r, out) := Run(H, c, s, now, inputs);
         && Watch(BLANK, out).told == None && 0 in Watch(BLANK, out).notices && 0 in r.jobs
         && (r.jobs[0].diff == InForce(Watch(BLANK, out).notices[0].told, 1) <==> c.startingDiff == 1)
  {
    hide TemplateOk, Inv, InputsOk, Run, Reaches, Credits, Step, Watch, EndClock, SendJob;
    var s, i := Connected(c, extranonce, lastShares, now), Input(SendWork(false), now, work);
    ConnectedInv(c, extranonce, lastShares, now);
    ReachStart(H, c, s, now);
    NoInputsYet(now);
    var r := SentPlain(H, c, s, now, [], s, [], i);
    assert [] + [i] == [i];
    Reached(H, c, s, now, [i], r, []);
    RunSnoc(H, c, s, now, [i], 0);
    assert [i][..0] == [];
    EmptyRun(H, c, s, now);
    PlainMessage(H, c, s, i);
  }

  lemma NoInputsYet(clock: nat)
    ensures EndClock(clock, []) == clock
  {
  }

  lemma PlainMessage(H: HashFn, c: Config, s: Session, i: Input)
    requires Inv(c, s, i.now) && TemplateOk(i.work) && i.event == SendWork(false) && s.issued == 0
    ensures
      var v := Watch(BLANK, [] + Step(H, c, s, i).1);
      v.told == None && 0 in v.notices && v.notices[0].told == None
  {
    hide TemplateOk, NotifyOf, GetJob, JobsOk, ClockOk, OnSubmit;
    SendMessage(H, s, i.work);
    var out := Step(H, c, s, i).1;
    assert [] + out == out;
    WatchOne(BLANK, out[0]);
  }

  lemma SendMessage(H: HashFn, s: Session, work: BlockData)
    requires TemplateOk(work) && s.diff > 0 && s.issued == 0
    ensures
      var out := SendJob(H, s, work, false).1;
      |out| == 1 && out == [out[0]] && out[0].Notified? && out[0].notify.jobid == 0
  {
    hide IsTemplateCoinbase, NotifyOf, GetJob;
    TemplateShape(work);
    NotifyShape(H, 0, work, false);
  }

  // ---------------------------------------------------------------- a window with a gap

  lemma RecordsDropped(c: Config, l: Limiter, diff: nat, now: nat, noise: Noise)
    requires l.history == [] && l.shares == [] && now < c.timeBuffer && now < 0x1_0000_0000
    requires c.interval == 0 && c.sharesThreshold == 0
    ensures
      var l' := Decide(c, l, diff, now, 1, noise).0;
      l'.history == [Record(diff, now)] && l'.shares == []
  {
    hide Decide, Dropped, Estimates;
    DecideDeque(c, l, diff, now, 1, noise);
    AlwaysEstimates(c, l, diff, now);
    var l1 := Recorded(l, diff, now);
    assert l1.shares == [Record(diff, now)];
    WrappedCutoffDropsAll(l1.shares, c, now);
  }

  lemma AlwaysEstimates(c: Config, l: Limiter, diff: nat, now: nat)
    requires c.interval == 0 && c.sharesThreshold == 0 && |l.history| < 200
    ensures Estimates(c, l, diff, now)
  {
  }

  /** A clock past the buffer is not enough for the true window: a share submitted while the clock was below the
      buffer is dropped at once, and still missing from a later estimate whose window should hold it. */
  lemma WindowGap(H: HashFn, c: Config, extranonce: U32, lastShares: nat, start: nat, early: nat, late: nat,
                  work: BlockData, share: Share, noise: Noise, accepted: bool)
    requires Steady(c) && c.interval == 0 && c.sharesThreshold == 0 && TemplateOk(work)
    requires start <= early < c.timeBuffer <= late < early + c.timeBuffer && late < 0x1_0000_0000
    ensures
      var s, submit := Connected(c, extranonce, lastShares, start), Submit("worker", 0, share, noise, accepted);
      var inputs := [Login(start, work), Input(SendWork(false), start, work), Input(submit, early, work)];
      var last := Input(submit, late, work);
      && Inv(c, s, start) && InputsOk(start, inputs)
      && var r := Run(H, c, s, start, inputs).0;
         && Inv(c, r, late) && Reestimates(c, r, last)
         && var l := Step(H, c, r, last).0.limiter;
            l.shares != Window(l.history, late - c.timeBuffer)
  {
    hide TemplateOk, Inv, InputsOk, Run, Credits, Step, Reaches, EndClock, Decide, Packed, TriedShare, Admitted, Window,
         Estimates;
    var s, login := Connected(c, extranonce, lastShares, start), Login(start, work);
    var send, submit := Input(SendWork(false), start, work), Submit("worker", 0, share, noise, accepted);
    var first, last := Input(submit, early, work), Input(submit, late, work);
    LoggedIn(H, c, extranonce, lastShares, start, work);
    OneInput(start, login);
    var r1 := SentPlain(H, c, s, start, [login], s.(workers := {"worker"}), [], send);
    ReachNext(H, c, s, start, [login] + [send], r1, [], first);
    SteadySubmit(H, c, r1, first);
    RecordsDropped(c, r1.limiter, 1, early, noise);
    var inputs := [login, send, first];
    assert [login] + [send] + [first] == inputs;
    var r, ks := Step(H, c, r1, first).0, [] + Credits(Step(H, c, r1, first).1);
    Reached(H, c, s, start, inputs, r, ks);
    AlwaysEstimates(c, r.limiter, r.jobs[0].diff, late);
    SessionWindow(H, c, extranonce, lastShares, start, inputs, last);
    assert r.limiter.history[0] == Record(1, early);
  }

  // ---------------------------------------------------------------- a client that never subscribed

  /** The counter does not keep apart clients that never subscribed: the server sends work to every client, and
      one whose uninitialised extranonce happens to be a subscriber's is credited for the same header. */
  lemma UnsubscribedSharesHeader(H: HashFn, c: Config, en: U32, garbage: U32, lastShares: nat, now: nat,
                                 work: BlockData, share: Share, noise: Noise, accepted: bool)
    requires Steady(c) && now < 0x1_0000_0000 && TemplateOk(work) && Worthy(H, work, en, share, accepted)
    ensures
      var submit := Input(Submit("worker", 0, share, noise, accepted), now, work);
      var k := Connection(c, garbage, lastShares, now, [Login(now, work), Input(Subscribe(en), now, work), submit]);
      var k' := Connection(c, en, lastShares, now, [Login(now, work), Input(SendWork(false), now, work), submit]);
      && Live(k) && Live(k') && |Ledger(H, k)| == 1 && |Ledger(H, k')| == 1
      && HeaderBytes(Ledger(H, k)[0].block) == HeaderBytes(Ledger(H, k')[0].block)
  {
    hide TemplateOk, Inv, InputsOk, Run, Credits, Step, Worthy, HeaderBytes, Earned, Reaches, EndClock;
    var login, submit := Login(now, work), Input(Submit("worker", 0, share, noise, accepted), now, work);
    var subscribe, send := Input(Subscribe(en), now, work), Input(SendWork(false), now, work);
    var s, s' := Connected(c, garbage, lastShares, now), Connected(c, en, lastShares, now);
    OneInput(now, login);
    LoggedIn(H, c, garbage, lastShares, now, work);
    var r := SentPlain(H, c, s, now, [login], s.(workers := {"worker"}), [], subscribe);
    var a := WorthyIsCredited(H, c, s, now, [login] + [subscribe], r, [], submit);
    LoggedIn(H, c, en, lastShares, now, work);
    var r' := SentPlain(H, c, s', now, [login], s'.(workers := {"worker"}), [], send);
    var b := WorthyIsCredited(H, c, s', now, [login] + [send], r', [], submit);
    assert [login] + [subscribe] + [submit] == [login, subscribe, submit];
    assert [login] + [send] + [submit] == [login, send, submit];
    Reached(H, c, s, now, [login, subscribe, submit], Step(H, c, r, submit).0, [] + [a]);
    Reached(H, c, s', now, [login, send, submit], Step(H, c, r', submit).0, [] + [b]);
    SameWorkSameHeader(H, r, r', a, b, submit.event, submit.event);
  }
}
