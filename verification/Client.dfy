/** The client object and its handlers, refining the session state machine step by step. */
module ClientObject {
  import opened Bytes
  import opened Buffer
  import opened Codec
  import opened Merkle
  import opened Serialization
  import opened Blocks
  import opened Targets
  import opened Work
  import opened Limiting
  import opened LimiterObject
  import S = Stratum
  import Runs

  class Job {
    const serial: nat
    const diff: nat
    const block: Block
    const coinbase1: Data
    const coinbase2: Data
    const blockTarget: nat
    const jobTarget: nat
    var shares: set<U64>

    constructor (serial: nat, diff: nat, block: Block, coinbase1: Data, coinbase2: Data,
                 blockTarget: nat, jobTarget: nat)
      ensures this.serial == serial && this.block == block
      ensures Value() == S.Job(serial, diff, block.Value(), coinbase1, coinbase2, {}, blockTarget, jobTarget)
    {
      this.serial, this.diff, this.block, this.shares := serial, diff, block, {};
      this.coinbase1, this.coinbase2 := coinbase1, coinbase2;
      this.blockTarget, this.jobTarget := blockTarget, jobTarget;
    }

    ghost function Value(): S.Job
      reads this, block
    {
      S.Job(serial, diff, block.Value(), coinbase1, coinbase2, shares, blockTarget, jobTarget)
    }

    method SubmitShare(share: U64) returns (ok: bool)
      modifies this`shares
      ensures ok <==> share !in old(shares)
      ensures shares == old(shares) + {share}
    {
      ok := share !in shares;
      if ok {
        shares := shares + {share};
      }
    }
  }

  /** The branch: entry 1 of every level of the flat vector, as hexadecimal text. */
  method MerkleBranch(block: Block) returns (branch: seq<string>)
    requires |block.tx| >= 1 && |block.merkleTree| == FlatSize(|block.tx|)
    ensures branch == HexAll(Branch(block.merkleTree, |block.tx|))
  {
    hide *;
    var tree := block.merkleTree;
    ghost var whole := Branch(tree, |block.tx|);
    branch := [];
    ghost var picked: seq<Data> := [];
    var j, size := 0, |block.tx|;
    assert tree[0..] == tree;
    while size > 1
      invariant size >= 1 && |tree| == j + FlatSize(size)
      invariant picked + Branch(tree[j..], size) == whole
      invariant branch == HexAll(picked)
    {
      BranchUnfold(tree[j..], size);
      var text := BinToASCII(tree[j + 1]);
      branch := branch + [text];
      picked := picked + [tree[j + 1]];
      assert tree[j..][size..] == tree[j + size..];
      j, size := j + size, (size + 1) / 2;
    }
    BranchUnfold(tree[j..], size);
  }

  lemma BranchUnfold(tree: seq<Data>, n: nat)
    requires n >= 1 && |tree| == FlatSize(n)
    ensures n == 1 ==> Branch(tree, n) == []
    ensures n > 1 ==> FlatSize(n) == n + FlatSize((n + 1) / 2)
                      && Branch(tree, n) == [tree[1]] + Branch(tree[n..], (n + 1) / 2)
  {
  }

  /** The previous hash as the message carries it, through two buffers and eight words. */
  method SwappedPrevHash(prev: Data) returns (r: Data)
    ensures r == PrevHashField(prev)
  {
    hide TakeU32, LE;
    var buf := new ByteBuffer.FromBinary(Reverse(prev));
    var w7 := ReadU32(buf);
    var w6 := ReadU32(buf);
    var w5 := ReadU32(buf);
    var w4 := ReadU32(buf);
    var w3 := ReadU32(buf);
    var w2 := ReadU32(buf);
    var w1 := ReadU32(buf);
    var w0 := ReadU32(buf);
    var fixed := new ByteBuffer();
    fixed.AppendInt(w0, 4);
    fixed.AppendInt(w1, 4);
    fixed.AppendInt(w2, 4);
    fixed.AppendInt(w3, 4);
    fixed.AppendInt(w4, 4);
    fixed.AppendInt(w5, 4);
    fixed.AppendInt(w6, 4);
    fixed.AppendInt(w7, 4);
    r := fixed.vec;
    AppendEight(LE(w0, 4), LE(w1, 4), LE(w2, 4), LE(w3, 4), LE(w4, 4), LE(w5, 4), LE(w6, 4), LE(w7, 4));
    assert r == [] + LE(w0, 4) + LE(w1, 4) + LE(w2, 4) + LE(w3, 4) + LE(w4, 4) + LE(w5, 4) + LE(w6, 4) + LE(w7, 4);
  }

  lemma AppendEight(a: Data, b: Data, c: Data, d: Data, e: Data, f: Data, g: Data, h: Data)
    ensures [] + a + b + c + d + e + f + g + h == a + (b + (c + (d + (e + (f + (g + h))))))
  {
    var gh := g + h;
    var fh := f + gh;
    var eh := e + fh;
    var dh := d + eh;
    var ch := c + dh;
    var ab := [] + a + b;
    assert ab + c + d + e + f + g + h == ab + c + d + e + f + gh == ab + c + d + e + fh == ab + c + d + eh
           == ab + c + dh == ab + ch == a + (b + ch);
  }

  /** The mining.notify message for a job. */
  method NotifyMessage(H: HashFn, job: Job, id: U32, clean: bool) returns (n: Notify)
    requires job.block.Built(H) && S.JobOk(job.Value())
    ensures n == NotifyOf(H, id, job.block.Value(), clean)
  {
    hide TxBytes, Cut, Flat, FlatSize, Branch, LE, ToHex, Reverse, PrevHashField, HexAll, TemplateOk, Leaves, TxRoot;
    var b := job.block;
    var branch := MerkleBranch(b);
    var prev := SwappedPrevHash(b.prevBlockHash);
    var ph := BinToASCII(prev);
    var c1 := BinToASCII(job.coinbase1);
    var c2 := BinToASCII(job.coinbase2);
    var version := FieldText(b.version);
    var bits := FieldText(b.bits);
    var time := FieldText(b.time);
    n := Notify(id, ph, c1, c2, branch, version, bits, time, clean);
  }

  method FieldText(v: U32) returns (s: string)
    ensures s == ToHex(Reverse(LE(v, 4)))
  {
    hide *;
    var buf := new ByteBuffer();
    buf.AppendInt(v, 4);
    assert buf.vec == LE(v, 4);
    s := BinToASCII(Reverse(buf.vec));
  }

  /** The extranonce as the subscription reply carries it. */
  method ExtranonceText(v: U32) returns (s: string)
    ensures s == ToHex(LE(v, 4))
  {
    hide *;
    var noncebuf := new ByteBuffer();
    noncebuf.AppendInt(v, 4);
    assert noncebuf.vec == LE(v, 4);
    s := BinToASCII(noncebuf.vec);
  }

  /** The submitted texts as bytes, time and nonce in header order. */
  method Decode(share: S.Share) returns (extranonce2: Data, time: Data, nonce: Data)
    ensures extranonce2 == FromHex(share.extranonce2)
    ensures time == Reverse(FromHex(share.ntime)) && nonce == Reverse(FromHex(share.nonce))
  {
    hide *;
    extranonce2 := ASCIIToBin(share.extranonce2);
    var ntime := ASCIIToBin(share.ntime);
    time := Reverse(ntime);
    var nonceData := ASCIIToBin(share.nonce);
    nonce := Reverse(nonceData);
  }

  /** The 64-bit value duplicates are recognised by. */
  method PackShare(nonce: Data, extranonce2: Data) returns (share: U64)
    requires |nonce| == 4 && |extranonce2| == 4
    ensures share == S.Pack(nonce, extranonce2)
  {
    var sharebuf := new ByteBuffer();
    sharebuf.AppendBinary(nonce);
    sharebuf.AppendBinary(extranonce2);
    assert sharebuf.vec[0..8] == nonce + extranonce2;
    Pow256Values();
    share := sharebuf.ReadInt(8);
  }

  class Client {
    const H: HashFn
    const config: Config
    const limiter: ShareLimiter
    var workers: set<string>
    var extranonce: U32
    var jobs: map<nat, Job>
    var jobid: U32
    var issued: nat
    var diff: nat
    var minDiff: nat

    ghost function Blocks(): set<Block>
      reads this
    {
      set j | j in jobs.Values :: j.block
    }

    /** The session this object stands for. */
    ghost function State(): S.Session
      reads this, limiter, jobs.Values, Blocks()
    {
      S.Session(workers, extranonce, map id | id in jobs :: jobs[id].Value(), issued, diff, minDiff, limiter.Value())
    }

    ghost predicate Valid(now: nat)
      reads this, limiter, jobs.Values, Blocks()
    {
      Base(now) && diff >= minDiff
    }

    /** Everything but the worker minimum, which authorization sets before it raises the difficulty. */
    ghost predicate Base(now: nat)
      reads this, limiter, jobs.Values, Blocks()
    {
      && limiter.Valid() && jobid == issued % S.IDS && TreesBuilt() && Distinct()
      && ConfigOk(config) && ClockOk(limiter.Value(), now) && diff >= config.minDiff && S.JobsOk(State())
    }

    /** Every job's template still has the tree of its transactions. */
    ghost predicate TreesBuilt()
      reads this, jobs.Values, Blocks()
    {
      forall id :: id in jobs ==> jobs[id].block.Built(H)
    }

    /** No two ids share a job object. */
    ghost predicate Distinct()
      reads this
    {
      forall a, b :: a in jobs && b in jobs && a != b ==> jobs[a] != jobs[b]
    }

    constructor (H: HashFn, config: Config, extranonce: U32, lastShares: nat, now: nat)
      requires ConfigOk(config) && now < 0x1_0000_0000
      ensures Valid(now) && fresh(limiter)
      ensures State() == Runs.Connected(config, extranonce, lastShares, now)
    {
      this.H, this.config, this.extranonce := H, config, extranonce;
      limiter := new ShareLimiter(now, lastShares);
      workers, jobs, jobid, issued := {}, map[], 0, 0;
      diff, minDiff := config.startingDiff, config.minDiff;
      new;
      assert State() == Runs.Connected(config, extranonce, lastShares, now);
      Runs.ConnectedInv(config, extranonce, lastShares, now);
    }

    /** The object stays valid as the clock moves on, so handlers can follow one another. */
    lemma ValidLater(clock: nat, now: nat)
      requires Valid(clock) && clock <= now < 0x1_0000_0000
      ensures Valid(now)
    {
      hide S.JobsOk, TreesBuilt, Distinct;
    }

    /** A job for the server's current work: targets, and the printed coinbase cut in two. */
    method GetJob(work: Block) returns (job: Job)
      requires work.Built(H) && TemplateOk(work.Value()) && diff > 0
      ensures fresh(job) && job.block == work
      ensures job.Value() == S.GetJob(State(), work.Value())
    {
      hide TxBytes, DiffToTarget, TargetFromBits, IsTemplateCoinbase, Flat, Leaves, TxRoot;
      TemplateShape(work.Value());
      var coinbasebuf := new ByteBuffer();
      WriteTx(coinbasebuf, work.tx[0]);
      var coinbase := coinbasebuf.vec;
      assert coinbase == TxBytes(work.tx[0]);
      var cbsplit := 4 + 32 + 4 + 2 + 4;
      job := new Job(issued, diff, work, coinbase[..cbsplit], coinbase[cbsplit + 8..],
                     TargetFromBits(work.bits), DiffToTarget(diff));
    }

    method CleanJobs()
      modifies this`jobs
      ensures jobs == map[]
    {
      jobs := map[];
    }

    /** Entries are either new objects with new serial numbers or the old entries. */
    twostate predicate Kept()
      reads this
    {
      && old(issued) <= issued
      && forall id :: id in jobs ==>
           (fresh(jobs[id]) && jobs[id].serial >= old(issued)) || (id in old(jobs) && jobs[id] == old(jobs)[id])
    }

    method SendJob(work: Block, clean: bool, ghost now: nat) returns (out: seq<S.Output>)
      requires Base(now) && work.Built(H) && TemplateOk(work.Value())
      modifies this`jobs, this`jobid, this`issued
      ensures Base(now) && Kept()
      ensures (State(), out) == S.SendJob(H, old(State()), work.Value(), clean)
    {
      hide TemplateOk, TxBytes, Cut, NotifyOf, TargetFromBits, DiffToTarget, ClockOk, S.JobOk, S.JobsOk, Block.Built;
      ghost var s := State();
      S.SendJobKeeps(H, s, work.Value(), clean);
      if clean {
        CleanJobs();
      }
      ghost var s0 := State();
      assert s0 == if clean then s.(jobs := map[]) else s;
      CleanFirst(H, s, work.Value(), clean);
      var job := GetJob(work);
      var n := NotifyMessage(H, job, jobid, clean);
      out := [S.Notified(n)];
      assert State() == s0;
      InstallJob(job);
    }

    /** The job enters the map under the next id. */
    method InstallJob(job: Job)
      requires TreesBuilt() && Distinct() && job.block.Built(H) && (forall id :: id in jobs ==> jobs[id] != job)
      requires jobid == issued % S.IDS && diff > 0 && TemplateOk(job.block.Value())
      requires job.Value() == S.GetJob(State(), job.block.Value())
      modifies this`jobs, this`jobid, this`issued
      ensures TreesBuilt() && Distinct() && jobid == issued % S.IDS
      ensures jobs == old(jobs)[old(jobid) := job] && issued == old(issued) + 1
      ensures State() == S.SendJob(H, old(State()), job.block.Value(), false).0
    {
      hide TemplateOk, TxBytes, Block.Built, NotifyOf, Cut, S.GetJob, S.JobOk;
      ghost var s, id := State(), jobid;
      NextId(issued);
      jobs := jobs[jobid := job];
      issued := issued + 1;
      jobid := (jobid + 1) % S.IDS;
      assert State() == s.(jobs := s.jobs[id := S.GetJob(s, job.block.Value())], issued := s.issued + 1);
    }

    method SetDifficulty(diff': nat, resendJob: bool, work: Block, ghost now: nat) returns (out: seq<S.Output>)
      requires Base(now) && work.Built(H) && TemplateOk(work.Value()) && diff' >= config.minDiff
      modifies this`diff, this`jobs, this`jobid, this`issued
      ensures Valid(now) && Kept()
      ensures (State(), out) == S.SetDifficulty(H, old(State()), diff', resendJob, work.Value())
    {
      hide TemplateOk, Block.Built, S.JobOk, S.JobsOk, S.SendJob, ClockOk;
      ghost var s := State();
      S.SetDifficultyKeeps(H, s, diff', resendJob, work.Value());
      var d := diff';
      if d < minDiff {
        d := minDiff;
      }
      if d == diff {
        return [];
      }
      diff := d;
      assert State() == s.(diff := d);
      S.SameJobs(s, State());
      out := [S.DifficultySet(d)];
      if resendJob {
        var more := SendJob(work, false, now);
        out := out + more;
      }
    }

    method OnMiningSubscribe(extranonce1: U32, work: Block, ghost now: nat) returns (out: seq<S.Output>)
      requires Valid(now) && work.Built(H) && TemplateOk(work.Value())
      modifies this`extranonce, this`jobs, this`jobid, this`issued
      ensures Valid(now) && Kept()
      ensures (State(), out) == S.OnSubscribe(H, old(State()), extranonce1, work.Value())
    {
      hide TemplateOk, Block.Built, S.JobOk, S.JobsOk, S.SendJob, ClockOk, ToHex, LE;
      ghost var s := State();
      var text := ExtranonceText(extranonce1);
      assert State() == s;
      extranonce := extranonce1;
      assert State() == s.(extranonce := extranonce1);
      S.SameJobs(s, State());
      var more := SendJob(work, false, now);
      out := [S.Subscribed(text)] + more;
    }

    method OnMiningAuthorize(username: string, found: bool, workerMin: U32, work: Block, ghost now: nat)
      returns (out: seq<S.Output>)
      requires Valid(now) && work.Built(H) && TemplateOk(work.Value())
      modifies this`workers, this`minDiff, this`diff, this`jobs, this`jobid, this`issued
      ensures Valid(now) && Kept()
      ensures (State(), out) == S.OnAuthorize(H, old(State()), S.Authorize(username, found, workerMin), work.Value())
    {
      hide TemplateOk, Block.Built, S.JobOk, S.JobsOk, S.SendJob, ClockOk, S.SetDifficulty;
      if !found {
        return [S.Error(20, "Authentication failed")];
      }
      ghost var s := State();
      workers := workers + {username};
      minDiff := workerMin;
      assert State() == s.(workers := s.workers + {username}, minDiff := workerMin);
      S.SameJobs(s, State());
      out := [];
      if diff < minDiff {
        out := SetDifficulty(minDiff, false, work, now);
      }
      out := out + [S.Reply];
      assert [] + [S.Reply] == [S.Reply];
    }

    /** ShareLimiter::Submit as the handler calls it: the verdict, carried out on this client. */
    method LimitShare(shareDiff: nat, work: Block, noise: Noise, now: nat) returns (ok: bool, out: seq<S.Output>)
      requires Valid(now) && work.Built(H) && TemplateOk(work.Value())
      modifies limiter, this`diff, this`jobs, this`jobid, this`issued
      ensures Valid(now) && Kept()
      ensures (State(), ok, out) == S.Limit(H, config, old(State()), shareDiff, now, noise, work.Value())
    {
      hide TemplateOk, Block.Built, S.JobOk, S.JobsOk, S.SendJob, S.SetDifficulty, Decide;
      ghost var s := State();
      S.DecideKeepsClock(config, s.limiter, shareDiff, now, diff, noise);
      var verdict := limiter.Judge(config, shareDiff, now, diff, noise);
      assert State() == s.(limiter := limiter.Value());
      S.SameJobs(s, State());
      match verdict
      case Pass =>
        ok, out := true, [];
      case Ban =>
        ok, out := false, [S.Banned(600)];
      case Retarget(d) =>
        out := SetDifficulty(d, true, work, now);
        ok := true;
      case Reset(d) =>
        out := SetDifficulty(d, false, work, now);
        var more := SendJob(work, true, now);
        ok, out := false, out + more;
    }

    /** One more bad share. */
    method Complain(ghost now: nat)
      requires Valid(now)
      modifies limiter`totalBadShares
      ensures Valid(now) && State() == S.LogBad(old(State()))
    {
      hide S.JobOk, S.JobsOk, Block.Built;
      ghost var s := State();
      limiter.LogBad();
      assert State() == S.LogBad(s);
      S.SameJobs(s, State());
    }

    /** The assembled block of a share, and its hash as a number. */
    method ShareBlock(job: Job, extranonce2: Data, time: Data, nonce: Data) returns (block: Block, target: nat)
      requires job.block.Built(H) && S.JobOk(job.Value())
      requires |extranonce2| == 4 && |time| == 4 && |nonce| == 4
      ensures fresh(block)
      ensures block.Value() == Candidate(H, job.block.Value(), extranonce, extranonce2, time, nonce)
      ensures target == FromLE(H(HeaderBytes(block.Value())))
    {
      hide TxBytes, Cut, Candidate, HeaderBytes, IsTemplateCoinbase, Flat, Leaves, TxRoot, FromLE, ToHex, Reverse,
           ParseHex;
      block := AssembleShare(H, job.block, job.coinbase1, job.coinbase2, extranonce, extranonce2, time, nonce);
      var hash := block.GetHash(H);
      var text := BinToASCII(Reverse(hash));
      target := ParseHex(text);
      HexOfReversedHash(hash);
    }

    /** The share's block against the job target and the block target. */
    method GradeShare(job: Job, user: string, extranonce2: Data, time: Data, nonce: Data, accepted: bool,
                      ghost now: nat)
      returns (out: seq<S.Output>)
      requires Valid(now) && job.block.Built(H) && S.JobOk(job.Value())
      requires |extranonce2| == 4 && |time| == 4 && |nonce| == 4
      modifies limiter`totalBadShares
      ensures Valid(now)
      ensures (State(), out)
              == S.Grade(H, old(State()), old(job.Value()), user, extranonce2, time, nonce, accepted)
    {
      hide TemplateOk, TxBytes, Cut, Candidate, HeaderBytes, Block.Built, FromLE, S.JobOk, S.JobsOk, ClockOk;
      ghost var s := State();
      var block, target := ShareBlock(job, extranonce2, time, nonce);
      assert State() == s;
      if target > job.jobTarget {
        Complain(now);
        return [S.Rejected(user, "Share above target", job.diff), S.Error(23, "Share above target")];
      }
      var credit := S.Credit(job.serial, job.diff, nonce, extranonce2, block.Value());
      if target <= job.blockTarget {
        out := [S.Submitted(block.Value(), job.jobTarget, job.blockTarget)];
        if accepted {
          out := [out[0], S.Credited(user, credit, true), S.Reply];
        }
      } else {
        out := [S.Credited(user, credit, false), S.Reply];
      }
    }

    /** The share enters its job's set; false if it was there. */
    method RememberShare(job: Job, id: nat, share: U64, ghost now: nat) returns (isNew: bool)
      requires Valid(now) && job.block.Built(H)
      requires forall x :: x in jobs && jobs[x] == job ==> x == id
      requires id in jobs && jobs[id].serial == job.serial ==> jobs[id] == job
      modifies job`shares
      ensures Valid(now)
      ensures isNew <==> share !in old(job.shares)
      ensures State() == if isNew then S.Remember(old(State()), id, old(job.Value()), share) else old(State())
      ensures job.Value() == old(job.Value()).(shares := job.shares)
    {
      hide Block.Built, ClockOk, S.JobOk, S.JobsOk;
      ghost var s, j := State(), job.Value();
      KeepsJobs(s, id, j, share);
      isNew := job.SubmitShare(share);
      if id in jobs && jobs[id].serial == job.serial {
        assert State() == s.(jobs := s.jobs[id := s.jobs[id].(shares := j.shares + {share})]);
        if !isNew {
          assert j.shares + {share} == j.shares;
          assert State() == s;
        }
      } else {
        assert State() == s;
      }
    }

    /** The checks after the limiter, on the job looked up before it. */
    method CheckShare(job: Job, id: U32, user: string, share: S.Share, accepted: bool, ghost now: nat)
      returns (out: seq<S.Output>)
      requires Valid(now) && job.block.Built(H) && S.JobOk(job.Value())
      requires forall x :: x in jobs && jobs[x] == job ==> x == id
      requires id in jobs && jobs[id].serial == job.serial ==> jobs[id] == job
      modifies limiter`totalBadShares, job`shares
      ensures Valid(now)
      ensures (State(), out) == S.Check(H, old(State()), id, old(job.Value()), user, share, accepted)
    {
      hide S.JobsOk, ClockOk, FromHex, Reverse, Block.Built, S.JobOk, S.Admit;
      ghost var s := State();
      var extranonce2, time, nonce := Decode(share);
      assert State() == s;
      if |extranonce2| != 4 {
        return [S.Error(20, "Wrong extranonce size")];
      }
      if |time| != 4 {
        return [S.Error(20, "Wrong ntime size")];
      }
      if |nonce| != 4 {
        return [S.Error(20, "Wrong nonce size")];
      }
      out := AdmitShare(job, id, user, extranonce2, time, nonce, accepted, now);
    }

    /** Pack, look for a duplicate, grade. */
    method AdmitShare(job: Job, id: U32, user: string, extranonce2: Data, time: Data, nonce: Data, accepted: bool,
                      ghost now: nat)
      returns (out: seq<S.Output>)
      requires Valid(now) && job.block.Built(H) && S.JobOk(job.Value())
      requires |extranonce2| == 4 && |time| == 4 && |nonce| == 4
      requires forall x :: x in jobs && jobs[x] == job ==> x == id
      requires id in jobs && jobs[id].serial == job.serial ==> jobs[id] == job
      modifies limiter`totalBadShares, job`shares
      ensures Valid(now)
      ensures (State(), out)
              == S.Admit(H, old(State()), id, old(job.Value()), user, extranonce2, time, nonce, accepted)
    {
      hide S.JobsOk, ClockOk, Block.Built, S.JobOk, S.Grade, S.Pack, S.Remember;
      ghost var s, j := State(), job.Value();
      var packed := PackShare(nonce, extranonce2);
      assert State() == s;
      var isNew := RememberShare(job, id, packed, now);
      if !isNew {
        Complain(now);
        return [S.Rejected(user, "Duplicate share", job.diff), S.Error(22, "Duplicate share")];
      }
      SharesDoNotMatter(H, State(), j, job.Value(), user, extranonce2, time, nonce, accepted);
      out := GradeShare(job, user, extranonce2, time, nonce, accepted, now);
    }

    /** No template block is in the modifies clause: the shared work is never written. */
    method OnMiningSubmit(user: string, id: U32, share: S.Share, work: Block, noise: Noise, accepted: bool, now: nat)
      returns (out: seq<S.Output>)
      requires Valid(now) && work.Built(H) && TemplateOk(work.Value())
      modifies limiter, jobs.Values, this`diff, this`jobs, this`jobid, this`issued
      ensures Valid(now)
      ensures (State(), out)
              == S.OnSubmit(H, config, old(State()), S.Submit(user, id, share, noise, accepted), now, work.Value())
    {
      hide TemplateOk, Block.Built, S.JobOk, ClockOk, S.Limit, S.Check;
      ghost var s := State();
      if user !in workers {
        return [S.Error(24, "Unauthorized worker")];
      }
      if id !in jobs {
        Complain(now);
        return [S.Rejected(user, "Job not found", 1), S.Error(21, "Job not found")];
      }
      var job := jobs[id];
      ghost var j := job.Value();
      assert s.jobs[id] == j;
      var ok;
      ok, out := LimitShare(job.diff, work, noise, now);
      if !ok {
        out := out + [S.Error(20, "Blocked by share limiter")];
        return;
      }
      assert job.Value() == j;
      var more := CheckShare(job, id, user, share, accepted, now);
      out := out + more;
    }
  }

  lemma KeepsJobs(s: S.Session, id: nat, job: S.Job, packed: U64)
    requires S.JobsOk(s)
    ensures S.JobsOk(S.Remember(s, id, job, packed))
  {
    hide TemplateOk, TxBytes, Cut, DiffToTarget, TargetFromBits;
  }

  /** Grading looks at the job's work and targets only. */
  lemma SharesDoNotMatter(H: HashFn, s: S.Session, j: S.Job, j': S.Job, user: string,
                          en2: Data, time: Data, nonce: Data, accepted: bool)
    requires S.JobOk(j) && j' == j.(shares := j'.shares) && |en2| == 4 && |time| == 4 && |nonce| == 4
    ensures S.JobOk(j')
    ensures S.Grade(H, s, j', user, en2, time, nonce, accepted) == S.Grade(H, s, j, user, en2, time, nonce, accepted)
  {
    hide TemplateOk, TxBytes, Cut, DiffToTarget, TargetFromBits, Candidate, HeaderBytes, FromLE;
  }

  lemma CleanFirst(H: HashFn, s: S.Session, work: BlockData, clean: bool)
    requires TemplateOk(work) && s.diff > 0
    ensures S.SendJob(H, s, work, clean).0
            == S.SendJob(H, if clean then s.(jobs := map[]) else s, work, false).0
  {
    hide TemplateOk, NotifyOf, S.JobOk;
  }

  lemma NextId(n: nat)
    ensures (n % S.IDS + 1) % S.IDS == (n + 1) % S.IDS
  {
  }
}
