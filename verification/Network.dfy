/** The daemons' side: the block template built from an answer, and the block sent back. */
module Network {
  import opened Bytes
  import opened Buffer
  import opened Codec
  import opened Serialization
  import opened Blocks
  import opened Targets
  import opened Work
  import opened Commitment
  import opened Limiting
  import opened Stratum
  import opened Runs
  import opened Accounting

  /** The getblocktemplate fields the pool reads; transactions are their hexadecimal data. */
  datatype Response = Response(
    version: I64, previousblockhash: string, curtime: I64, bits: string, coinbasevalue: I64, transactions: seq<string>)

  function Truncate32(v: int): U32 {
    v % 0x1_0000_0000
  }

  /** In range nothing is lost; a 64-bit value keeps its low half, a negative one its two's complement. */
  lemma TruncateMeaning(v: I64)
    ensures 0 <= v < 0x1_0000_0000 ==> Truncate32(v) == v
    ensures LE(Truncate32(v), 4) == LE(v, 4)
    ensures LE(Truncate32(v), 4) == LE(v, 8)[..4]
  {
    Pow256Values();
    FromLEOfLE(v, 4);
    LEOfFromLE(LE(v, 4));
    LowHalf(v);
  }

  lemma LowHalf(v: int)
    ensures LE(v, 8)[..4] == LE(v, 4)
  {
    LEPrefix(v, 4, 4);
  }

  lemma {:induction false} LEPrefix(v: int, k: nat, n: nat)
    ensures |LE(v, k + n)| == k + n && LE(v, k + n)[..k] == LE(v, k)
    decreases k
  {
    if k > 0 {
      LEPrefix(v / 256, k - 1, n);
      var s := LE(v, k + n);
      assert s == [v % 256] + LE(v / 256, k - 1 + n);
      assert s[..k] == [v % 256] + s[1..][..k - 1];
    }
  }

  function ParsedTx(hex: string): Transaction {
    TakeTx(FromHex(hex), 0).0
  }

  /** The transactions of the template: the coinbase first, then the daemon's in order. */
  function TemplateTxs(height: U32, pubkey: Data, r: Response): (tx: seq<Transaction>)
    ensures |tx| == 1 + |r.transactions|
    ensures tx[0] == CreateCoinbaseTX(height, pubkey, r.coinbasevalue)
    ensures forall i :: 0 <= i < |r.transactions| ==> tx[i + 1] == ParsedTx(r.transactions[i])
  {
    [CreateCoinbaseTX(height, pubkey, r.coinbasevalue)]
    + seq(|r.transactions|, i requires 0 <= i < |r.transactions| => ParsedTx(r.transactions[i]))
  }

  /** The template has its full tree and root, and is fit for jobs exactly when the daemon gave a 32-byte
      previous hash and a compact target with an exponent of at least three. */
  method MakeTemplate(H: HashFn, height: U32, pubkey: Data, r: Response) returns (block: Block)
    requires |pubkey| < TWO64 - 1
    ensures fresh(block) && block.Built(H)
    ensures block.tx == TemplateTxs(height, pubkey, r)
    ensures block.version == Truncate32(r.version) && block.time == Truncate32(r.curtime)
    ensures block.prevBlockHash == Reverse(FromHex(r.previousblockhash))
    ensures block.bits == TakeU32(Reverse(FromHex(r.bits)), 0).0
    ensures TemplateOk(block.Value()) <==> (|r.previousblockhash| + 1) / 2 == 32 && block.bits >= 0x0300_0000
  {
    hide TakeTx, TakeU32, FromHex, Reverse, CreateCoinbaseTX;
    var prev := ASCIIToBin(r.previousblockhash);
    var bitsData := ASCIIToBin(r.bits);
    var bitbuf := new ByteBuffer.FromBinary(Reverse(bitsData));
    var bits := ReadU32(bitbuf);
    var tx := [CreateCoinbaseTX(height, pubkey, r.coinbasevalue)];
    for tidx := 0 to |r.transactions|
      invariant tx == TemplateTxs(height, pubkey, r)[..tidx + 1]
    {
      var data := ASCIIToBin(r.transactions[tidx]);
      var txbuf := new ByteBuffer.FromBinary(data);
      var t := ReadTx(txbuf);
      tx := tx + [t];
    }
    assert TemplateTxs(height, pubkey, r)[..|r.transactions| + 1] == TemplateTxs(height, pubkey, r);
    block := new Block(Truncate32(r.version), Reverse(prev), Truncate32(r.curtime), bits, tx);
    block.BuildMerkleTree(H);
    assert IsTemplateCoinbase(tx[0]);
  }

  // ---------------------------------------------------------------- submitting a block

  /** What comes of one submitblock call: a null result, any other answer, or an exception. */
  datatype Answer = Accepted | Refused | Failed

  /** Every daemon is sent the printed block until one accepts it. */
  method SubmitBlock(block: BlockData, answers: seq<Answer>) returns (accepted: bool, sent: seq<string>)
    ensures accepted <==> Accepted in answers
    ensures |sent| <= |answers| && forall text :: text in sent ==> text == ToHex(BlockBytes(block))
    ensures accepted ==> sent != [] && answers[|sent| - 1] == Accepted && Accepted !in answers[..|sent| - 1]
    ensures !accepted ==> |sent| == |answers|
  {
    hide ToHex, BlockBytes;
    var blockbuf := new ByteBuffer();
    WriteBlock(blockbuf, block);
    assert blockbuf.vec == BlockBytes(block);
    sent := [];
    for i := 0 to |answers|
      invariant blockbuf.vec == BlockBytes(block)
      invariant |sent| == i && forall text :: text in sent ==> text == ToHex(BlockBytes(block))
      invariant Accepted !in answers[..i]
    {
      var text := BinToASCII(blockbuf.vec);
      sent := sent + [text];
      assert answers[..i + 1] == answers[..i] + [answers[i]];
      if answers[i] == Accepted {
        return true, sent;
      }
    }
    assert answers[..|answers|] == answers;
    accepted := false;
  }

  /** A daemon that decodes and parses the text has the block. */
  lemma DaemonReads(b: BlockData)
    requires BlockOk(b)
    ensures TakeBlock(FromHex(ToHex(BlockBytes(b))), 0) == (b, |BlockBytes(b)|)
  {
    hide BlockBytes, TakeBlock, ToHex, FromHex, BlockOk, At;
    var bytes := BlockBytes(b);
    FromHexToHex(bytes);
    AtIsSlice(bytes, 0, bytes);
    assert bytes[0..0 + |bytes|] == bytes;
    BlockAt(bytes, 0, b);
  }

  lemma CandidatePrints(H: HashFn, w: BlockData, en1: U32, en2: Data, time: Data, nonce: Data)
    requires TemplateOk(w) && |w.tx[0].ins| == 1 && |w.tx[0].ins[0].script| == 12
    requires |en2| == 4 && |time| == 4 && |nonce| == 4
    requires |w.tx| < TWO64 && forall i :: 1 <= i < |w.tx| ==> TxOk(w.tx[i])
    ensures BlockOk(Candidate(H, w, en1, en2, time, nonce))
  {
    hide TxBytes, TxRoot, LE, FromLE, WithExtranonce, IsTemplateCoinbase, TxOk, IsCoinbase;
    var b := Candidate(H, w, en1, en2, time, nonce);
    SplicedShape(w.tx[0], LE(en1, 4) + en2);
    RootLength(H, b.tx);
    forall i | 0 <= i < |b.tx|
      ensures TxOk(b.tx[i])
    {
      if i > 0 {
        assert b.tx[i] == w.tx[i];
      }
    }
  }

  lemma HandedPrints(H: HashFn, s: Session, e: Event, o: Output)
    requires o.Submitted? && FromJob(H, s, e, o)
    requires |o.block.tx| < TWO64 && forall i :: 1 <= i < |o.block.tx| ==> TxOk(o.block.tx[i])
    ensures BlockOk(o.block)
  {
    hide TxBytes, Cut, IsTemplateCoinbase, TxOk, Candidate, TxRoot, HeaderBytes, FromLE, DiffToTarget, TargetFromBits,
         FromHex, Reverse;
    var job := s.jobs[e.jobid];
    var w, share := job.block, e.share;
    var en2, time, nonce := FromHex(share.extranonce2), Reverse(FromHex(share.ntime)), Reverse(FromHex(share.nonce));
    forall i | 1 <= i < |w.tx|
      ensures TxOk(w.tx[i])
    {
      assert w.tx[i] == w.tx[1..][i - 1] == o.block.tx[1..][i - 1] == o.block.tx[i];
    }
    CandidatePrints(H, w, s.extranonce, en2, time, nonce);
  }

  /** What the daemons get: for every block a session hands over on any run, the text sent decodes and parses to that
      block, to the end, provided its other transactions print faithfully. */
  lemma DaemonGetsCandidate(H: HashFn, c: Config, s: Session, clock: nat, inputs: seq<Input>, o: Output)
    requires Inv(c, s, clock) && InputsOk(clock, inputs) && o in Run(H, c, s, clock, inputs).1 && o.Submitted?
    requires |o.block.tx| < TWO64 && forall i :: 1 <= i < |o.block.tx| ==> TxOk(o.block.tx[i])
    ensures exists j: nat :: HandedAt(H, c, s, clock, inputs, o, j)
    ensures TakeBlock(FromHex(ToHex(BlockBytes(o.block))), 0) == (o.block, |BlockBytes(o.block)|)
  {
    hide Inv, InputsOk, Run, Step, TemplateOk, FromJob, TxOk, BlockOk, TakeBlock, BlockBytes, ToHex, FromHex;
    SubmittedBlocks(H, c, s, clock, inputs);
    var j: nat :| HandedAt(H, c, s, clock, inputs, o, j);
    HandedPrints(H, Run(H, c, s, clock, inputs[..j]).0, inputs[j].event, o);
    DaemonReads(o.block);
  }
}
