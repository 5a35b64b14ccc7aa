/** Transactions and blocks, the bytes each one prints as, and what reading at a position yields.
    Reading is total: short input leaves zero or empty fields, as the buffer's reads do. */
module Codec {
  import opened Bytes
  import opened Buffer

  datatype OutPoint = OutPoint(hash: Data, n: U32)
  datatype TxIn = TxIn(prevout: OutPoint, script: Data, n: U32)
  datatype TxOut = TxOut(value: I64, scriptPubKey: Data)
  datatype Transaction = Transaction(version: U32, ins: seq<TxIn>, outs: seq<TxOut>, lockTime: U32)

  /** The serialized part of a block: header fields and transactions. */
  datatype BlockData = BlockData(
    version: U32, prevBlockHash: Data, merkleRootHash: Data,
    time: U32, bits: U32, nonce: U32, tx: seq<Transaction>)

  const TWO64: nat := 0x1_0000_0000_0000_0000

  // ---------------------------------------------------------------- printing

  function VarInt(n: nat): (s: Data)
    ensures |s| > 0
  {
    if n < 0xfd then LE(n, 1)
    else if n <= 0xffff then [0xfd] + LE(n, 2)
    else if n <= 0xffff_ffff then [0xfe] + LE(n, 4)
    else [0xff] + LE(n, 8)
  }

  function ScriptBytes(s: Data): Data {
    VarInt(|s|) + s
  }

  function OutPointBytes(o: OutPoint): Data {
    o.hash + LE(o.n, 4)
  }

  function TxInBytes(i: TxIn): Data {
    OutPointBytes(i.prevout) + (ScriptBytes(i.script) + LE(i.n, 4))
  }

  function TxOutBytes(o: TxOut): Data {
    LE(o.value, 8) + ScriptBytes(o.scriptPubKey)
  }

  function InsBytes(xs: seq<TxIn>): Data {
    if xs == [] then [] else InsBytes(xs[..|xs| - 1]) + TxInBytes(xs[|xs| - 1])
  }

  function OutsBytes(xs: seq<TxOut>): Data {
    if xs == [] then [] else OutsBytes(xs[..|xs| - 1]) + TxOutBytes(xs[|xs| - 1])
  }

  function TxBytes(t: Transaction): Data {
    LE(t.version, 4)
    + (VarInt(|t.ins|) + (InsBytes(t.ins) + (VarInt(|t.outs|) + (OutsBytes(t.outs) + LE(t.lockTime, 4)))))
  }

  function TxsBytes(xs: seq<Transaction>): Data {
    if xs == [] then [] else TxsBytes(xs[..|xs| - 1]) + TxBytes(xs[|xs| - 1])
  }

  function HeaderBytes(b: BlockData): Data {
    LE(b.version, 4) + (b.prevBlockHash + (b.merkleRootHash + (LE(b.time, 4) + (LE(b.bits, 4) + LE(b.nonce, 4)))))
  }

  function BlockBytes(b: BlockData): Data {
    HeaderBytes(b) + (VarInt(|b.tx|) + TxsBytes(b.tx))
  }

  // ---------------------------------------------------------------- reading

  function TakeU32(vec: Data, p: nat): (U32, nat) {
    Pow256Values();
    TakeInt(vec, p, 4)
  }

  function TakeI64(vec: Data, p: nat): (I64, nat) {
    Pow256Values();
    var (v, q) := TakeInt(vec, p, 8);
    (Signed(v), q)
  }

  function Signed(v: U64): I64 {
    if v < 0x8000_0000_0000_0000 then v else v - TWO64
  }

  function TakeVarInt(vec: Data, p: nat): (nat, nat) {
    var (size, q) := TakeInt(vec, p, 1);
    if size < 0xfd then (size, q)
    else if size == 0xfd then TakeInt(vec, q, 2)
    else if size == 0xfe then TakeInt(vec, q, 4)
    else TakeInt(vec, q, 8)
  }

  function TakeScript(vec: Data, p: nat): (Data, nat) {
    var (size, q) := TakeVarInt(vec, p);
    TakeBytes(vec, q, size)
  }

  function TakeOutPoint(vec: Data, p: nat): (OutPoint, nat) {
    var (hash, q) := TakeBytes(vec, p, 32);
    var (n, q') := TakeU32(vec, q);
    (OutPoint(hash, n), q')
  }

  function TakeTxIn(vec: Data, p: nat): (TxIn, nat) {
    var (o, q) := TakeOutPoint(vec, p);
    var (s, q') := TakeScript(vec, q);
    var (n, q'') := TakeU32(vec, q');
    (TxIn(o, s, n), q'')
  }

  function TakeTxOut(vec: Data, p: nat): (TxOut, nat) {
    var (v, q) := TakeI64(vec, p);
    var (s, q') := TakeScript(vec, q);
    (TxOut(v, s), q')
  }

  function TakeIns(vec: Data, p: nat, n: nat): (r: (seq<TxIn>, nat))
    ensures |r.0| == n
  {
    if n == 0 then ([], p)
    else
      var (xs, q) := TakeIns(vec, p, n - 1);
      var (x, q') := TakeTxIn(vec, q);
      (xs + [x], q')
  }

  function TakeOuts(vec: Data, p: nat, n: nat): (r: (seq<TxOut>, nat))
    ensures |r.0| == n
  {
    if n == 0 then ([], p)
    else
      var (xs, q) := TakeOuts(vec, p, n - 1);
      var (x, q') := TakeTxOut(vec, q);
      (xs + [x], q')
  }

  function TakeTx(vec: Data, p: nat): (Transaction, nat) {
    var (version, q0) := TakeU32(vec, p);
    var (insize, q1) := TakeVarInt(vec, q0);
    var (ins, q2) := TakeIns(vec, q1, insize);
    var (outsize, q3) := TakeVarInt(vec, q2);
    var (outs, q4) := TakeOuts(vec, q3, outsize);
    var (lockTime, q5) := TakeU32(vec, q4);
    (Transaction(version, ins, outs, lockTime), q5)
  }

  function TakeTxs(vec: Data, p: nat, n: nat): (r: (seq<Transaction>, nat))
    ensures |r.0| == n
  {
    if n == 0 then ([], p)
    else
      var (xs, q) := TakeTxs(vec, p, n - 1);
      var (x, q') := TakeTx(vec, q);
      (xs + [x], q')
  }

  function TakeBlock(vec: Data, p: nat): (BlockData, nat) {
    var (version, q0) := TakeU32(vec, p);
    var (prev, q1) := TakeBytes(vec, q0, 32);
    var (root, q2) := TakeBytes(vec, q1, 32);
    var (time, q3) := TakeU32(vec, q2);
    var (bits, q4) := TakeU32(vec, q3);
    var (nonce, q5) := TakeU32(vec, q4);
    var (txcount, q6) := TakeVarInt(vec, q5);
    var (tx, q7) := TakeTxs(vec, q6, txcount);
    (BlockData(version, prev, root, time, bits, nonce, tx), q7)
  }

  // ---------------------------------------------------------------- what can be printed faithfully

  ghost predicate TxInOk(i: TxIn) {
    |i.prevout.hash| == 32 && |i.script| < TWO64
  }

  ghost predicate TxOutOk(o: TxOut) {
    |o.scriptPubKey| < TWO64
  }

  /** 32-byte hashes, and lengths a 64-bit size can hold. */
  ghost predicate TxOk(t: Transaction) {
    && |t.ins| < TWO64 && (forall i :: i in t.ins ==> TxInOk(i))
    && |t.outs| < TWO64 && (forall o :: o in t.outs ==> TxOutOk(o))
  }

  ghost predicate BlockOk(b: BlockData) {
    && |b.prevBlockHash| == 32 && |b.merkleRootHash| == 32
    && |b.tx| < TWO64 && (forall t :: t in b.tx ==> TxOk(t))
  }

  // ---------------------------------------------------------------- round trips

  lemma U32At(vec: Data, p: nat, n: U32)
    requires At(vec, p, LE(n, 4))
    ensures TakeU32(vec, p) == (n, p + 4)
  {
    TakeIntAt(vec, p, n, 4);
    Pow256Values();
  }

  lemma I64At(vec: Data, p: nat, n: I64)
    requires At(vec, p, LE(n, 8))
    ensures TakeI64(vec, p) == (n, p + 8)
  {
    TakeIntAt(vec, p, n, 8);
    Pow256Values();
    hide TakeInt, Pow256, LE, At;
    assert n % TWO64 == if n < 0 then n + TWO64 else n;
  }

  lemma VarIntAt(vec: Data, p: nat, n: nat)
    requires n < TWO64 && At(vec, p, VarInt(n))
    ensures TakeVarInt(vec, p) == (n, p + |VarInt(n)|)
  {
    Pow256Values();
    hide TakeInt, LE;
    if n < 0xfd {
      FittingAt(vec, p, n, 1);
    } else {
      var tag, width := VarInt(n)[0], |VarInt(n)| - 1;
      assert VarInt(n) == [tag] + LE(n, width);
      TagByte(tag);
      AtSplit(vec, p, [tag], LE(n, width));
      FittingAt(vec, p, tag, 1);
      FittingAt(vec, p + 1, n, width);
    }
  }

  /** The exact lengths of the four forms. */
  lemma VarIntLength(n: nat)
    requires n < TWO64
    ensures |VarInt(n)| == if n < 0xfd then 1 else if n < 0x1_0000 then 3 else if n < 0x1_0000_0000 then 5 else 9
  {
    hide LE;
  }

  /** The form printed is the shortest of all strings read to their end as the number, and the only one that short;
      but for zero, as which a lone tag is read too: the short read behind it yields zero. */
  lemma VarIntShortest(n: nat, s: Data)
    requires n < TWO64 && s != [] && TakeVarInt(s, 0) == (n, |s|)
    ensures |VarInt(n)| <= |s|
    ensures n > 0 && |VarInt(n)| == |s| ==> VarInt(n) == s
  {
    hide LE, FromLE;
    VarIntLength(n);
    Pow256Values();
    assert s[0..1] == [s[0]];
    LEOfFromLE([s[0]]);
    OneByte(s[0]);
    if s[0] >= 0xfd {
      var w := if s[0] == 0xfd then 2 else if s[0] == 0xfe then 4 else 8;
      LEOfFromLE(s[1..]);
      assert TakeInt(s, 1, w) == (n, |s|);
      if |s| > 1 {
        assert |s| == 1 + w && s[1..1 + w] == s[1..];
        assert s == [s[0]] + s[1..];
      }
    }
  }

  lemma OneByte(b: Byte)
    ensures FromLE([b]) == b
  {
    assert [b][1..] == [];
    assert FromLE([]) == 0;
  }

  lemma TagByte(tag: Byte)
    ensures LE(tag, 1) == [tag]
  {
    assert LE(tag / 256, 0) == [];
  }

  /** An integer that fits its width is read back as itself. */
  lemma FittingAt(vec: Data, p: nat, n: nat, width: nat)
    requires n < Pow256(width) && At(vec, p, LE(n, width))
    ensures TakeInt(vec, p, width) == (n, p + width)
  {
    TakeIntAt(vec, p, n, width);
    DivModUnique(n, Pow256(width), 0, n);
  }

  lemma ScriptAt(vec: Data, p: nat, s: Data)
    requires |s| < TWO64 && At(vec, p, ScriptBytes(s))
    ensures TakeScript(vec, p) == (s, p + |ScriptBytes(s)|)
  {
    AtSplit(vec, p, VarInt(|s|), s);
    VarIntAt(vec, p, |s|);
    TakeBytesAt(vec, p + |VarInt(|s|)|, s);
  }

  lemma TxInAt(vec: Data, p: nat, i: TxIn)
    requires TxInOk(i) && At(vec, p, TxInBytes(i))
    ensures TakeTxIn(vec, p) == (i, p + |TxInBytes(i)|)
  {
    var o, s, n := OutPointBytes(i.prevout), ScriptBytes(i.script), LE(i.n, 4);
    AtSplit(vec, p, o, s + n);
    AtSplit(vec, p + |o|, s, n);
    AtSplit(vec, p, i.prevout.hash, LE(i.prevout.n, 4));
    TakeBytesAt(vec, p, i.prevout.hash);
    U32At(vec, p + 32, i.prevout.n);
    ScriptAt(vec, p + |o|, i.script);
    U32At(vec, p + |o| + |s|, i.n);
  }

  lemma TxOutAt(vec: Data, p: nat, o: TxOut)
    requires TxOutOk(o) && At(vec, p, TxOutBytes(o))
    ensures TakeTxOut(vec, p) == (o, p + |TxOutBytes(o)|)
  {
    AtSplit(vec, p, LE(o.value, 8), ScriptBytes(o.scriptPubKey));
    I64At(vec, p, o.value);
    ScriptAt(vec, p + 8, o.scriptPubKey);
  }

  lemma InsSnoc(init: seq<TxIn>, last: TxIn)
    ensures InsBytes(init + [last]) == InsBytes(init) + TxInBytes(last)
  {
    hide TxInBytes;
    assert (init + [last])[..|init|] == init;
  }

  lemma NoIns(vec: Data, p: nat)
    ensures InsBytes([]) == [] && TakeIns(vec, p, 0) == ([], p)
  {
  }

  lemma {:induction false} InsAt(vec: Data, p: nat, xs: seq<TxIn>)
    requires forall x :: x in xs ==> TxInOk(x)
    requires At(vec, p, InsBytes(xs))
    ensures TakeIns(vec, p, |xs|) == (xs, p + |InsBytes(xs)|)
  {
    hide TxInBytes, InsBytes, TakeTxIn, At, TxInOk;
    if xs == [] {
      NoIns(vec, p);
    } else {
      var init, last := xs[..|xs| - 1], xs[|xs| - 1];
      assert xs == init + [last];
      InsSnoc(init, last);
      AtSplit(vec, p, InsBytes(init), TxInBytes(last));
      InsAt(vec, p, init);
      TxInAt(vec, p + |InsBytes(init)|, last);
    }
  }

  lemma OutsSnoc(init: seq<TxOut>, last: TxOut)
    ensures OutsBytes(init + [last]) == OutsBytes(init) + TxOutBytes(last)
  {
    hide TxOutBytes;
    assert (init + [last])[..|init|] == init;
  }

  lemma NoOuts(vec: Data, p: nat)
    ensures OutsBytes([]) == [] && TakeOuts(vec, p, 0) == ([], p)
  {
  }

  lemma {:induction false} OutsAt(vec: Data, p: nat, xs: seq<TxOut>)
    requires forall x :: x in xs ==> TxOutOk(x)
    requires At(vec, p, OutsBytes(xs))
    ensures TakeOuts(vec, p, |xs|) == (xs, p + |OutsBytes(xs)|)
  {
    hide TxOutBytes, OutsBytes, TakeTxOut, At, TxOutOk;
    if xs == [] {
      NoOuts(vec, p);
    } else {
      var init, last := xs[..|xs| - 1], xs[|xs| - 1];
      assert xs == init + [last];
      OutsSnoc(init, last);
      AtSplit(vec, p, OutsBytes(init), TxOutBytes(last));
      OutsAt(vec, p, init);
      TxOutAt(vec, p + |OutsBytes(init)|, last);
    }
  }

  /** Six fields one after the other. */
  lemma AtSix(vec: Data, p: nat, a: Data, b: Data, c: Data, d: Data, e: Data, f: Data)
    requires At(vec, p, a + (b + (c + (d + (e + f)))))
    ensures At(vec, p, a)
    ensures At(vec, p + |a|, b)
    ensures At(vec, p + |a| + |b|, c)
    ensures At(vec, p + |a| + |b| + |c|, d)
    ensures At(vec, p + |a| + |b| + |c| + |d|, e)
    ensures At(vec, p + |a| + |b| + |c| + |d| + |e|, f)
  {
    AtSplit(vec, p, a, b + (c + (d + (e + f))));
    AtSplit(vec, p + |a|, b, c + (d + (e + f)));
    AtSplit(vec, p + |a| + |b|, c, d + (e + f));
    AtSplit(vec, p + |a| + |b| + |c|, d, e + f);
    AtSplit(vec, p + |a| + |b| + |c| + |d|, e, f);
  }

  lemma TxAt(vec: Data, p: nat, t: Transaction)
    requires TxOk(t) && At(vec, p, TxBytes(t))
    ensures TakeTx(vec, p) == (t, p + |TxBytes(t)|)
  {
    hide TakeU32, TakeIns, TakeOuts, TakeVarInt, InsBytes, OutsBytes, VarInt;
    var ni, ins, no, outs := VarInt(|t.ins|), InsBytes(t.ins), VarInt(|t.outs|), OutsBytes(t.outs);
    AtSix(vec, p, LE(t.version, 4), ni, ins, no, outs, LE(t.lockTime, 4));
    var q0 := p + 4;
    var q1 := q0 + |ni|;
    var q2 := q1 + |ins|;
    var q3 := q2 + |no|;
    var q4 := q3 + |outs|;
    U32At(vec, p, t.version);
    VarIntAt(vec, q0, |t.ins|);
    InsAt(vec, q1, t.ins);
    VarIntAt(vec, q2, |t.outs|);
    OutsAt(vec, q3, t.outs);
    U32At(vec, q4, t.lockTime);
  }

  lemma TxsSnoc(init: seq<Transaction>, last: Transaction)
    ensures TxsBytes(init + [last]) == TxsBytes(init) + TxBytes(last)
  {
    hide TxBytes;
    assert (init + [last])[..|init|] == init;
  }

  lemma NoTxs(vec: Data, p: nat)
    ensures TxsBytes([]) == [] && TakeTxs(vec, p, 0) == ([], p)
  {
  }

  lemma {:induction false} TxsAt(vec: Data, p: nat, xs: seq<Transaction>)
    requires forall x :: x in xs ==> TxOk(x)
    requires At(vec, p, TxsBytes(xs))
    ensures TakeTxs(vec, p, |xs|) == (xs, p + |TxsBytes(xs)|)
  {
    hide TxBytes, TxsBytes, TakeTx, At, TxOk;
    if xs == [] {
      NoTxs(vec, p);
    } else {
      var init, last := xs[..|xs| - 1], xs[|xs| - 1];
      assert xs == init + [last];
      TxsSnoc(init, last);
      AtSplit(vec, p, TxsBytes(init), TxBytes(last));
      TxsAt(vec, p, init);
      TxAt(vec, p + |TxsBytes(init)|, last);
    }
  }

  lemma HeaderAt(vec: Data, p: nat, b: BlockData)
    requires |b.prevBlockHash| == 32 && |b.merkleRootHash| == 32 && At(vec, p, HeaderBytes(b))
    ensures TakeU32(vec, p) == (b.version, p + 4)
    ensures TakeBytes(vec, p + 4, 32) == (b.prevBlockHash, p + 36)
    ensures TakeBytes(vec, p + 36, 32) == (b.merkleRootHash, p + 68)
    ensures TakeU32(vec, p + 68) == (b.time, p + 72)
    ensures TakeU32(vec, p + 72) == (b.bits, p + 76)
    ensures TakeU32(vec, p + 76) == (b.nonce, p + 80)
  {
    hide TakeU32, TakeBytes;
    AtSix(vec, p, LE(b.version, 4), b.prevBlockHash, b.merkleRootHash,
          LE(b.time, 4), LE(b.bits, 4), LE(b.nonce, 4));
    U32At(vec, p, b.version);
    TakeBytesAt(vec, p + 4, b.prevBlockHash);
    TakeBytesAt(vec, p + 36, b.merkleRootHash);
    U32At(vec, p + 68, b.time);
    U32At(vec, p + 72, b.bits);
    U32At(vec, p + 76, b.nonce);
  }

  lemma HeaderLength(b: BlockData)
    requires |b.prevBlockHash| == 32 && |b.merkleRootHash| == 32
    ensures |HeaderBytes(b)| == 80
  {
  }

  lemma BlockAt(vec: Data, p: nat, b: BlockData)
    requires BlockOk(b) && At(vec, p, BlockBytes(b))
    ensures TakeBlock(vec, p) == (b, p + |BlockBytes(b)|)
  {
    hide At, HeaderBytes, TakeU32, TakeBytes, TakeVarInt, TakeTxs, TxsBytes, VarInt, TxOk;
    HeaderLength(b);
    var n := VarInt(|b.tx|);
    AtSplit(vec, p, HeaderBytes(b), n + TxsBytes(b.tx));
    AtSplit(vec, p + 80, n, TxsBytes(b.tx));
    HeaderAt(vec, p, b);
    VarIntAt(vec, p + 80, |b.tx|);
    TxsAt(vec, p + 80 + |n|, b.tx);
  }

  /** Printed transactions are self-delimiting: equal byte strings that start with two
      transactions start with the same one. With empty tails this is injectivity. */
  lemma TxPrefixFree(a: Transaction, b: Transaction, s: Data, t: Data)
    requires TxOk(a) && TxOk(b)
    ensures TxBytes(a) + s == TxBytes(b) + t <==> a == b && s == t
  {
    hide TxBytes, TakeTx, At, TxOk;
    var x, y := TxBytes(a), TxBytes(b);
    var vec := x + s;
    if vec == y + t {
      AtIsSlice(vec, 0, x);
      AtIsSlice(vec, 0, y);
      assert vec[0..|x|] == x && vec[0..|y|] == y;
      TxAt(vec, 0, a);
      TxAt(vec, 0, b);
      assert s == vec[|x|..] && t == vec[|y|..];
    }
  }

  lemma BlockPrefixFree(a: BlockData, b: BlockData, s: Data, t: Data)
    requires BlockOk(a) && BlockOk(b)
    ensures BlockBytes(a) + s == BlockBytes(b) + t <==> a == b && s == t
  {
    hide BlockBytes, TakeBlock, At, BlockOk;
    var x, y := BlockBytes(a), BlockBytes(b);
    var vec := x + s;
    if vec == y + t {
      AtIsSlice(vec, 0, x);
      AtIsSlice(vec, 0, y);
      assert vec[0..|x|] == x && vec[0..|y|] == y;
      BlockAt(vec, 0, a);
      BlockAt(vec, 0, b);
      assert s == vec[|x|..] && t == vec[|y|..];
    }
  }
}
