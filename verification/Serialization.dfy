/** The stream operators: each appends to, or advances, a shared buffer, with loops over the vectors. */
module Serialization {
  import opened Bytes
  import opened Buffer
  import opened Codec

  method WriteVarInt(a: ByteBuffer, value: nat)
    modifies a`vec
    ensures a.vec == old(a.vec) + VarInt(value)
  {
    TagByte(0xfd);
    TagByte(0xfe);
    TagByte(0xff);
    hide LE, Pow256;
    if value < 0xfd {
      a.AppendInt(value, 1);
    } else if value <= 0xffff {
      a.AppendInt(0xfd, 1);
      a.AppendInt(value, 2);
      assert a.vec == old(a.vec) + ([0xfd] + LE(value, 2));
    } else if value <= 0xffff_ffff {
      a.AppendInt(0xfe, 1);
      a.AppendInt(value, 4);
      assert a.vec == old(a.vec) + ([0xfe] + LE(value, 4));
    } else {
      a.AppendInt(0xff, 1);
      a.AppendInt(value, 8);
      assert a.vec == old(a.vec) + ([0xff] + LE(value, 8));
    }
  }

  method ReadVarInt(a: ByteBuffer) returns (value: nat)
    modifies a`pointer
    ensures (value, a.pointer) == TakeVarInt(a.vec, old(a.pointer))
  {
    var size := a.ReadInt(1);
    if size < 0xfd {
      value := size;
    } else if size == 0xfd {
      value := a.ReadInt(2);
    } else if size == 0xfe {
      value := a.ReadInt(4);
    } else {
      value := a.ReadInt(8);
    }
  }

  method WriteScript(a: ByteBuffer, b: Data)
    modifies a`vec
    ensures a.vec == old(a.vec) + ScriptBytes(b)
  {
    WriteVarInt(a, |b|);
    a.AppendBinary(b);
  }

  method ReadScript(a: ByteBuffer) returns (b: Data)
    modifies a`pointer
    ensures (b, a.pointer) == TakeScript(a.vec, old(a.pointer))
  {
    hide TakeVarInt, TakeBytes;
    var size := ReadVarInt(a);
    b := a.ReadBinary(size);
  }

  method WriteTxIn(a: ByteBuffer, b: TxIn)
    modifies a`vec
    ensures a.vec == old(a.vec) + TxInBytes(b)
  {
    hide ScriptBytes, LE;
    a.AppendBinary(b.prevout.hash);
    a.AppendInt(b.prevout.n, 4);
    WriteScript(a, b.script);
    a.AppendInt(b.n, 4);
  }

  method ReadU32(a: ByteBuffer) returns (n: U32)
    modifies a`pointer
    ensures (n, a.pointer) == TakeU32(a.vec, old(a.pointer))
  {
    Pow256Values();
    n := a.ReadInt(4);
  }

  method ReadI64(a: ByteBuffer) returns (n: I64)
    modifies a`pointer
    ensures (n, a.pointer) == TakeI64(a.vec, old(a.pointer))
  {
    Pow256Values();
    var v := a.ReadInt(8);
    n := Signed(v);
  }

  method ReadTxIn(a: ByteBuffer) returns (b: TxIn)
    modifies a`pointer
    ensures (b, a.pointer) == TakeTxIn(a.vec, old(a.pointer))
  {
    hide TakeU32, TakeBytes, TakeScript;
    var hash := a.ReadBinary(32);
    var pn := ReadU32(a);
    var script := ReadScript(a);
    var n := ReadU32(a);
    b := TxIn(OutPoint(hash, pn), script, n);
  }

  method WriteTxOut(a: ByteBuffer, b: TxOut)
    modifies a`vec
    ensures a.vec == old(a.vec) + TxOutBytes(b)
  {
    hide ScriptBytes, LE;
    a.AppendInt(b.value, 8);
    WriteScript(a, b.scriptPubKey);
  }

  method ReadTxOut(a: ByteBuffer) returns (b: TxOut)
    modifies a`pointer
    ensures (b, a.pointer) == TakeTxOut(a.vec, old(a.pointer))
  {
    hide TakeI64, TakeScript;
    var value := ReadI64(a);
    var script := ReadScript(a);
    b := TxOut(value, script);
  }

  /** The loop over inputs. */
  method WriteIns(a: ByteBuffer, ins: seq<TxIn>)
    modifies a`vec
    ensures a.vec == old(a.vec) + InsBytes(ins)
  {
    hide InsBytes, TxInBytes;
    NoIns([], 0);
    for i := 0 to |ins|
      invariant a.vec == old(a.vec) + InsBytes(ins[..i])
    {
      WriteTxIn(a, ins[i]);
      InsSnoc(ins[..i], ins[i]);
      assert ins[..i + 1] == ins[..i] + [ins[i]];
    }
    assert ins[..|ins|] == ins;
  }

  /** The loop over outputs. */
  method WriteOuts(a: ByteBuffer, outs: seq<TxOut>)
    modifies a`vec
    ensures a.vec == old(a.vec) + OutsBytes(outs)
  {
    hide OutsBytes, TxOutBytes;
    NoOuts([], 0);
    for i := 0 to |outs|
      invariant a.vec == old(a.vec) + OutsBytes(outs[..i])
    {
      WriteTxOut(a, outs[i]);
      OutsSnoc(outs[..i], outs[i]);
      assert outs[..i + 1] == outs[..i] + [outs[i]];
    }
    assert outs[..|outs|] == outs;
  }

  method WriteTx(a: ByteBuffer, b: Transaction)
    modifies a`vec
    ensures a.vec == old(a.vec) + TxBytes(b)
  {
    hide LE, VarInt, InsBytes, OutsBytes;
    a.AppendInt(b.version, 4);
    WriteVarInt(a, |b.ins|);
    WriteIns(a, b.ins);
    WriteVarInt(a, |b.outs|);
    WriteOuts(a, b.outs);
    a.AppendInt(b.lockTime, 4);
    AppendSix(old(a.vec), LE(b.version, 4), VarInt(|b.ins|), InsBytes(b.ins), VarInt(|b.outs|), OutsBytes(b.outs),
              LE(b.lockTime, 4));
  }

  lemma AppendSix(v: Data, a: Data, b: Data, c: Data, d: Data, e: Data, f: Data)
    ensures v + a + b + c + d + e + f == v + (a + (b + (c + (d + (e + f)))))
  {
    var ef := e + f;
    var df := d + ef;
    var cf := c + df;
    var bf := b + cf;
    assert v + a + b + c + d + e + f == v + a + b + c + d + ef == v + a + b + c + df == v + a + b + cf == v + a + bf;
  }

  method ReadTx(a: ByteBuffer) returns (b: Transaction)
    modifies a`pointer
    ensures (b, a.pointer) == TakeTx(a.vec, old(a.pointer))
  {
    hide TakeU32, TakeVarInt, TakeTxIn, TakeTxOut;
    var version := ReadU32(a);
    var insize := ReadVarInt(a);
    var ins := [];
    ghost var p1 := a.pointer;
    for i := 0 to insize
      invariant (ins, a.pointer) == TakeIns(a.vec, p1, i)
    {
      var x := ReadTxIn(a);
      ins := ins + [x];
    }
    var outsize := ReadVarInt(a);
    var outs := [];
    ghost var p2 := a.pointer;
    for i := 0 to outsize
      invariant (outs, a.pointer) == TakeOuts(a.vec, p2, i)
    {
      var x := ReadTxOut(a);
      outs := outs + [x];
    }
    var lockTime := ReadU32(a);
    b := Transaction(version, ins, outs, lockTime);
  }

  method WriteBlock(a: ByteBuffer, b: BlockData)
    modifies a`vec
    ensures a.vec == old(a.vec) + BlockBytes(b)
  {
    hide LE, VarInt, TxsBytes;
    a.AppendInt(b.version, 4);
    a.AppendBinary(b.prevBlockHash);
    a.AppendBinary(b.merkleRootHash);
    a.AppendInt(b.time, 4);
    a.AppendInt(b.bits, 4);
    a.AppendInt(b.nonce, 4);
    AppendSix(old(a.vec), LE(b.version, 4), b.prevBlockHash, b.merkleRootHash,
              LE(b.time, 4), LE(b.bits, 4), LE(b.nonce, 4));
    assert a.vec == old(a.vec) + HeaderBytes(b);
    WriteVarInt(a, |b.tx|);
    WriteTxs(a, b.tx);
    assert a.vec == old(a.vec) + (HeaderBytes(b) + (VarInt(|b.tx|) + TxsBytes(b.tx)));
  }

  /** The loop over transactions. */
  method WriteTxs(a: ByteBuffer, tx: seq<Transaction>)
    modifies a`vec
    ensures a.vec == old(a.vec) + TxsBytes(tx)
  {
    hide TxsBytes, TxBytes;
    NoTxs([], 0);
    for i := 0 to |tx|
      invariant a.vec == old(a.vec) + TxsBytes(tx[..i])
    {
      WriteTx(a, tx[i]);
      TxsSnoc(tx[..i], tx[i]);
      assert tx[..i + 1] == tx[..i] + [tx[i]];
    }
    assert tx[..|tx|] == tx;
  }

  method ReadBlock(a: ByteBuffer) returns (b: BlockData)
    modifies a`pointer
    ensures (b, a.pointer) == TakeBlock(a.vec, old(a.pointer))
  {
    hide TakeU32, TakeBytes, TakeVarInt, TakeTx;
    var version := ReadU32(a);
    var prev := a.ReadBinary(32);
    var root := a.ReadBinary(32);
    var time := ReadU32(a);
    var bits := ReadU32(a);
    var nonce := ReadU32(a);
    var txcount := ReadVarInt(a);
    var tx := [];
    ghost var p := a.pointer;
    for i := 0 to txcount
      invariant (tx, a.pointer) == TakeTxs(a.vec, p, i)
    {
      var x := ReadTx(a);
      tx := tx + [x];
    }
    b := BlockData(version, prev, root, time, bits, nonce, tx);
  }
}
