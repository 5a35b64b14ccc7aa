/** The block object: header fields, transactions and the flat Merkle vector kept beside them. */
module Blocks {
  import opened Bytes
  import opened Buffer
  import opened Codec
  import opened Merkle
  import opened Serialization

  function TxHash(H: HashFn, t: Transaction): Data {
    H(TxBytes(t))
  }

  function Leaves(H: HashFn, tx: seq<Transaction>): (hs: seq<Data>)
    ensures |hs| == |tx|
    ensures forall i :: 0 <= i < |tx| ==> hs[i] == TxHash(H, tx[i])
  {
    seq(|tx|, i requires 0 <= i < |tx| => TxHash(H, tx[i]))
  }

  /** The Merkle root of a transaction list. */
  function TxRoot(H: HashFn, tx: seq<Transaction>): Data
    requires |tx| >= 1
  {
    Root(H, Leaves(H, tx))
  }

  method GetTxHash(H: HashFn, t: Transaction) returns (h: Data)
    ensures h == TxHash(H, t)
  {
    var buf := new ByteBuffer();
    WriteTx(buf, t);
    assert buf.vec == TxBytes(t);
    h := H(buf.vec);
  }

  lemma LeavesOfPatched(H: HashFn, tx: seq<Transaction>, t: Transaction)
    requires |tx| >= 1
    ensures Leaves(H, tx[0 := t]) == Leaves(H, tx)[0 := TxHash(H, t)]
  {
  }

  /** If a tree was built for a list and only transaction 0 changes, the left-spine patch leaves the
      whole vector, and so its last entry, as a fresh build would. */
  lemma RebuildRefinesBuild(H: HashFn, tx: seq<Transaction>, t: Transaction)
    requires |tx| >= 1
    ensures PatchSpine(H, Flat(H, Leaves(H, tx)), |tx|, TxHash(H, t)) == Flat(H, Leaves(H, tx[0 := t]))
  {
    hide *;
    LeavesOfPatched(H, tx, t);
    PatchIsRebuild(H, Leaves(H, tx), TxHash(H, t));
  }

  class Block {
    var version: U32
    var prevBlockHash: Data
    var merkleRootHash: Data
    var time: U32
    var bits: U32
    var nonce: U32
    var tx: seq<Transaction>
    var merkleTree: seq<Data>

    constructor (version: U32, prevBlockHash: Data, time: U32, bits: U32, tx: seq<Transaction>)
      ensures Value() == BlockData(version, prevBlockHash, [], time, bits, 0, tx)
    {
      this.version, this.prevBlockHash, this.merkleRootHash := version, prevBlockHash, [];
      this.time, this.bits, this.nonce, this.tx, this.merkleTree := time, bits, 0, tx, [];
    }

    /** The copy a submission works on. */
    constructor Copy(b: Block)
      ensures Value() == b.Value() && merkleTree == b.merkleTree
    {
      version, prevBlockHash, merkleRootHash := b.version, b.prevBlockHash, b.merkleRootHash;
      time, bits, nonce, tx, merkleTree := b.time, b.bits, b.nonce, b.tx, b.merkleTree;
    }

    function Value(): BlockData
      reads this
    {
      BlockData(version, prevBlockHash, merkleRootHash, time, bits, nonce, tx)
    }

    /** The vector and the root belong to the current transactions. */
    ghost predicate Built(H: HashFn)
      reads this
    {
      |tx| >= 1 && merkleTree == Flat(H, Leaves(H, tx)) && merkleRootHash == TxRoot(H, tx)
    }

    method BuildMerkleTree(H: HashFn)
      requires |tx| >= 1
      modifies this`merkleTree, this`merkleRootHash
      ensures Built(H)
    {
      hide TxHash, TxBytes, Flat, FlatSize, NextLevel, Root;
      merkleTree := [];
      ghost var leaves := Leaves(H, tx);
      for i := 0 to |tx|
        invariant merkleTree == leaves[..i]
      {
        var h := GetTxHash(H, tx[i]);
        merkleTree := merkleTree + [h];
      }
      var j, size := 0, |tx|;
      assert merkleTree == leaves && merkleTree[0..] == leaves;
      while size > 1
        invariant size >= 1 && |merkleTree| == j + size
        invariant merkleTree[..j] + Flat(H, merkleTree[j..]) == Flat(H, leaves)
      {
        FlatPushed(H, merkleTree, j);
        PushLevel(H, j, size);
        j, size := j + size, (size + 1) / 2;
      }
      FlatUnfold(H, merkleTree[j..]);
      assert merkleTree == merkleTree[..j] + Flat(H, merkleTree[j..]);
      FlatEndsInRoot(H, leaves);
      merkleRootHash := merkleTree[|merkleTree| - 1];
    }

    /** The inner loop: hash the level of `size` nodes at j pairwise, appending the next level. */
    method PushLevel(H: HashFn, j: nat, size: nat)
      requires size > 1 && |merkleTree| == j + size
      modifies this`merkleTree
      ensures merkleTree == old(merkleTree) + NextLevel(H, old(merkleTree)[j..])
    {
      hide *;
      ghost var below, level := merkleTree, merkleTree[j..];
      var i := 0;
      ghost var k := 0;
      while i < size
        invariant i == 2 * k && i <= size + 1
        invariant merkleTree == below + NextLevel(H, level)[..k]
      {
        var i2 := Min(i + 1, size - 1);
        PushNode(H, below, j, k);
        assert merkleTree[j + i] == below[j + i] && merkleTree[j + i2] == below[j + i2];
        merkleTree := merkleTree + [H(merkleTree[j + i] + merkleTree[j + i2])];
        i, k := i + 2, k + 1;
      }
      assert NextLevel(H, level)[..k] == NextLevel(H, level);
    }

    /** Writes one node per level, for any vector of the right size. */
    method RebuildMerkleTree(H: HashFn)
      requires |tx| >= 1 && |merkleTree| == FlatSize(|tx|)
      modifies this`merkleTree, this`merkleRootHash
      ensures merkleTree == PatchSpine(H, old(merkleTree), |tx|, TxHash(H, tx[0]))
      ensures merkleRootHash == merkleTree[|merkleTree| - 1]
    {
      hide *;
      var h := GetTxHash(H, tx[0]);
      ghost var done := PatchSpine(H, merkleTree, |tx|, h);
      merkleTree := merkleTree[0 := h];
      var j, size := 0, |tx|;
      PatchIgnoresHead(H, old(merkleTree), size, h, h);
      while size > 1
        invariant size >= 1 && |merkleTree| == j + FlatSize(size)
        invariant merkleTree[..j] + PatchSpine(H, merkleTree[j..], size, merkleTree[j]) == done
      {
        PatchUnfold(H, merkleTree[j..], size, merkleTree[j]);
        ghost var was := merkleTree;
        merkleTree := merkleTree[j + size := H(merkleTree[j] + merkleTree[j + 1])];
        SpineStep(H, was, j, size);
        j, size := j + size, (size + 1) / 2;
      }
      PatchUnfold(H, merkleTree[j..], size, merkleTree[j]);
      assert merkleTree == merkleTree[..j] + [merkleTree[j]];
      merkleRootHash := merkleTree[|merkleTree| - 1];
    }

    method GetHash(H: HashFn) returns (h: Hash256)
      ensures h == H(HeaderBytes(Value()))
    {
      hide LE;
      var buf := new ByteBuffer();
      buf.AppendInt(version, 4);
      buf.AppendBinary(prevBlockHash);
      buf.AppendBinary(merkleRootHash);
      buf.AppendInt(time, 4);
      buf.AppendInt(bits, 4);
      buf.AppendInt(nonce, 4);
      assert buf.vec == HeaderBytes(Value());
      h := H(buf.vec);
    }
  }

  /** The patch overwrites entry 0, whatever it was. */
  lemma PatchIgnoresHead(H: HashFn, tree: seq<Data>, n: nat, x: Data, h: Data)
    requires n >= 1 && |tree| == FlatSize(n)
    ensures PatchSpine(H, tree[0 := x], n, h) == PatchSpine(H, tree, n, h)
  {
    if n > 1 {
      var t := tree[0 := x];
      assert t[1..n] == tree[1..n] && t[n..] == tree[n..];
    }
  }

  /** One turn of the rebuild loop keeps what the patch of the whole vector will be. */
  lemma SpineStep(H: HashFn, tree: seq<Data>, j: nat, n: nat)
    requires n > 1 && |tree| == j + FlatSize(n)
    ensures
      var h := H(tree[j] + tree[j + 1]);
      var t := tree[j + n := h];
      t[..j + n] + PatchSpine(H, t[j + n..], (n + 1) / 2, h) == tree[..j] + PatchSpine(H, tree[j..], n, tree[j])
  {
    hide *;
    PatchUnfold(H, tree[j..], n, tree[j]);
    var h, m := H(tree[j] + tree[j + 1]), (n + 1) / 2;
    var t, sub := tree[j + n := h], tree[j..];
    assert sub[1] == tree[j + 1] && sub[n..] == tree[j + n..];
    assert t[j + n..] == sub[n..][0 := h];
    PatchIgnoresHead(H, sub[n..], m, h, h);
    assert t[..j + n] == tree[..j] + ([tree[j]] + sub[1..n]);
  }
}
