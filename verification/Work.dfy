/** Work assembly: the coinbase and its two halves, the job notification, what a Stratum miner hashes
    from it, and the block the server hashes for a submission. */
module Work {
  import opened Bytes
  import opened Buffer
  import opened Codec
  import opened Merkle
  import opened Serialization
  import opened Blocks

  const OP_CHECKSIG: Byte := 0xAC

  function Zeros(n: nat): (s: Data)
    ensures |s| == n
  {
    seq(n, _ => 0)
  }

  // ---------------------------------------------------------------- the coinbase

  /** The coinbase of a template: the script is the height and eight bytes of extranonce. */
  function Coinbase(height: U32, pubkey: Data, value: I64, extranonce: Data): Transaction {
    Transaction(1,
                [TxIn(OutPoint(Zeros(32), 0xFFFF_FFFF), LE(height, 4) + extranonce, 0)],
                [TxOut(value, pubkey + [OP_CHECKSIG])],
                0)
  }

  function CreateCoinbaseTX(height: U32, pubkey: Data, value: I64): Transaction {
    Coinbase(height, pubkey, value, Zeros(8))
  }

  /** A transaction with script bytes 4..11 of its first input replaced. */
  function WithExtranonce(t: Transaction, en: Data): Transaction
    requires |t.ins| >= 1 && |t.ins[0].script| >= 12
  {
    var s := t.ins[0].script;
    t.(ins := t.ins[0 := t.ins[0].(script := s[..4] + en + s[12..])])
  }

  /** Everything the coinbase prints before, and after, the extranonce. */
  function CoinbaseHead(height: U32): Data {
    LE(1, 4) + (VarInt(1) + (Zeros(32) + (LE(0xFFFF_FFFF, 4) + (VarInt(12) + LE(height, 4)))))
  }

  function CoinbaseTail(pubkey: Data, value: I64): Data {
    LE(0, 4) + (VarInt(1) + (TxOutBytes(TxOut(value, pubkey + [OP_CHECKSIG])) + LE(0, 4)))
  }

  /** What follows the extranonce, byte by byte: the input's sequence, one output with the value and a script of the
      key and OP_CHECKSIG, the lock time. */
  lemma TailMeaning(pubkey: Data, value: I64)
    requires |pubkey| < 0xfc
    ensures CoinbaseTail(pubkey, value)
            == [0, 0, 0, 0, 1] + LE(value, 8) + [|pubkey| + 1] + pubkey + [0xAC] + [0, 0, 0, 0]
  {
    hide *;
    SmallLE();
    OneByteVarInt(1);
    OneByteVarInt(|pubkey| + 1);
    TailParts(pubkey, value);
    var v, k, z := LE(value, 8), pubkey, [0, 0, 0, 0];
    var n: Data := [|pubkey| + 1];
    assert z + ([1] + ((v + (n + (k + [0xAC]))) + z)) == [0, 0, 0, 0, 1] + v + n + k + [0xAC] + z;
  }

  lemma TailParts(pubkey: Data, value: I64)
    ensures CoinbaseTail(pubkey, value)
            == LE(0, 4) + (VarInt(1) + ((LE(value, 8) + (VarInt(|pubkey| + 1) + (pubkey + [0xAC]))) + LE(0, 4)))
  {
    hide LE, VarInt;
  }

  lemma OneByteVarInt(n: nat)
    requires n < 0xfd
    ensures VarInt(n) == [n]
  {
    assert LE(n / 256, 0) == [];
  }

  /** What precedes it: version 1, one input, the null outpoint, and a script of twelve bytes that starts with the
      height. */
  lemma HeadMeaning(height: U32)
    ensures CoinbaseHead(height)
            == [1, 0, 0, 0, 1] + seq(32, _ => 0) + [0xFF, 0xFF, 0xFF, 0xFF, 12] + LE(height, 4)
  {
    hide *;
    SmallLE();
    OneByteVarInt(1);
    OneByteVarInt(12);
    HeadParts(height);
    var z, h: Data := seq(32, _ => 0), LE(height, 4);
    var f: Data := [0xFF, 0xFF, 0xFF, 0xFF];
    assert [1, 0, 0, 0] + ([1] + (z + (f + ([12] + h)))) == [1, 0, 0, 0, 1] + z + [0xFF, 0xFF, 0xFF, 0xFF, 12] + h;
  }

  lemma HeadParts(height: U32)
    ensures CoinbaseHead(height)
            == LE(1, 4) + (VarInt(1) + (seq(32, _ => 0) + (LE(0xFFFF_FFFF, 4) + (VarInt(12) + LE(height, 4)))))
  {
    hide LE, VarInt;
  }

  lemma SmallLE()
    ensures LE(0, 4) == [0, 0, 0, 0] && LE(1, 4) == [1, 0, 0, 0] && LE(0xFFFF_FFFF, 4) == [0xFF, 0xFF, 0xFF, 0xFF]
  {
    assert LE(0xFF, 1) == [0xFF];
    assert LE(0xFFFF, 2) == [0xFF, 0xFF];
    assert LE(0xFF_FFFF, 3) == [0xFF, 0xFF, 0xFF];
    assert LE(0, 0) == [];
    assert LE(0, 1) == [0];
    assert LE(0, 2) == [0, 0];
    assert LE(0, 3) == [0, 0, 0];
  }

  lemma HeadLength(height: U32)
    ensures |CoinbaseHead(height)| == 46
  {
  }

  lemma SingleBytes(i: TxIn, o: TxOut)
    ensures InsBytes([i]) == TxInBytes(i) && OutsBytes([o]) == TxOutBytes(o)
  {
    assert [i][..0] == [] && [o][..0] == [];
    assert InsBytes([]) == [] && OutsBytes([]) == [];
  }

  lemma CoinbaseInput(height: U32, en: Data)
    requires |en| == 8
    ensures TxInBytes(TxIn(OutPoint(Zeros(32), 0xFFFF_FFFF), LE(height, 4) + en, 0))
            == (Zeros(32) + (LE(0xFFFF_FFFF, 4) + (VarInt(12) + LE(height, 4)))) + (en + LE(0, 4))
  {
    hide LE, VarInt, Zeros;
    var a, b, c, d, e := Zeros(32), LE(0xFFFF_FFFF, 4), VarInt(12), LE(height, 4), LE(0, 4);
    var x, y := (a + b) + ((c + (d + en)) + e), (a + (b + (c + d))) + (en + e);
    assert x == y;
  }

  /** The split: the template coinbase prints as a 46-byte head, the extranonce, and a tail. */
  lemma CoinbaseLayout(height: U32, pubkey: Data, value: I64, en: Data)
    requires |en| == 8
    ensures TxBytes(Coinbase(height, pubkey, value, en))
            == CoinbaseHead(height) + (en + CoinbaseTail(pubkey, value))
  {
    hide LE, VarInt, Zeros, InsBytes, OutsBytes, TxInBytes, TxOutBytes;
    var t := Coinbase(height, pubkey, value, en);
    SingleBytes(t.ins[0], t.outs[0]);
    CoinbaseInput(height, en);
    var v, one, a, z, o := LE(1, 4), VarInt(1), Zeros(32) + (LE(0xFFFF_FFFF, 4) + (VarInt(12) + LE(height, 4))),
                           LE(0, 4), TxOutBytes(t.outs[0]);
    assert v + (one + ((a + (en + z)) + (one + (o + z)))) == (v + (one + a)) + (en + (z + (one + (o + z))));
  }

  /** GetJob cuts the printed coinbase at byte 46 and drops eight bytes. */
  function Cut(coinbase: Data): (Data, Data)
    requires |coinbase| >= 54
  {
    (coinbase[..46], coinbase[54..])
  }

  lemma CutTemplate(height: U32, pubkey: Data, value: I64)
    ensures |TxBytes(CreateCoinbaseTX(height, pubkey, value))| >= 54
    ensures Cut(TxBytes(CreateCoinbaseTX(height, pubkey, value)))
            == (CoinbaseHead(height), CoinbaseTail(pubkey, value))
  {
    hide TxBytes, CoinbaseHead, CoinbaseTail, Zeros;
    CoinbaseLayout(height, pubkey, value, Zeros(8));
    HeadLength(height);
    var head, mid, tail := CoinbaseHead(height), Zeros(8), CoinbaseTail(pubkey, value);
    var x := head + (mid + tail);
    assert x[..46] == head && x[54..] == tail;
  }

  ghost predicate IsTemplateCoinbase(t: Transaction) {
    exists height: U32, pubkey: Data, value: I64 ::
      |pubkey| < TWO64 - 1 && t == CreateCoinbaseTX(height, pubkey, value)
  }

  /** Splicing two 4-byte extranonces between the halves: the bytes parse to the template coinbase
      with only script bytes 4..11 replaced, and that transaction prints as the same bytes. */
  lemma CoinbaseSplice(t: Transaction, en1: Data, en2: Data)
    requires IsTemplateCoinbase(t) && |en1| == 4 && |en2| == 4
    ensures |TxBytes(t)| >= 54 && |t.ins| == 1 && |t.ins[0].script| == 12
    ensures
      var (c1, c2) := Cut(TxBytes(t));
      var bytes := c1 + en1 + en2 + c2;
      && TakeTx(bytes, 0) == (WithExtranonce(t, en1 + en2), |bytes|)
      && TxBytes(WithExtranonce(t, en1 + en2)) == bytes
  {
    var height: U32, pubkey: Data, value: I64 :|
      |pubkey| < TWO64 - 1 && t == CreateCoinbaseTX(height, pubkey, value);
    SpliceAt(height, pubkey, value, en1, en2);
  }

  lemma SpliceAt(height: U32, pubkey: Data, value: I64, en1: Data, en2: Data)
    requires |pubkey| < TWO64 - 1 && |en1| == 4 && |en2| == 4
    ensures
      var t := CreateCoinbaseTX(height, pubkey, value);
      && |TxBytes(t)| >= 54 && |t.ins| == 1 && |t.ins[0].script| == 12
      && var (c1, c2) := Cut(TxBytes(t));
         var bytes := c1 + en1 + en2 + c2;
      && TakeTx(bytes, 0) == (WithExtranonce(t, en1 + en2), |bytes|)
      && TxBytes(WithExtranonce(t, en1 + en2)) == bytes
  {
    hide TxBytes, TakeTx, CoinbaseHead, CoinbaseTail, Zeros, LE, At;
    var t, u := CreateCoinbaseTX(height, pubkey, value), Coinbase(height, pubkey, value, en1 + en2);
    CutTemplate(height, pubkey, value);
    CoinbaseLayout(height, pubkey, value, en1 + en2);
    var head, tail := CoinbaseHead(height), CoinbaseTail(pubkey, value);
    var bytes := head + en1 + en2 + tail;
    assert bytes == head + ((en1 + en2) + tail);
    assert WithExtranonce(t, en1 + en2) == u by {
      var s := t.ins[0].script;
      assert s[..4] + (en1 + en2) + s[12..] == LE(height, 4) + (en1 + en2);
      assert t.ins[0 := u.ins[0]] == u.ins;
    }
    WholeAt(u, bytes);
  }

  lemma WholeAt(u: Transaction, bytes: Data)
    requires TxOk(u) && bytes == TxBytes(u)
    ensures TakeTx(bytes, 0) == (u, |bytes|)
  {
    hide *;
    AtIsSlice(bytes, 0, bytes);
    assert bytes[0..0 + |bytes|] == bytes;
    TxAt(bytes, 0, u);
  }

  /** Different extranonce pairs give different coinbases, hence different printed bytes. */
  lemma SpliceInjective(t: Transaction, en1: Data, en2: Data, en1': Data, en2': Data)
    requires IsTemplateCoinbase(t) && |en1| == |en2| == |en1'| == |en2'| == 4
    requires |t.ins| >= 1 && |t.ins[0].script| >= 12
    requires TxBytes(WithExtranonce(t, en1 + en2)) == TxBytes(WithExtranonce(t, en1' + en2'))
    ensures en1 == en1' && en2 == en2'
  {
    hide TxBytes, Cut;
    CoinbaseSplice(t, en1, en2);
    CoinbaseSplice(t, en1', en2');
    var (c1, c2) := Cut(TxBytes(t));
    var x, y, k := c1 + en1 + en2 + c2, c1 + en1' + en2' + c2, |c1|;
    assert x[k..k + 4] == en1 && x[k + 4..k + 8] == en2;
    assert y[k..k + 4] == en1' && y[k + 4..k + 8] == en2';
  }

  // ---------------------------------------------------------------- the job notification

  /** What a template must satisfy for jobs to be built from it. */
  ghost predicate TemplateOk(b: BlockData) {
    |b.tx| >= 1 && IsTemplateCoinbase(b.tx[0]) && |b.prevBlockHash| == 32 && b.bits >= 0x0300_0000
  }

  datatype Notify = Notify(
    jobid: U32, prevhash: string, coinbase1: string, coinbase2: string, branch: seq<string>,
    version: string, bits: string, ntime: string, clean: bool)

  /** Eight words read from the reversed hash, written back in the opposite order. */
  function PrevHashField(prev: Data): Data {
    WordsTurned(Reverse(prev))
  }

  function WordsTurned(r: Data): Data {
    var (w7, p7) := TakeU32(r, 0);
    var (w6, p6) := TakeU32(r, p7);
    var (w5, p5) := TakeU32(r, p6);
    var (w4, p4) := TakeU32(r, p5);
    var (w3, p3) := TakeU32(r, p4);
    var (w2, p2) := TakeU32(r, p3);
    var (w1, p1) := TakeU32(r, p2);
    var (w0, p0) := TakeU32(r, p1);
    LE(w0, 4) + (LE(w1, 4) + (LE(w2, 4) + (LE(w3, 4) + (LE(w4, 4) + (LE(w5, 4) + (LE(w6, 4) + LE(w7, 4)))))))
  }

  /** Every 4-byte word reversed in place: what a miner undoes. */
  function WordSwap(s: Data): Data {
    if |s| < 4 then s else Reverse(s[..4]) + WordSwap(s[4..])
  }

  lemma {:induction false} WordSwapTwice(s: Data)
    ensures |WordSwap(s)| == |s|
    ensures WordSwap(WordSwap(s)) == s
  {
    if |s| >= 4 {
      WordSwapTwice(s[4..]);
      var t := WordSwap(s);
      assert t[..4] == Reverse(s[..4]) && t[4..] == WordSwap(s[4..]);
      ReverseTwice(s[..4]);
      assert s == s[..4] + s[4..];
    }
  }

  lemma WordOf(r: Data, p: nat)
    requires p + 4 <= |r|
    ensures TakeU32(r, p).1 == p + 4
    ensures LE(TakeU32(r, p).0, 4) == r[p..p + 4]
  {
    LEOfFromLE(r[p..p + 4]);
  }

  /** The words of r, last word first. */
  function WordsDown(r: Data): Data {
    if |r| < 4 then [] else r[|r| - 4..] + WordsDown(r[..|r| - 4])
  }

  lemma {:induction false} WordsDownOfReverse(s: Data)
    requires |s| % 4 == 0
    ensures WordsDown(Reverse(s)) == WordSwap(s)
  {
    if |s| > 0 {
      var r := Reverse(s);
      ReverseSplit(s, 4);
      WordsDownOfReverse(s[4..]);
    }
  }

  lemma ReverseSplit(s: Data, k: nat)
    requires k <= |s|
    ensures Reverse(s)[|s| - k..] == Reverse(s[..k]) && Reverse(s)[..|s| - k] == Reverse(s[k..])
  {
  }

  lemma WordDown(r: Data, k: nat)
    requires 4 <= k <= |r|
    ensures WordsDown(r[..k]) == r[k - 4..k] + WordsDown(r[..k - 4])
  {
    assert r[..k][..k - 4] == r[..k - 4] && r[..k][k - 4..] == r[k - 4..k];
  }

  lemma EightWordsDown(r: Data)
    requires |r| == 32
    ensures WordsDown(r)
            == r[28..32] + (r[24..28] + (r[20..24] + (r[16..20] + (r[12..16] + (r[8..12] + (r[4..8] + r[0..4]))))))
  {
    hide *;
    assert r[..32] == r;
    WordDown(r, 32);
    WordDown(r, 28);
    WordDown(r, 24);
    WordDown(r, 20);
    WordDown(r, 16);
    WordDown(r, 12);
    WordDown(r, 8);
    WordDown(r, 4);
    NoWords(r[..0]);
  }

  lemma NoWords(r: Data)
    requires |r| == 0
    ensures WordsDown(r) == []
  {
  }

  /** The field in the message is the previous hash with every word byte-swapped. */
  lemma PrevHashFieldIsWordSwap(prev: Data)
    requires |prev| == 32
    ensures PrevHashField(prev) == WordSwap(prev)
  {
    hide *;
    PrevHashFieldIs(prev);
    EightWordsTurned(Reverse(prev));
    EightWordsDown(Reverse(prev));
    WordsDownOfReverse(prev);
  }

  lemma PrevHashFieldIs(prev: Data)
    ensures PrevHashField(prev) == WordsTurned(Reverse(prev))
  {
  }

  lemma EightWordsTurned(r: Data)
    requires |r| == 32
    ensures WordsTurned(r)
            == r[28..32] + (r[24..28] + (r[20..24] + (r[16..20] + (r[12..16] + (r[8..12] + (r[4..8] + r[0..4]))))))
  {
    hide TakeU32, LE;
    WordOf(r, 0);
    WordOf(r, 4);
    WordOf(r, 8);
    WordOf(r, 12);
    WordOf(r, 16);
    WordOf(r, 20);
    WordOf(r, 24);
    WordOf(r, 28);
  }

  function HexAll(xs: seq<Data>): (r: seq<string>)
    ensures |r| == |xs|
    ensures forall i :: 0 <= i < |xs| ==> r[i] == ToHex(xs[i])
  {
    seq(|xs|, i requires 0 <= i < |xs| => ToHex(xs[i]))
  }

  function UnhexAll(xs: seq<string>): (r: seq<Data>)
    ensures |r| == |xs|
    ensures forall i :: 0 <= i < |xs| ==> r[i] == FromHex(xs[i])
  {
    seq(|xs|, i requires 0 <= i < |xs| => FromHex(xs[i]))
  }

  lemma UnhexHexAll(xs: seq<Data>)
    ensures UnhexAll(HexAll(xs)) == xs
  {
    hide *;
    forall i | 0 <= i < |xs|
      ensures UnhexAll(HexAll(xs))[i] == xs[i]
    {
      FromHexToHex(xs[i]);
    }
  }

  /** The mining.notify parameters for a template. */
  function NotifyOf(H: HashFn, jobid: U32, b: BlockData, clean: bool): Notify
    requires |b.tx| >= 1 && |TxBytes(b.tx[0])| >= 54
  {
    var (c1, c2) := Cut(TxBytes(b.tx[0]));
    Notify(jobid, ToHex(PrevHashField(b.prevBlockHash)), ToHex(c1), ToHex(c2),
           HexAll(Branch(Flat(H, Leaves(H, b.tx)), |b.tx|)),
           ToHex(Reverse(LE(b.version, 4))), ToHex(Reverse(LE(b.bits, 4))), ToHex(Reverse(LE(b.time, 4))), clean)
  }

  // ---------------------------------------------------------------- the miner

  /** The 80 bytes a Stratum miner hashes, from the notification, the subscription's extranonce and its
      own extranonce2, ntime and nonce texts. */
  function MinerHeader(H: HashFn, n: Notify, en1: string, en2: string, ntime: string, nonce: string): Data {
    var coinbase := FromHex(n.coinbase1) + FromHex(en1) + FromHex(en2) + FromHex(n.coinbase2);
    var root := Fold(H, H(coinbase), UnhexAll(n.branch));
    Reverse(FromHex(n.version)) + (WordSwap(FromHex(n.prevhash)) + (root +
    (Reverse(FromHex(ntime)) + (Reverse(FromHex(n.bits)) + Reverse(FromHex(nonce))))))
  }

  // ---------------------------------------------------------------- the server

  /** The block a submission stands for: extranonces in the coinbase, the root of the full tree over
      its own transactions, and the submitted time and nonce (in header byte order). */
  function Candidate(H: HashFn, b: BlockData, en1: U32, en2: Data, time: Data, nonce: Data): BlockData
    requires |b.tx| >= 1 && |b.tx[0].ins| >= 1 && |b.tx[0].ins[0].script| >= 12
    requires |en2| == 4 && |time| == 4 && |nonce| == 4
  {
    var tx := b.tx[0 := WithExtranonce(b.tx[0], LE(en1, 4) + en2)];
    Pow256Values();
    b.(tx := tx, merkleRootHash := TxRoot(H, tx), time := FromLE(time), nonce := FromLE(nonce))
  }

  lemma TemplateShape(b: BlockData)
    requires TemplateOk(b)
    ensures |TxBytes(b.tx[0])| >= 54 && |b.tx[0].ins| == 1 && |b.tx[0].ins[0].script| == 12
  {
    hide TxBytes, Cut, TakeTx, WithExtranonce;
    CoinbaseSplice(b.tx[0], Zeros(4), Zeros(4));
  }

  /** The root a miner folds is the root of the full tree over the submitted block's transactions. */
  lemma MinerRoot(H: HashFn, b: BlockData, en1: U32, en2: Data)
    requires TemplateOk(b) && |en2| == 4
    requires |TxBytes(b.tx[0])| >= 54 && |b.tx[0].ins| == 1 && |b.tx[0].ins[0].script| == 12
    ensures
      var (c1, c2) := Cut(TxBytes(b.tx[0]));
      Fold(H, H(c1 + LE(en1, 4) + en2 + c2), Branch(Flat(H, Leaves(H, b.tx)), |b.tx|))
      == TxRoot(H, b.tx[0 := WithExtranonce(b.tx[0], LE(en1, 4) + en2)])
  {
    hide TxBytes, Cut, TakeTx, WithExtranonce, Flat, Branch, Fold, Root, LE, IsTemplateCoinbase;
    var t := WithExtranonce(b.tx[0], LE(en1, 4) + en2);
    CoinbaseSplice(b.tx[0], LE(en1, 4), en2);
    LeavesOfPatched(H, b.tx, t);
    FoldIsRoot(H, Leaves(H, b.tx), TxHash(H, t));
  }

  /** Work handed out is work checked: for every template, extranonce pair, ntime and nonce, the header
      the server hashes for a submission is byte for byte the header the miner assembled from the
      notification. */
  lemma HeaderAgreement(H: HashFn, jobid: U32, b: BlockData, clean: bool,
                        en1: U32, en2: string, ntime: string, nonce: string)
    requires TemplateOk(b)
    requires |FromHex(en2)| == 4 && |FromHex(ntime)| == 4 && |FromHex(nonce)| == 4
    ensures |TxBytes(b.tx[0])| >= 54 && |b.tx[0].ins| == 1 && |b.tx[0].ins[0].script| == 12
    ensures HeaderBytes(Candidate(H, b, en1, FromHex(en2), Reverse(FromHex(ntime)), Reverse(FromHex(nonce))))
            == MinerHeader(H, NotifyOf(H, jobid, b, clean), ToHex(LE(en1, 4)), en2, ntime, nonce)
  {
    hide TxBytes, Cut, WithExtranonce, Flat, Branch, Fold, TxRoot, LE, FromLE, FromHex, ToHex, Reverse,
         PrevHashField, WordSwap, IsTemplateCoinbase, Pow256;
    TemplateShape(b);
    var (c1, c2) := Cut(TxBytes(b.tx[0]));
    FromHexToHex(c1);
    FromHexToHex(c2);
    FromHexToHex(LE(en1, 4));
    UnhexHexAll(Branch(Flat(H, Leaves(H, b.tx)), |b.tx|));
    MinerRoot(H, b, en1, FromHex(en2));
    ReversedField(b.version);
    ReversedField(b.bits);
    PrevHashFieldIsWordSwap(b.prevBlockHash);
    FromHexToHex(PrevHashField(b.prevBlockHash));
    WordSwapTwice(b.prevBlockHash);
    LEOfFromLE(Reverse(FromHex(ntime)));
    LEOfFromLE(Reverse(FromHex(nonce)));
  }

  lemma ReversedField(n: U32)
    ensures Reverse(FromHex(ToHex(Reverse(LE(n, 4))))) == LE(n, 4)
  {
    hide *;
    FromHexToHex(Reverse(LE(n, 4)));
    ReverseTwice(LE(n, 4));
  }

  /** The coinbase bytes are spliced in a buffer and parsed again. */
  method SpliceCoinbase(ghost t: Transaction, coinbase1: Data, coinbase2: Data,
                        extranonce: U32, extranonce2: Data) returns (coinbasetx: Transaction)
    requires IsTemplateCoinbase(t)
    requires |TxBytes(t)| >= 54 && (coinbase1, coinbase2) == Cut(TxBytes(t)) && |extranonce2| == 4
    ensures |t.ins| == 1 && |t.ins[0].script| == 12
    ensures coinbasetx == WithExtranonce(t, LE(extranonce, 4) + extranonce2)
  {
    hide *;
    var coinbasebuf := new ByteBuffer();
    coinbasebuf.AppendBinary(coinbase1);
    coinbasebuf.AppendInt(extranonce, 4);
    coinbasebuf.AppendBinary(extranonce2);
    coinbasebuf.AppendBinary(coinbase2);
    CoinbaseSplice(t, LE(extranonce, 4), extranonce2);
    assert coinbasebuf.vec == coinbase1 + LE(extranonce, 4) + extranonce2 + coinbase2;
    coinbasetx := ReadTx(coinbasebuf);
  }

  /** What OnMiningSubmit does to assemble the block: copy the template, splice and re-parse the coinbase,
      patch the tree. Only the fresh copy is written. */
  method AssembleShare(H: HashFn, template: Block, coinbase1: Data, coinbase2: Data,
                       extranonce: U32, extranonce2: Data, time: Data, nonce: Data) returns (block: Block)
    requires template.Built(H) && TemplateOk(template.Value())
    requires |TxBytes(template.tx[0])| >= 54 && (coinbase1, coinbase2) == Cut(TxBytes(template.tx[0]))
    requires |extranonce2| == 4 && |time| == 4 && |nonce| == 4
    ensures fresh(block) && block.Built(H)
    ensures |template.tx[0].ins| == 1 && |template.tx[0].ins[0].script| == 12
    ensures block.Value() == Candidate(H, template.Value(), extranonce, extranonce2, time, nonce)
  {
    hide TxBytes, Cut, TakeTx, WithExtranonce, Flat, FlatSize, PatchSpine, Root, LE, FromLE, IsTemplateCoinbase,
         TakeU32;
    block := new Block.Copy(template);
    var timebuf := new ByteBuffer.FromBinary(time);
    var noncebuf := new ByteBuffer.FromBinary(nonce);
    block.time := ReadU32(timebuf);
    block.nonce := ReadU32(noncebuf);
    WholeU32(time);
    WholeU32(nonce);
    var coinbasetx := SpliceCoinbase(template.tx[0], coinbase1, coinbase2, extranonce, extranonce2);
    block.tx := block.tx[0 := coinbasetx];
    block.RebuildMerkleTree(H);
    RebuildRefinesBuild(H, template.tx, coinbasetx);
    FlatEndsInRoot(H, Leaves(H, block.tx));
  }

  lemma WholeU32(s: Data)
    requires |s| == 4
    ensures TakeU32(s, 0).0 == FromLE(s)
  {
    assert s[0..4] == s;
  }
}
