/** What a header commits to: as long as no two different strings hashed for the blocks at hand have the same
    hash, equal headers mean equal blocks, transactions included. */
module Commitment {
  import opened Bytes
  import opened Buffer
  import opened Codec
  import opened Merkle
  import opened Blocks
  import opened Work

  /** No two different strings of the set have the same hash. */
  ghost predicate CollisionFree(H: HashFn, S: set<Data>) {
    forall x, y :: x in S && y in S && H(x) == H(y) ==> x == y
  }

  // ---------------------------------------------------------------- what a tree hashes

  /** The string hashed for node i of the next level. */
  function PairInput(hs: seq<Data>, i: nat): Data
    requires 2 * i < |hs|
  {
    hs[2 * i] + hs[Min(2 * i + 1, |hs| - 1)]
  }

  function LevelInputs(hs: seq<Data>): set<Data> {
    set i | 0 <= i < (|hs| + 1) / 2 :: PairInput(hs, i)
  }

  /** Every string hashed above the leaves. */
  function Hashed(H: HashFn, hs: seq<Data>): set<Data>
    requires |hs| >= 1
    decreases |hs|
  {
    if |hs| == 1 then {} else LevelInputs(hs) + Hashed(H, NextLevel(H, hs))
  }

  ghost predicate Hashes(hs: seq<Data>) {
    forall i :: 0 <= i < |hs| ==> |hs[i]| == 32
  }

  ghost predicate Distinct<T>(xs: seq<T>) {
    forall i, j :: 0 <= i < j < |xs| ==> xs[i] != xs[j]
  }

  lemma HashedUnfold(H: HashFn, hs: seq<Data>)
    requires |hs| >= 2
    ensures LevelInputs(hs) <= Hashed(H, hs) && Hashed(H, NextLevel(H, hs)) <= Hashed(H, hs)
    ensures forall i :: 0 <= i < |NextLevel(H, hs)| ==>
              2 * i < |hs| && PairInput(hs, i) in Hashed(H, hs) && NextLevel(H, hs)[i] == H(PairInput(hs, i))
    ensures Hashes(NextLevel(H, hs))
    ensures Root(H, hs) == Root(H, NextLevel(H, hs)) && Height(|hs|) == 1 + Height(|NextLevel(H, hs)|)
  {
    forall i | 0 <= i < |NextLevel(H, hs)|
      ensures PairInput(hs, i) in LevelInputs(hs)
    {
    }
  }

  // ---------------------------------------------------------------- padded lists

  /** For each of the 2^height places under the root, the leaf that ends up there: the last node of an odd level
      stands in for its missing neighbour, and so do all the leaves below it. */
  function Places(n: nat): (ps: seq<nat>)
    requires n >= 1
    ensures Below(ps, n)
    decreases n
  {
    if n == 1 then [0] else Spread(Places((n + 1) / 2), n)
  }

  ghost predicate Below(ps: seq<nat>, n: nat) {
    forall j :: 0 <= j < |ps| ==> ps[j] < n
  }

  /** Both children of every node named, in a level of n. */
  function Spread(up: seq<nat>, n: nat): (ps: seq<nat>)
    requires n >= 1 && Below(up, (n + 1) / 2)
    ensures Below(ps, n)
  {
    if up == [] then []
    else
      var u := up[|up| - 1];
      Spread(up[..|up| - 1], n) + [2 * u, Min(2 * u + 1, n - 1)]
  }

  ghost predicate Children(up: seq<nat>, ps: seq<nat>, n: nat) {
    && |ps| == 2 * |up|
    && forall j :: 0 <= j < |up| ==> ps[2 * j] == 2 * up[j] && ps[2 * j + 1] == Min(2 * up[j] + 1, n - 1)
  }

  lemma {:induction false} SpreadAt(up: seq<nat>, n: nat)
    requires n >= 1 && Below(up, (n + 1) / 2)
    ensures Children(up, Spread(up, n), n)
  {
    if up != [] {
      SpreadAt(up[..|up| - 1], n);
    }
  }

  /** The list with every duplicate the tree makes written out. */
  function Padded<T>(xs: seq<T>): (r: seq<T>)
    requires |xs| >= 1
    ensures |r| == |Places(|xs|)|
    ensures forall j :: 0 <= j < |r| ==> r[j] == xs[Places(|xs|)[j]]
  {
    var ps := Places(|xs|);
    seq(|ps|, j requires 0 <= j < |ps| => xs[ps[j]])
  }

  lemma PlacesUnfold(n: nat)
    requires n >= 2
    ensures Children(Places((n + 1) / 2), Places(n), n)
  {
    hide Children, Spread;
    SpreadAt(Places((n + 1) / 2), n);
  }

  /** A list is the beginning of its padded form, which has a power of two of entries. */
  lemma {:induction false} PlacesShape(n: nat)
    requires n >= 1
    ensures |Places(n)| == Pow2(Height(n)) >= n
    ensures forall j :: 0 <= j < n ==> Places(n)[j] == j
    decreases n
  {
    hide Places;
    if n == 1 {
      OnePlace();
    } else {
      var m := (n + 1) / 2;
      PlacesShape(m);
      PlacesUnfold(n);
      forall j | 0 <= j < n
        ensures Places(n)[j] == j
      {
        var i := j / 2;
        assert Places(m)[i] == i;
        assert j == 2 * i || j == 2 * i + 1;
      }
    }
  }

  lemma OnePlace()
    ensures Places(1) == [0]
  {
  }

  /** Entry j of the padded next level is the hash of entries 2j and 2j + 1 below. */
  lemma PaddedUp(H: HashFn, hs: seq<Data>, j: nat)
    requires |hs| >= 2 && Hashes(hs)
    requires j < |Padded(NextLevel(H, hs))|
    ensures |Padded(hs)| == 2 * |Padded(NextLevel(H, hs))|
    ensures
      var x := Padded(hs)[2 * j] + Padded(hs)[2 * j + 1];
      x in Hashed(H, hs) && Padded(NextLevel(H, hs))[j] == H(x)
    ensures |Padded(hs)[2 * j]| == 32 && |Padded(hs)[2 * j + 1]| == 32
  {
    hide Hashed, NextLevel, Places, LevelInputs, Root, Height;
    HashedUnfold(H, hs);
    PlacesUnfold(|hs|);
    var i := Places(|NextLevel(H, hs)|)[j];
    assert PairInput(hs, i) == Padded(hs)[2 * j] + Padded(hs)[2 * j + 1];
  }

  lemma HalvesAgree(a: Data, b: Data, c: Data, d: Data)
    requires |a| == |b| == |c| == |d| == 32 && a + b == c + d
    ensures a == c && b == d
  {
    assert (a + b)[..32] == a && (c + d)[..32] == c && (a + b)[32..] == b && (c + d)[32..] == d;
  }

  /** Without collisions, equal padded next levels come from equal padded levels, and only from them. */
  lemma PaddedLevels(H: HashFn, a: seq<Data>, b: seq<Data>, S: set<Data>)
    requires |a| >= 2 && |b| >= 2 && Hashes(a) && Hashes(b)
    requires CollisionFree(H, S) && Hashed(H, a) <= S && Hashed(H, b) <= S
    ensures Padded(NextLevel(H, a)) == Padded(NextLevel(H, b)) <==> Padded(a) == Padded(b)
  {
    hide Hashed, NextLevel, Places, Padded, Hashes;
    var ua: seq<Data>, ub: seq<Data> := Padded(NextLevel(H, a)), Padded(NextLevel(H, b));
    var pa: seq<Data>, pb: seq<Data> := Padded(a), Padded(b);
    SomePlace(NextLevel(H, a));
    SomePlace(NextLevel(H, b));
    PaddedUp(H, a, 0);
    PaddedUp(H, b, 0);
    if |ua| == |ub| {
      forall j | 0 <= j < |ua|
        ensures ua[j] == ub[j] <==> pa[2 * j] == pb[2 * j] && pa[2 * j + 1] == pb[2 * j + 1]
      {
        PaddedUp(H, a, j);
        PaddedUp(H, b, j);
        if pa[2 * j] + pa[2 * j + 1] == pb[2 * j] + pb[2 * j + 1] {
          HalvesAgree(pa[2 * j], pa[2 * j + 1], pb[2 * j], pb[2 * j + 1]);
        }
      }
      if ua == ub {
        forall k | 0 <= k < |pa|
          ensures pa[k] == pb[k]
        {
          var j := k / 2;
          assert k == 2 * j || k == 2 * j + 1;
          assert ua[j] == ub[j];
        }
      }
      if pa == pb {
        forall j | 0 <= j < |ua|
          ensures ua[j] == ub[j]
        {
          assert pa[2 * j] == pb[2 * j] && pa[2 * j + 1] == pb[2 * j + 1];
        }
      }
    }
  }

  lemma SomePlace<T>(xs: seq<T>)
    requires |xs| >= 1
    ensures |Padded(xs)| >= 1
  {
    PlacesShape(|xs|);
  }

  /** Trees of the same height have the same root exactly when their padded leaves agree. */
  lemma {:induction false} SameHeightExact(H: HashFn, a: seq<Data>, b: seq<Data>, S: set<Data>)
    requires |a| >= 1 && |b| >= 1 && Hashes(a) && Hashes(b)
    requires CollisionFree(H, S) && Hashed(H, a) <= S && Hashed(H, b) <= S && Height(|a|) == Height(|b|)
    ensures Root(H, a) == Root(H, b) <==> Padded(a) == Padded(b)
    decreases |a|
  {
    hide *;
    HeightZero(|a|);
    HeightZero(|b|);
    if |a| == 1 {
      PaddedOne(a);
      PaddedOne(b);
      RootOne(H, a);
      RootOne(H, b);
    } else {
      HashedUnfold(H, a);
      HashedUnfold(H, b);
      SameHeightExact(H, NextLevel(H, a), NextLevel(H, b), S);
      PaddedLevels(H, a, b, S);
    }
  }

  lemma RootOne(H: HashFn, hs: seq<Data>)
    requires |hs| == 1
    ensures Root(H, hs) == hs[0] && hs == [Root(H, hs)]
  {
  }

  lemma PaddedOne<T>(xs: seq<T>)
    requires |xs| == 1
    ensures Padded(xs) == xs
  {
    assert Places(1) == [0];
  }

  lemma HeightZero(n: nat)
    requires n >= 1
    ensures Height(n) == 0 <==> n == 1
  {
  }

  /** The padded form of a list without repetitions gives the list back. */
  lemma DistinctFromPadded<T>(a: seq<T>, b: seq<T>)
    requires |a| >= 1 && |b| >= 1 && Padded(a) == Padded(b)
    ensures |a| < |b| ==> !Distinct(b)
    ensures |a| == |b| ==> a == b
  {
    hide Places;
    PlacesShape(|a|);
    PlacesShape(|b|);
    assert forall j :: 0 <= j < |a| ==> Padded(a)[j] == a[j];
    assert forall j :: 0 <= j < |b| ==> Padded(b)[j] == b[j];
    if |a| < |b| {
      var k := Places(|a|)[|a|];
      assert b[|a|] == Padded(a)[|a|] == a[k] == b[k];
    }
  }

  /** Without distinct leaves the root does not fix their number: a repeated last leaf goes unseen. */
  lemma RepeatedTailGoesUnseen(H: HashFn, a: Data, b: Data, c: Data)
    ensures Root(H, [a, b, c]) == Root(H, [a, b, c, c])
  {
    var up, up' := NextLevel(H, [a, b, c]), NextLevel(H, [a, b, c, c]);
    assert up == [H(a + b), H(c + c)] == up';
    RootUnfold(H, [a, b, c]);
    RootUnfold(H, [a, b, c, c]);
  }

  // ---------------------------------------------------------------- the left spine

  /** The strings hashed along the left edge, from the leaves up. */
  function LeftInputs(H: HashFn, hs: seq<Data>): seq<Data>
    requires |hs| >= 1
    decreases |hs|
  {
    if |hs| == 1 then [] else [PairInput(hs, 0)] + LeftInputs(H, NextLevel(H, hs))
  }

  /** P is a chain of 64-byte strings over the leaf `leaf`, each starting with the hash of the one below. */
  ghost predicate Chain(H: HashFn, P: seq<Data>, leaf: Data, root: Data, S: set<Data>) {
    && (forall j :: 0 <= j < |P| ==> |P[j]| == 64 && P[j] in S)
    && (forall j :: 0 < j < |P| ==> P[j][..32] == H(P[j - 1]))
    && (if P == [] then root == leaf else P[0][..32] == leaf && root == H(P[|P| - 1]))
  }

  lemma {:induction false} LeftChain(H: HashFn, hs: seq<Data>, S: set<Data>)
    requires |hs| >= 1 && Hashes(hs) && Hashed(H, hs) <= S
    ensures |LeftInputs(H, hs)| == Height(|hs|)
    ensures Chain(H, LeftInputs(H, hs), hs[0], Root(H, hs), S)
    decreases |hs|
  {
    hide Hashed, NextLevel;
    if |hs| > 1 {
      HashedUnfold(H, hs);
      var up := NextLevel(H, hs);
      LeftChain(H, up, S);
      var first, P := PairInput(hs, 0), LeftInputs(H, up);
      assert first[..32] == hs[0] && up[0] == H(first) && first in S;
      ChainGrows(H, first, P, hs[0], Root(H, hs), S);
    }
  }

  lemma ChainGrows(H: HashFn, first: Data, P: seq<Data>, leaf: Data, root: Data, S: set<Data>)
    requires Chain(H, P, H(first), root, S) && |first| == 64 && first in S && first[..32] == leaf
    ensures Chain(H, [first] + P, leaf, root, S)
  {
    var Q := [first] + P;
    forall j | 0 < j < |Q|
      ensures Q[j][..32] == H(Q[j - 1])
    {
      assert Q[j] == P[j - 1];
      if j > 1 {
        assert Q[j - 1] == P[j - 2];
      }
    }
  }

  /** Chains with the same root agree from the top down. */
  lemma {:induction false} ChainsAgree(
      H: HashFn, P: seq<Data>, Q: seq<Data>, x: Data, y: Data, root: Data, S: set<Data>, t: nat)
    requires Chain(H, P, x, root, S) && Chain(H, Q, y, root, S) && CollisionFree(H, S)
    requires t < |P| <= |Q|
    ensures P[|P| - 1 - t] == Q[|Q| - 1 - t]
    decreases t
  {
    if t > 0 {
      ChainsAgree(H, P, Q, x, y, root, S, t - 1);
      var p, q := P[|P| - t], Q[|Q| - t];
      assert p[..32] == H(P[|P| - 1 - t]) && q[..32] == H(Q[|Q| - 1 - t]);
    }
  }

  /** Only a leaf whose own preimage is 64 bytes long can pass for an inner node of a taller tree. */
  lemma NoTallerTree(H: HashFn, P: seq<Data>, Q: seq<Data>, p: Data, y: Data, root: Data, S: set<Data>)
    requires Chain(H, P, H(p), root, S) && Chain(H, Q, y, root, S) && CollisionFree(H, S)
    requires p in S
    ensures |P| < |Q| ==> |p| == 64
  {
    if |P| < |Q| {
      var d := |Q| - |P|;
      if P != [] {
        ChainsAgree(H, P, Q, H(p), y, root, S, |P| - 1);
        assert Q[d][..32] == H(Q[d - 1]) && P[0][..32] == H(p);
      }
      assert H(p) == H(Q[d - 1]);
      assert p == Q[d - 1];
    }
  }

  /** When two lists have the same root: if the first leaves' preimages are not 64 bytes long and no strings hashed
      collide, exactly when the padded lists agree. */
  lemma RootExact(H: HashFn, a: seq<Data>, b: seq<Data>, p: Data, q: Data, S: set<Data>)
    requires |a| >= 1 && |b| >= 1 && Hashes(a) && Hashes(b)
    requires a[0] == H(p) && b[0] == H(q) && |p| != 64 && |q| != 64 && p in S && q in S
    requires CollisionFree(H, S) && Hashed(H, a) <= S && Hashed(H, b) <= S
    ensures Root(H, a) == Root(H, b) <==> Padded(a) == Padded(b)
  {
    hide *;
    PlacesShape(|a|);
    PlacesShape(|b|);
    if Root(H, a) == Root(H, b) {
      LeftChain(H, a, S);
      LeftChain(H, b, S);
      NoTallerTree(H, LeftInputs(H, a), LeftInputs(H, b), p, b[0], Root(H, a), S);
      NoTallerTree(H, LeftInputs(H, b), LeftInputs(H, a), q, a[0], Root(H, a), S);
      SameHeightExact(H, a, b, S);
    } else if Padded(a) == Padded(b) {
      Pow2Injective(Height(|a|), Height(|b|));
      SameHeightExact(H, a, b, S);
    }
  }

  lemma Pow2Injective(i: nat, j: nat)
    requires Pow2(i) == Pow2(j)
    ensures i == j
  {
    if i < j {
      Pow2Grows(i, j);
    } else if j < i {
      Pow2Grows(j, i);
    }
  }

  lemma {:induction false} Pow2Grows(i: nat, j: nat)
    requires i < j
    ensures Pow2(i) < Pow2(j)
    decreases j
  {
    if i < j - 1 {
      Pow2Grows(i, j - 1);
    }
  }

  /** So the root determines leaves that do not repeat, their number included. */
  lemma RootDeterminesLeaves(H: HashFn, a: seq<Data>, b: seq<Data>, p: Data, q: Data, S: set<Data>)
    requires |a| >= 1 && |b| >= 1 && Hashes(a) && Hashes(b) && Distinct(a) && Distinct(b)
    requires a[0] == H(p) && b[0] == H(q) && |p| != 64 && |q| != 64 && p in S && q in S
    requires CollisionFree(H, S) && Hashed(H, a) <= S && Hashed(H, b) <= S
    ensures Root(H, a) == Root(H, b) <==> a == b
  {
    hide *;
    RootExact(H, a, b, p, q, S);
    if Padded(a) == Padded(b) {
      DistinctFromPadded(a, b);
      DistinctFromPadded(b, a);
    }
  }

  // ---------------------------------------------------------------- blocks

  /** Everything hashed to get from a transaction list to its root. */
  function BlockInputs(H: HashFn, tx: seq<Transaction>): set<Data>
    requires |tx| >= 1
  {
    (set i | 0 <= i < |tx| :: TxBytes(tx[i])) + Hashed(H, Leaves(H, tx))
  }

  /** A block as submissions assemble it: transactions that print faithfully and do not repeat, the first longer
      than an inner node's 64 bytes, and the root over them. */
  ghost predicate Proper(H: HashFn, b: BlockData) {
    && |b.tx| >= 1 && AllTxOk(b.tx) && Distinct(b.tx) && |TxBytes(b.tx[0])| > 64
    && |b.prevBlockHash| == 32 && b.merkleRootHash == TxRoot(H, b.tx)
  }

  lemma LeavesProper(H: HashFn, tx: seq<Transaction>, S: set<Data>)
    requires |tx| >= 1 && BlockInputs(H, tx) <= S
    ensures Hashes(Leaves(H, tx)) && Hashed(H, Leaves(H, tx)) <= S
    ensures forall i :: 0 <= i < |tx| ==> TxBytes(tx[i]) in S
  {
    hide TxBytes, Hashed;
    forall i | 0 <= i < |tx|
      ensures TxBytes(tx[i]) in S
    {
      assert TxBytes(tx[i]) in BlockInputs(H, tx);
    }
  }

  lemma SameLeaf(H: HashFn, t: Transaction, u: Transaction, S: set<Data>)
    requires TxOk(t) && TxOk(u) && TxBytes(t) in S && TxBytes(u) in S && CollisionFree(H, S)
    ensures TxHash(H, t) == TxHash(H, u) <==> t == u
  {
    hide TxOk, TxBytes;
    TxPrefixFree(t, u, [], []);
    assert TxBytes(t) + [] == TxBytes(t) && TxBytes(u) + [] == TxBytes(u);
  }

  lemma PaddedLeaves(H: HashFn, x: seq<Transaction>, y: seq<Transaction>, S: set<Data>)
    requires |x| >= 1 && |y| >= 1 && AllTxOk(x) && AllTxOk(y)
    requires CollisionFree(H, S) && BlockInputs(H, x) <= S && BlockInputs(H, y) <= S
    ensures Padded(Leaves(H, x)) == Padded(Leaves(H, y)) <==> Padded(x) == Padded(y)
  {
    hide TxOk, TxBytes, Hashed, BlockInputs, Places, CollisionFree, TxHash, Hashes;
    LeavesProper(H, x, S);
    LeavesProper(H, y, S);
    var px: seq<Transaction>, py: seq<Transaction> := Padded(x), Padded(y);
    var lx: seq<Data>, ly: seq<Data> := Padded(Leaves(H, x)), Padded(Leaves(H, y));
    assert |lx| == |px| && |ly| == |py|;
    if |px| == |py| {
      forall j | 0 <= j < |px|
        ensures lx[j] == ly[j] <==> px[j] == py[j]
      {
        SameLeaf(H, px[j], py[j], S);
      }
    }
  }

  ghost predicate AllTxOk(tx: seq<Transaction>) {
    forall i :: 0 <= i < |tx| ==> TxOk(tx[i])
  }

  /** What the Merkle root says about the transactions: two lists whose first transaction prints to more than an
      inner node's 64 bytes have the same root exactly when they are the same with the tree's duplicates written
      out. */
  lemma RootCommits(H: HashFn, x: seq<Transaction>, y: seq<Transaction>, S: set<Data>)
    requires |x| >= 1 && AllTxOk(x) && |TxBytes(x[0])| > 64
    requires |y| >= 1 && AllTxOk(y) && |TxBytes(y[0])| > 64
    requires CollisionFree(H, S) && BlockInputs(H, x) <= S && BlockInputs(H, y) <= S
    ensures TxRoot(H, x) == TxRoot(H, y) <==> Padded(x) == Padded(y)
  {
    hide TxOk, TxBytes, Hashed, BlockInputs, Root, Hashes, Padded, CollisionFree;
    LeavesProper(H, x, S);
    LeavesProper(H, y, S);
    RootExact(H, Leaves(H, x), Leaves(H, y), TxBytes(x[0]), TxBytes(y[0]), S);
    PaddedLeaves(H, x, y, S);
  }

  /** So lists without repetitions are equal when their roots are. */
  lemma DistinctRootCommits(H: HashFn, x: seq<Transaction>, y: seq<Transaction>, S: set<Data>)
    requires |x| >= 1 && AllTxOk(x) && Distinct(x) && |TxBytes(x[0])| > 64
    requires |y| >= 1 && AllTxOk(y) && Distinct(y) && |TxBytes(y[0])| > 64
    requires CollisionFree(H, S) && BlockInputs(H, x) <= S && BlockInputs(H, y) <= S
    ensures TxRoot(H, x) == TxRoot(H, y) <==> x == y
  {
    hide *;
    RootCommits(H, x, y, S);
    if Padded(x) == Padded(y) {
      DistinctFromPadded(x, y);
      DistinctFromPadded(y, x);
    }
  }

  lemma RootLength(H: HashFn, tx: seq<Transaction>)
    requires |tx| >= 1
    ensures |TxRoot(H, tx)| == 32
  {
    RootIsHash(H, Leaves(H, tx));
  }

  lemma {:induction false} RootIsHash(H: HashFn, hs: seq<Data>)
    requires |hs| >= 1 && Hashes(hs)
    ensures |Root(H, hs)| == 32
    decreases |hs|
  {
    hide NextLevel;
    if |hs| > 1 {
      RootIsHash(H, NextLevel(H, hs));
    }
  }

  lemma HeaderFields(b: BlockData, b': BlockData)
    requires |b.prevBlockHash| == |b'.prevBlockHash| == 32 && |b.merkleRootHash| == |b'.merkleRootHash| == 32
    requires HeaderBytes(b) == HeaderBytes(b')
    ensures b.version == b'.version && b.prevBlockHash == b'.prevBlockHash && b.merkleRootHash == b'.merkleRootHash
    ensures b.time == b'.time && b.bits == b'.bits && b.nonce == b'.nonce
  {
    hide HeaderBytes, TakeU32, TakeBytes, At;
    var s := HeaderBytes(b);
    AtIsSlice(s, 0, s);
    assert s[0..0 + |s|] == s;
    HeaderAt(s, 0, b);
    HeaderAt(s, 0, b');
  }

  /** A header commits to the whole block. */
  lemma HeaderCommits(H: HashFn, b: BlockData, b': BlockData, S: set<Data>)
    requires Proper(H, b) && Proper(H, b')
    requires CollisionFree(H, S) && BlockInputs(H, b.tx) <= S && BlockInputs(H, b'.tx) <= S
    ensures HeaderBytes(b) == HeaderBytes(b') <==> b == b'
  {
    hide TxOk, TxBytes, BlockInputs, TxRoot, HeaderBytes, Distinct, CollisionFree;
    if HeaderBytes(b) == HeaderBytes(b') {
      RootLength(H, b.tx);
      RootLength(H, b'.tx);
      HeaderFields(b, b');
      DistinctRootCommits(H, b.tx, b'.tx, S);
    }
  }

  // ---------------------------------------------------------------- candidates

  /** The null outpoint that marks a coinbase. */
  ghost predicate IsCoinbase(t: Transaction) {
    |t.ins| == 1 && t.ins[0].prevout == OutPoint(Zeros(32), 0xFFFF_FFFF)
  }

  /** A template whose other transactions print faithfully, are no coinbases and do not repeat. */
  ghost predicate Ordinary(w: BlockData) {
    && TemplateOk(w)
    && (forall i :: 1 <= i < |w.tx| ==> TxOk(w.tx[i]) && !IsCoinbase(w.tx[i]))
    && (forall i, j :: 1 <= i < j < |w.tx| ==> w.tx[i] != w.tx[j])
  }

  /** Templates that differ at most in the time they carry: every submission replaces that. */
  ghost predicate SameWork(w: BlockData, w': BlockData) {
    w.version == w'.version && w.prevBlockHash == w'.prevBlockHash && w.bits == w'.bits && w.tx == w'.tx
  }

  lemma SplicedShape(t: Transaction, en: Data)
    requires IsTemplateCoinbase(t) && |en| == 8
    ensures |t.ins| == 1 && |t.ins[0].script| == 12
    ensures TxOk(WithExtranonce(t, en)) && IsCoinbase(WithExtranonce(t, en))
    ensures |TxBytes(WithExtranonce(t, en))| > 64
  {
    hide TxBytes, Cut, TakeTx, LE;
    var height: U32, pubkey: Data, value: I64 :|
      |pubkey| < TWO64 - 1 && t == CreateCoinbaseTX(height, pubkey, value);
    var en1, en2 := en[..4], en[4..];
    assert en == en1 + en2;
    CoinbaseSplice(t, en1, en2);
    CutTemplate(height, pubkey, value);
    HeadLength(height);
    TailLength(pubkey, value);
    var s := t.ins[0].script;
    assert |s[..4] + en + s[12..]| == 12;
  }

  lemma TailLength(pubkey: Data, value: I64)
    ensures |CoinbaseTail(pubkey, value)| >= 19
  {
    hide LE;
  }

  lemma CandidateProper(H: HashFn, w: BlockData, en1: U32, en2: Data, time: Data, nonce: Data)
    requires Ordinary(w) && |en2| == 4 && |time| == 4 && |nonce| == 4
    ensures |w.tx[0].ins| == 1 && |w.tx[0].ins[0].script| == 12
    ensures Proper(H, Candidate(H, w, en1, en2, time, nonce))
  {
    hide TxBytes, TxRoot, LE, FromLE, WithExtranonce, IsTemplateCoinbase, TxOk, IsCoinbase;
    SplicedShape(w.tx[0], LE(en1, 4) + en2);
  }

  /** A candidate determines the work, both extranonces, the time and the nonce it was assembled from. */
  lemma CandidateInjective(H: HashFn, w: BlockData, en1: U32, en2: Data, time: Data, nonce: Data,
                           w': BlockData, en1': U32, en2': Data, time': Data, nonce': Data)
    requires TemplateOk(w) && |en2| == 4 && |time| == 4 && |nonce| == 4
    requires TemplateOk(w') && |en2'| == 4 && |time'| == 4 && |nonce'| == 4
    requires |w.tx[0].ins| == 1 && |w.tx[0].ins[0].script| == 12
    requires |w'.tx[0].ins| == 1 && |w'.tx[0].ins[0].script| == 12
    requires Candidate(H, w, en1, en2, time, nonce) == Candidate(H, w', en1', en2', time', nonce')
    ensures SameWork(w, w') && en1 == en1' && en2 == en2' && time == time' && nonce == nonce'
  {
    hide TxRoot, LE, FromLE, WithExtranonce, IsTemplateCoinbase;
    var x, y := LE(en1, 4) + en2, LE(en1', 4) + en2';
    var b, b' := Candidate(H, w, en1, en2, time, nonce), Candidate(H, w', en1', en2', time', nonce');
    assert b.tx[0] == WithExtranonce(w.tx[0], x) && b'.tx[0] == WithExtranonce(w'.tx[0], y);
    SplicedInjective(w.tx[0], w'.tx[0], x, y);
    assert LE(en1, 4) == x[..4] && LE(en1', 4) == y[..4] && en2 == x[4..] && en2' == y[4..];
    LEInjective(en1, en1');
    FromLEInjective(time, time');
    FromLEInjective(nonce, nonce');
    assert w.tx == w'.tx by {
      assert |w.tx| == |b.tx| == |w'.tx|;
      forall i | 1 <= i < |w.tx|
        ensures w.tx[i] == w'.tx[i]
      {
        assert b.tx[i] == w.tx[i] && b'.tx[i] == w'.tx[i];
      }
    }
  }

  lemma LEInjective(a: U32, b: U32)
    requires LE(a, 4) == LE(b, 4)
    ensures a == b
  {
    FromLEOfLE(a, 4);
    FromLEOfLE(b, 4);
    Pow256Values();
  }

  lemma SplicedInjective(t: Transaction, t': Transaction, x: Data, y: Data)
    requires IsTemplateCoinbase(t) && IsTemplateCoinbase(t') && |x| == |y| == 8
    requires |t.ins| == 1 && |t.ins[0].script| == 12 && |t'.ins| == 1 && |t'.ins[0].script| == 12
    requires WithExtranonce(t, x) == WithExtranonce(t', y)
    ensures t == t' && x == y
  {
    hide LE;
    var h: U32, p: Data, v: I64 :| |p| < TWO64 - 1 && t == CreateCoinbaseTX(h, p, v);
    var h': U32, p': Data, v': I64 :| |p'| < TWO64 - 1 && t' == CreateCoinbaseTX(h', p', v');
    var s, s' := t.ins[0].script, t'.ins[0].script;
    var u, u' := s[..4] + x + s[12..], s'[..4] + y + s'[12..];
    assert WithExtranonce(t, x).ins[0].script == u && WithExtranonce(t', y).ins[0].script == u';
    assert u[..4] == s[..4] && u'[..4] == s'[..4] && u[4..12] == x && u'[4..12] == y;
    assert s == LE(h, 4) + Zeros(8) && s' == LE(h', 4) + Zeros(8);
    assert s[..4] == LE(h, 4) && s'[..4] == LE(h', 4);
    assert s == s';
  }
}
