/** Merkle trees: the recursive definition, the flat level-by-level vector, the left-spine patch
    and the branch read out of the vector. All of it is for an arbitrary hash function. */
module Merkle {
  import opened Bytes

  // ---------------------------------------------------------------- the definition

  /** One level up; a level of odd size pairs its last node with itself. */
  function NextLevel(H: HashFn, hs: seq<Data>): (up: seq<Data>)
    ensures |up| == (|hs| + 1) / 2
    ensures forall i :: 0 <= i < |up| ==> up[i] == H(hs[2 * i] + hs[Min(2 * i + 1, |hs| - 1)])
  {
    seq((|hs| + 1) / 2, i requires 0 <= i < (|hs| + 1) / 2 => H(hs[2 * i] + hs[Min(2 * i + 1, |hs| - 1)]))
  }

  function Root(H: HashFn, hs: seq<Data>): Data
    requires |hs| >= 1
    decreases |hs|
  {
    if |hs| == 1 then hs[0] else Root(H, NextLevel(H, hs))
  }

  /** Number of nodes on level k of a tree with n leaves. */
  function Width(n: nat, k: nat): nat {
    if k == 0 then n else (Width(n, k - 1) + 1) / 2
  }

  /** The node at position i of level k, by recursion down to the leaves. */
  function Node(H: HashFn, hs: seq<Data>, k: nat, i: nat): Data
    requires i < Width(|hs|, k)
    decreases k
  {
    if k == 0 then hs[i]
    else H(Node(H, hs, k - 1, 2 * i) + Node(H, hs, k - 1, Min(2 * i + 1, Width(|hs|, k - 1) - 1)))
  }

  // ---------------------------------------------------------------- the flat vector

  /** All levels one after the other, leaves first, root last. */
  function Flat(H: HashFn, hs: seq<Data>): (tree: seq<Data>)
    requires |hs| >= 1
    ensures |tree| == FlatSize(|hs|) && hs <= tree
    decreases |hs|
  {
    if |hs| == 1 then hs else hs + Flat(H, NextLevel(H, hs))
  }

  function FlatSize(n: nat): (size: nat)
    requires n >= 1
    ensures size >= n
  {
    if n == 1 then 1 else n + FlatSize((n + 1) / 2)
  }

  lemma {:induction false} FlatEndsInRoot(H: HashFn, hs: seq<Data>)
    requires |hs| >= 1
    ensures Flat(H, hs)[|Flat(H, hs)| - 1] == Root(H, hs)
    decreases |hs|
  {
    hide *;
    FlatUnfold(H, hs);
    RootUnfold(H, hs);
    if |hs| > 1 {
      FlatEndsInRoot(H, NextLevel(H, hs));
    }
  }

  lemma RootUnfold(H: HashFn, hs: seq<Data>)
    requires |hs| >= 1
    ensures Root(H, hs) == if |hs| == 1 then hs[0] else Root(H, NextLevel(H, hs))
  {
  }

  /** Levels above the leaves of a tree with n leaves: the loops run once per level. */
  function Height(n: nat): nat
    requires n >= 1
  {
    if n == 1 then 0 else 1 + Height((n + 1) / 2)
  }

  /** Where level k starts in the vector. */
  function Offset(n: nat, k: nat): nat {
    if k == 0 then 0 else Offset(n, k - 1) + Width(n, k - 1)
  }

  /** Level and offset of the tree over the next level, seen from the tree below it. */
  lemma {:induction false} Shift(n: nat, k: nat)
    ensures Width(n, k + 1) == Width((n + 1) / 2, k)
    ensures Offset(n, k + 1) == n + Offset((n + 1) / 2, k)
  {
    if k > 0 {
      Shift(n, k - 1);
    }
  }

  lemma {:induction false} NodeShift(H: HashFn, hs: seq<Data>, k: nat, i: nat)
    requires i < Width((|hs| + 1) / 2, k)
    ensures i < Width(|hs|, k + 1)
    ensures Node(H, hs, k + 1, i) == Node(H, NextLevel(H, hs), k, i)
    decreases k
  {
    hide *;
    var up := NextLevel(H, hs);
    Shift(|hs|, k);
    NodeUp(H, hs, k + 1, i);
    if k > 0 {
      Shift(|hs|, k - 1);
      NodeUp(H, up, k, i);
      NodeShift(H, hs, k - 1, 2 * i);
      NodeShift(H, hs, k - 1, Sibling(|up|, k, i));
    }
  }

  lemma NodeUp(H: HashFn, hs: seq<Data>, k: nat, i: nat)
    requires k > 0 && i < Width(|hs|, k)
    ensures Node(H, hs, k, i) == H(Node(H, hs, k - 1, 2 * i) + Node(H, hs, k - 1, Sibling(|hs|, k, i)))
    ensures k == 1 ==> Node(H, hs, k, i) == NextLevel(H, hs)[i] == Node(H, NextLevel(H, hs), 0, i)
  {
  }

  /** The right child of node i of level k. */
  function Sibling(n: nat, k: nat, i: nat): (j: nat)
    requires k > 0 && i < Width(n, k)
    ensures 2 * i < Width(n, k - 1) && j < Width(n, k - 1)
    ensures j == Min(2 * i + 1, Width(n, k - 1) - 1)
  {
    Min(2 * i + 1, Width(n, k - 1) - 1)
  }

  /** The layout: level k is the contiguous block at Offset(n, k), and holds exactly the nodes of
      the recursive definition; the levels fill the vector. */
  lemma {:induction false} FlatLayout(H: HashFn, hs: seq<Data>, k: nat, i: nat)
    requires |hs| >= 1 && k <= Height(|hs|) && i < Width(|hs|, k)
    ensures Offset(|hs|, k) + i < |Flat(H, hs)|
    ensures Flat(H, hs)[Offset(|hs|, k) + i] == Node(H, hs, k, i)
    ensures k == Height(|hs|) ==> Width(|hs|, k) == 1 && Offset(|hs|, k) + 1 == |Flat(H, hs)|
    decreases |hs|
  {
    hide *;
    var n, tree, m := |hs|, Flat(H, hs), (|hs| + 1) / 2;
    FlatUnfold(H, hs);
    if k == 0 {
      LevelZero(H, hs, i);
    } else {
      var up := NextLevel(H, hs);
      Shift(n, k - 1);
      FlatLayout(H, up, k - 1, i);
      NodeShift(H, hs, k - 1, i);
      assert tree[n + (Offset(m, k - 1) + i)] == Flat(H, up)[Offset(m, k - 1) + i];
    }
  }

  lemma FlatUnfold(H: HashFn, hs: seq<Data>)
    requires |hs| >= 1
    ensures |hs| == 1 <==> Height(|hs|) == 0
    ensures |hs| > 1 ==> Height(|hs|) == 1 + Height((|hs| + 1) / 2)
    ensures |hs| > 1 ==> Flat(H, hs) == hs + Flat(H, NextLevel(H, hs))
    ensures |hs| == 1 ==> Flat(H, hs) == hs
  {
  }

  /** Appending the level above the last one keeps what the finished vector will be. */
  lemma FlatStep(H: HashFn, below: seq<Data>, j: nat)
    requires j + 1 < |below|
    ensures
      var up := NextLevel(H, below[j..]);
      below + Flat(H, up) == below[..j] + Flat(H, below[j..])
  {
    hide *;
    FlatUnfold(H, below[j..]);
    assert below == below[..j] + below[j..];
  }

  /** What the vector will be is the same after the level above the last one is appended. */
  lemma FlatPushed(H: HashFn, below: seq<Data>, j: nat)
    requires j + 1 < |below|
    ensures
      var tree := below + NextLevel(H, below[j..]);
      tree[..|below|] + Flat(H, tree[|below|..]) == below[..j] + Flat(H, below[j..])
  {
    hide *;
    FlatStep(H, below, j);
    var up := NextLevel(H, below[j..]);
    assert (below + up)[..|below|] == below && (below + up)[|below|..] == up;
  }

  /** Node k of the next level, computed where the level below stands in the vector. */
  lemma PushNode(H: HashFn, below: seq<Data>, j: nat, k: nat)
    requires j + 1 < |below| && 2 * k < |below| - j
    ensures k < |NextLevel(H, below[j..])|
    ensures
      var up := NextLevel(H, below[j..]);
      below + up[..k] + [H(below[j + 2 * k] + below[j + Min(2 * k + 1, |below| - j - 1)])] == below + up[..k + 1]
  {
    hide *;
    var up := NextLevel(H, below[j..]);
    assert up[..k + 1] == up[..k] + [up[k]];
  }

  lemma LevelZero(H: HashFn, hs: seq<Data>, i: nat)
    requires i < Width(|hs|, 0)
    ensures Width(|hs|, 0) == |hs| && Offset(|hs|, 0) == 0 && Node(H, hs, 0, i) == hs[i]
  {
  }

  // ---------------------------------------------------------------- sizes

  function Pow2(k: nat): (p: nat)
    ensures p >= 1
  {
    if k == 0 then 1 else 2 * Pow2(k - 1)
  }

  /** Height is the logarithm of n to base two, rounded up. */
  lemma {:induction false} HeightIsCeilLog2(n: nat)
    requires n >= 1
    ensures n <= Pow2(Height(n))
    ensures n > 1 ==> Pow2(Height(n) - 1) < n
  {
    if n > 1 {
      HeightIsCeilLog2((n + 1) / 2);
    }
  }

  lemma {:induction false} FlatSizeBound(n: nat)
    requires n >= 1
    ensures FlatSize(n) <= 2 * n - 1 + Height(n)
  {
    if n > 1 {
      FlatSizeBound((n + 1) / 2);
    }
  }

  lemma {:induction false} FlatSizeMonotone(a: nat, b: nat)
    requires 1 <= a <= b
    ensures FlatSize(a) <= FlatSize(b)
    decreases b
  {
    if a > 1 {
      FlatSizeMonotone((a + 1) / 2, (b + 1) / 2);
    }
  }

  /** The vector of a full tree, and of one with one leaf more. */
  lemma {:induction false} FlatSizeAtPow2(k: nat)
    ensures FlatSize(Pow2(k)) == 2 * Pow2(k) - 1
    ensures FlatSize(Pow2(k) + 1) == 2 * Pow2(k) + k + 1
  {
    if k == 0 {
      assert FlatSize(2) == 2 + FlatSize(1);
    } else {
      FlatSizeAtPow2(k - 1);
      assert (Pow2(k) + 1) / 2 == Pow2(k - 1) && (Pow2(k) + 2) / 2 == Pow2(k - 1) + 1;
    }
  }

  lemma Pow2Of31()
    ensures Pow2(31) == 0x8000_0000
  {
    assert Pow2(8) == 256;
    assert Pow2(16) == 0x1_0000;
    assert Pow2(24) == 0x100_0000;
  }

  /** Every index of the loops, up to that of the root, fits their 32-bit variables exactly for lists of at most
      2^31 transactions. */
  lemma IndicesFit32(n: nat)
    requires n >= 1
    ensures FlatSize(n) <= 0x1_0000_0000 <==> n <= 0x8000_0000
  {
    hide *;
    Pow2Of31();
    FlatSizeAtPow2(31);
    if n <= 0x8000_0000 {
      FlatSizeMonotone(n, 0x8000_0000);
    } else {
      FlatSizeMonotone(0x8000_0001, n);
    }
  }

  // ---------------------------------------------------------------- replacing the first leaf

  /** The vector after leaf 0 becomes h and only the left-most node of each level is recomputed. */
  function PatchSpine(H: HashFn, tree: seq<Data>, n: nat, h: Data): (r: seq<Data>)
    requires n >= 1 && |tree| == FlatSize(n)
    ensures |r| == |tree|
    decreases n
  {
    if n == 1 then [h]
    else [h] + tree[1..n] + PatchSpine(H, tree[n..], (n + 1) / 2, H(h + tree[1]))
  }

  lemma NextLevelOfPatched(H: HashFn, hs: seq<Data>, h: Data)
    requires |hs| >= 2
    ensures NextLevel(H, hs[0 := h]) == NextLevel(H, hs)[0 := H(h + hs[1])]
  {
    var up := NextLevel(H, hs[0 := h]);
    assert up[0] == H(h + hs[1]);
    assert forall i :: 0 < i < |up| ==> up[i] == NextLevel(H, hs)[i];
  }

  /** Patching the left spine of a built tree gives the tree built from scratch. */
  lemma {:induction false} PatchIsRebuild(H: HashFn, hs: seq<Data>, h: Data)
    requires |hs| >= 1
    ensures PatchSpine(H, Flat(H, hs), |hs|, h) == Flat(H, hs[0 := h])
    decreases |hs|
  {
    hide *;
    FlatUnfold(H, hs);
    FlatUnfold(H, hs[0 := h]);
    PatchUnfold(H, Flat(H, hs), |hs|, h);
    assert hs[0 := h] == [h] + hs[1..];
    if |hs| > 1 {
      var up, tree := NextLevel(H, hs), Flat(H, hs);
      assert tree[|hs|..] == Flat(H, up) && tree[1..|hs|] == hs[1..] && tree[1] == hs[1];
      NextLevelOfPatched(H, hs, h);
      PatchIsRebuild(H, up, H(h + hs[1]));
    }
  }

  lemma FlatSizeUnfold(n: nat)
    requires n >= 1
    ensures FlatSize(n) == if n == 1 then 1 else n + FlatSize((n + 1) / 2)
  {
  }

  lemma PatchUnfold(H: HashFn, tree: seq<Data>, n: nat, h: Data)
    requires n >= 1 && |tree| == FlatSize(n)
    ensures n == 1 ==> FlatSize(n) == 1 && PatchSpine(H, tree, n, h) == [h]
    ensures n > 1 ==> FlatSize(n) == n + FlatSize((n + 1) / 2)
    ensures n > 1 ==> PatchSpine(H, tree, n, h)
                      == [h] + tree[1..n] + PatchSpine(H, tree[n..], (n + 1) / 2, H(h + tree[1]))
  {
    hide FlatSize;
    FlatSizeUnfold(n);
  }

  // ---------------------------------------------------------------- the branch of leaf 0

  /** Entry 1 of every level, as the job notification picks them. */
  function Branch(tree: seq<Data>, n: nat): seq<Data>
    requires n >= 1 && |tree| == FlatSize(n)
    decreases n
  {
    if n == 1 then [] else [tree[1]] + Branch(tree[n..], (n + 1) / 2)
  }

  /** What a miner does with a branch: hash the running value with each entry in turn. */
  function Fold(H: HashFn, h: Data, branch: seq<Data>): Data
    decreases branch
  {
    if branch == [] then h else Fold(H, H(h + branch[0]), branch[1..])
  }

  lemma {:induction false} BranchLength(tree: seq<Data>, n: nat)
    requires n >= 1 && |tree| == FlatSize(n)
    ensures |Branch(tree, n)| == Height(n)
    decreases n
  {
    if n > 1 {
      BranchLength(tree[n..], (n + 1) / 2);
    }
  }

  /** Folding any first leaf through the branch of a built tree gives the root of the tree with
      that leaf in front. */
  lemma {:induction false} FoldIsRoot(H: HashFn, hs: seq<Data>, h: Data)
    requires |hs| >= 1
    ensures Fold(H, h, Branch(Flat(H, hs), |hs|)) == Root(H, hs[0 := h])
    decreases |hs|
  {
    if |hs| > 1 {
      var up := NextLevel(H, hs);
      assert Flat(H, hs)[|hs|..] == Flat(H, up);
      NextLevelOfPatched(H, hs, h);
      FoldIsRoot(H, up, H(h + hs[1]));
      var b := Branch(Flat(H, hs), |hs|);
      assert b[0] == hs[1] && b[1..] == Branch(Flat(H, up), |up|);
    }
  }

  /** The branch does not depend on the first leaf. */
  lemma {:induction false} BranchIgnoresFirstLeaf(H: HashFn, hs: seq<Data>, h: Data)
    requires |hs| >= 1
    ensures Branch(Flat(H, hs[0 := h]), |hs|) == Branch(Flat(H, hs), |hs|)
    decreases |hs|
  {
    if |hs| > 1 {
      var up := NextLevel(H, hs);
      NextLevelOfPatched(H, hs, h);
      BranchIgnoresFirstLeaf(H, up, H(h + hs[1]));
      assert Flat(H, hs)[|hs|..] == Flat(H, up);
      assert Flat(H, hs[0 := h])[|hs|..] == Flat(H, up[0 := H(h + hs[1])]);
    }
  }
}
