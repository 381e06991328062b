/** Left-balanced binary trees over chunks of data, for any leaf and node function. Pairing the
    leaves layer by layer, with an odd one carried, gives the same result as the recursive
    definition, whatever layer the pairing is stopped at; this is why the SIMD degree of the
    hasher does not show in its output. */
module Balanced {
  import opened Bits
  import opened Words

  type ChunkData = d: seq<Byte> | |d| <= 1024 witness []

  /** Base-two logarithm of the number of chunks in the left subtree. */
  function LeftExp(len: nat): nat
    requires len > 1024
  {
    Log2((len - 1) / 1024)
  }

  /** Bytes of the left subtree. */
  function LeftLen(len: nat): (r: nat)
    requires len > 1024
    ensures 1024 <= r < len
  {
    Log2Bounds((len - 1) / 1024);
    1024 * Pow2(LeftExp(len))
  }

  /** The split rule in words: a power of two of chunks, non-empty right side, right side no
      larger than the left ... */
  lemma LeftLenIsLargest(len: nat)
    requires len > 1024
    ensures LeftLen(len) / 1024 == Pow2(LeftExp(len)) && LeftLen(len) % 1024 == 0
    ensures LeftLen(len) < len <= 2 * LeftLen(len)
  {
    Log2Bounds((len - 1) / 1024);
  }

  /** ... and these conditions determine it. */
  lemma LeftLenUnique(len: nat, k: nat, left: nat)
    requires left == 1024 * Pow2(k) && left < len <= 2 * left
    ensures len > 1024 && LeftLen(len) == left && left / 1024 == Pow2(k)
  {
    Log2Unique((len - 1) / 1024, k);
  }

  /** The value of the left-balanced tree over `data`, whose first chunk has index `counter`. */
  function Fold<T>(leaf: (ChunkData, nat) -> T, node: (T, T) -> T, data: seq<Byte>, counter: nat): T
    decreases |data|
  {
    if |data| <= 1024 then leaf(data, counter)
    else
      var left := LeftLen(|data|);
      node(Fold(leaf, node, data[..left], counter), Fold(leaf, node, data[left..], counter + left / 1024))
  }

  /** The leaves, in order. */
  function Leaves<T>(leaf: (ChunkData, nat) -> T, data: seq<Byte>, counter: nat): (r: seq<T>)
    requires |data| >= 1
    ensures |r| == (|data| + 1023) / 1024
    decreases |data|
  {
    if |data| <= 1024 then [leaf(data, counter)]
    else [leaf(data[..1024], counter)] + Leaves(leaf, data[1024..], counter + 1)
  }

  /** One layer of nodes over adjacent pairs; an odd value left over is carried unchanged. */
  function PairUp<T>(node: (T, T) -> T, xs: seq<T>): (r: seq<T>)
    ensures |r| == (|xs| + 1) / 2
  {
    if |xs| < 2 then xs else [node(xs[0], xs[1])] + PairUp(node, xs[2..])
  }

  /** Layers of nodes down to a single value. */
  function Reduce<T>(node: (T, T) -> T, xs: seq<T>): T
    requires |xs| >= 1
    decreases |xs|
  {
    if |xs| == 1 then xs[0] else Reduce(node, PairUp(node, xs))
  }

  /** Layers of nodes down to two values. */
  function ReduceToPair<T>(node: (T, T) -> T, xs: seq<T>): (r: seq<T>)
    requires |xs| >= 2
    ensures |r| == 2
    decreases |xs|
  {
    if |xs| == 2 then xs else ReduceToPair(node, PairUp(node, xs))
  }

  /** The two children of the top node of the tree over `data`. */
  function Children<T>(leaf: (ChunkData, nat) -> T, node: (T, T) -> T, data: seq<Byte>, counter: nat): (r: seq<T>)
    requires |data| > 1024
    ensures |r| == 2
  {
    var left := LeftLen(|data|);
    [Fold(leaf, node, data[..left], counter), Fold(leaf, node, data[left..], counter + left / 1024)]
  }

  /** Two adjacent subtrees, the left one complete and at least as large, join under one node. */
  lemma JoinSubtrees<T>(leaf: (ChunkData, nat) -> T, node: (T, T) -> T, data: seq<Byte>, counter: nat, k: nat,
                        left: nat)
    requires left == 1024 * Pow2(k) && left < |data| <= 2 * left
    ensures |data| > 1024
    ensures Children(leaf, node, data, counter)
            == [Fold(leaf, node, data[..left], counter), Fold(leaf, node, data[left..], counter + Pow2(k))]
  {
    LeftLenUnique(|data|, k, left);
  }

  /** The top node is the node over its two children. */
  lemma NodeOfChildren<T>(leaf: (ChunkData, nat) -> T, node: (T, T) -> T, data: seq<Byte>, counter: nat)
    requires |data| > 1024
    ensures var c := Children(leaf, node, data, counter); Fold(leaf, node, data, counter) == node(c[0], c[1])
  {
  }

  lemma LaterLeaf<T>(leaf: (ChunkData, nat) -> T, data: seq<Byte>, counter: nat, i: nat)
    requires i > 0 && 1024 * i < |data|
    ensures Leaves(leaf, data, counter)[i] == Leaves(leaf, data[1024..], counter + 1)[i - 1]
  {
  }

  lemma TailSlice(data: seq<Byte>, i: nat)
    requires i > 0 && 1024 * i < |data|
    ensures var end := if 1024 * i + 1024 <= |data| then 1024 * i + 1024 else |data|;
            data[1024..][1024 * (i - 1)..end - 1024] == data[1024 * i..end]
  {
  }

  lemma FirstLeaf<T>(leaf: (ChunkData, nat) -> T, data: seq<Byte>, counter: nat)
    requires |data| >= 1
    ensures Leaves(leaf, data, counter)[0] == leaf(data[0..if 1024 <= |data| then 1024 else |data|], counter)
  {
    if |data| <= 1024 {
      assert data[0..|data|] == data;
    }
  }

  lemma {:induction false} LeafAt<T>(leaf: (ChunkData, nat) -> T, data: seq<Byte>, counter: nat, i: nat)
    requires 1024 * i < |data|
    ensures var end := if 1024 * i + 1024 <= |data| then 1024 * i + 1024 else |data|;
            Leaves(leaf, data, counter)[i] == leaf(data[1024 * i..end], counter + i)
    decreases i
  {
    hide Leaves;
    if i > 0 {
      LeafAt(leaf, data[1024..], counter + 1, i - 1);
      LaterLeaf(leaf, data, counter, i);
      TailSlice(data, i);
    } else {
      FirstLeaf(leaf, data, counter);
    }
  }

  lemma {:induction false} PairUpAt<T>(node: (T, T) -> T, xs: seq<T>, i: nat)
    requires 2 * i < |xs|
    ensures PairUp(node, xs)[i] == if 2 * i + 1 < |xs| then node(xs[2 * i], xs[2 * i + 1]) else xs[2 * i]
  {
    if |xs| >= 2 && i > 0 {
      PairUpAt(node, xs[2..], i - 1);
    }
  }

  lemma PairUpEmpty<T>(node: (T, T) -> T)
    ensures PairUp(node, []) == []
  {
  }

  lemma PairUpStep<T>(node: (T, T) -> T, xs: seq<T>)
    requires |xs| >= 2
    ensures PairUp(node, xs) == [node(xs[0], xs[1])] + PairUp(node, xs[2..])
  {
  }

  /** Pairs never straddle an even split. */
  lemma {:induction false} PairUpConcat<T>(node: (T, T) -> T, a: seq<T>, b: seq<T>)
    requires |a| % 2 == 0
    ensures PairUp(node, a + b) == PairUp(node, a) + PairUp(node, b)
  {
    hide PairUp;
    if a == [] {
      PairUpEmpty(node);
      assert a + b == b;
    } else {
      PairUpConcat(node, a[2..], b);
      PairUpStep(node, a);
      PairUpStep(node, a + b);
      assert (a + b)[2..] == a[2..] + b && (a + b)[0] == a[0] && (a + b)[1] == a[1];
    }
  }

  /** Reducing a power of two of values followed by no more of them splits at the power of two. */
  lemma {:induction false} ReduceSplits<T>(node: (T, T) -> T, a: seq<T>, b: seq<T>, k: nat)
    requires |a| == Pow2(k) && 1 <= |b| <= Pow2(k)
    ensures ReduceToPair(node, a + b) == [Reduce(node, a), Reduce(node, b)]
    ensures Reduce(node, a + b) == node(Reduce(node, a), Reduce(node, b))
    decreases k
  {
    if k == 0 {
      assert a + b == [a[0], b[0]];
      assert PairUp(node, a + b) == [node(a[0], b[0])];
    } else {
      PairUpConcat(node, a, b);
      ReduceSplits(node, PairUp(node, a), PairUp(node, b), k - 1);
    }
  }

  lemma LeftLeaf<T>(leaf: (ChunkData, nat) -> T, data: seq<Byte>, counter: nat, n: nat, left: nat, i: nat)
    requires left == 1024 * n < |data| && i < n
    ensures Leaves(leaf, data, counter)[i] == Leaves(leaf, data[..left], counter)[i]
  {
    hide Leaves;
    LeafAt(leaf, data, counter, i);
    LeafAt(leaf, data[..left], counter, i);
    SliceSlice(data, 0, left, 1024 * i, 1024 * i + 1024);
    assert data[..left] == data[0..left];
  }

  lemma RightLeaf<T>(leaf: (ChunkData, nat) -> T, data: seq<Byte>, counter: nat, n: nat, left: nat, i: nat)
    requires left == 1024 * n < |data| && n >= 1 && i >= n && 1024 * i < |data|
    ensures Leaves(leaf, data, counter)[i] == Leaves(leaf, data[left..], counter + n)[i - n]
  {
    hide Leaves;
    var end := if 1024 * i + 1024 <= |data| then 1024 * i + 1024 else |data|;
    LeafAt(leaf, data, counter, i);
    LeafAt(leaf, data[left..], counter + n, i - n);
    SliceSlice(data, left, |data|, 1024 * (i - n), end - left);
    assert data[left..] == data[left..|data|];
  }

  /** Cutting the data at a chunk boundary cuts the list of leaves. */
  lemma LeavesSplit<T>(leaf: (ChunkData, nat) -> T, data: seq<Byte>, counter: nat, n: nat, left: nat)
    requires left == 1024 * n < |data| && n >= 1
    ensures Leaves(leaf, data, counter) == Leaves(leaf, data[..left], counter) + Leaves(leaf, data[left..], counter + n)
  {
    hide Leaves;
    var all := Leaves(leaf, data, counter);
    var l, r := Leaves(leaf, data[..left], counter), Leaves(leaf, data[left..], counter + n);
    forall i | 0 <= i < |all| ensures all[i] == (l + r)[i] {
      if i < n {
        LeftLeaf(leaf, data, counter, n, left, i);
      } else {
        RightLeaf(leaf, data, counter, n, left, i);
      }
    }
  }

  lemma ReduceLeavesSplits<T>(leaf: (ChunkData, nat) -> T, node: (T, T) -> T, data: seq<Byte>, counter: nat, k: nat,
                              left: nat)
    requires left == 1024 * Pow2(k) && left < |data| <= 2 * left
    ensures var l := Reduce(node, Leaves(leaf, data[..left], counter));
            var r := Reduce(node, Leaves(leaf, data[left..], counter + Pow2(k)));
            && Reduce(node, Leaves(leaf, data, counter)) == node(l, r)
            && ReduceToPair(node, Leaves(leaf, data, counter)) == [l, r]
  {
    LeavesSplit(leaf, data, counter, Pow2(k), left);
    ReduceSplits(node, Leaves(leaf, data[..left], counter), Leaves(leaf, data[left..], counter + Pow2(k)), k);
  }

  /** Pairing the leaves layer by layer gives the value of the recursive tree, and stopping at two
      values gives the two children of its top node. */
  lemma {:induction false} ReduceLeaves<T>(leaf: (ChunkData, nat) -> T, node: (T, T) -> T, data: seq<Byte>,
                                           counter: nat)
    requires |data| >= 1
    ensures Reduce(node, Leaves(leaf, data, counter)) == Fold(leaf, node, data, counter)
    ensures |data| > 1024 ==> ReduceToPair(node, Leaves(leaf, data, counter)) == Children(leaf, node, data, counter)
    decreases |data|
  {
    if |data| > 1024 {
      hide Leaves, Reduce, ReduceToPair, LeftLen, Pow2;
      var k, left := LeftExp(|data|), LeftLen(|data|);
      LeftLenIsLargest(|data|);
      ReduceLeavesSplits(leaf, node, data, counter, k, left);
      ReduceLeaves(leaf, node, data[..left], counter);
      ReduceLeaves(leaf, node, data[left..], counter + Pow2(k));
    }
  }

  /** Values that stand for `data`: layers of nodes over them lead to the value of its tree, and
      for more than one chunk they stop short of the top node. */
  ghost predicate Condenses<T(!new)>(leaf: (ChunkData, nat) -> T, node: (T, T) -> T, data: seq<Byte>, counter: nat,
                                     xs: seq<T>) {
    && |xs| >= 1
    && Reduce(node, xs) == Fold(leaf, node, data, counter)
    && (|data| <= 1024 ==> |xs| == 1)
    && (|data| > 1024 ==> |xs| >= 2 && ReduceToPair(node, xs) == Children(leaf, node, data, counter))
  }

  /** The leaves themselves stand for the data. */
  lemma LeavesCondense<T(!new)>(leaf: (ChunkData, nat) -> T, node: (T, T) -> T, data: seq<Byte>, counter: nat)
    requires |data| >= 1
    ensures Condenses(leaf, node, data, counter, Leaves(leaf, data, counter))
  {
    ReduceLeaves(leaf, node, data, counter);
    hide Leaves, Reduce, ReduceToPair, Fold, Children;
  }

  /** The values of the two subtrees, put next to each other, stand for the whole, provided the
      left list is a power of two and the right list no longer. */
  lemma CondensesJoin<T(!new)>(leaf: (ChunkData, nat) -> T, node: (T, T) -> T, data: seq<Byte>, counter: nat,
                               left: nat, l: seq<T>, r: seq<T>, k: nat)
    requires |data| > 1024 && left == LeftLen(|data|)
    requires Condenses(leaf, node, data[..left], counter, l)
    requires Condenses(leaf, node, data[left..], counter + left / 1024, r)
    requires |l| == Pow2(k) && |r| <= |l|
    ensures Condenses(leaf, node, data, counter, l + r)
  {
    ReduceSplits(node, l, r, k);
  }

  /** One more layer of nodes over more than two values still stands for the same data. */
  lemma CondensesLayer<T(!new)>(leaf: (ChunkData, nat) -> T, node: (T, T) -> T, data: seq<Byte>, counter: nat,
                                xs: seq<T>)
    requires Condenses(leaf, node, data, counter, xs) && |xs| > 2
    ensures Condenses(leaf, node, data, counter, PairUp(node, xs))
  {
  }

  /** A power-of-two number of whole chunks. */
  ghost predicate Complete(len: nat) {
    len % 1024 == 0 && IsPow2(len / 1024)
  }

  /** The left subtree is complete, and both halves of a complete subtree are. */
  lemma CompleteHalves(len: nat)
    requires len > 1024
    ensures Complete(LeftLen(len))
    ensures Complete(len) ==> len == 2 * LeftLen(len)
  {
    LeftLenIsLargest(len);
    Pow2IsPow2(LeftExp(len));
    if Complete(len) {
      var e := Log2(len / 1024);
      assert e > 0 && Pow2(e) == 2 * Pow2(e - 1);
      LeftLenUnique(len, e - 1, 1024 * Pow2(e - 1));
    }
  }

  /** More than a power of two of chunks leaves at least that many on the left. */
  lemma LeftAtLeast(len: nat, simd: nat)
    requires IsPow2(simd) && len > 1024 * simd
    ensures len > 1024 && LeftLen(len) >= 1024 * simd
  {
    LeftLenIsLargest(len);
    var e, k := LeftExp(len), Log2(simd);
    if e < k {
      Pow2Monotonic(e, k);
    } else {
      Pow2Monotonic(k, e);
    }
  }
}
