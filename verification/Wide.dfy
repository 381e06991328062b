/** Hashing a whole subtree with batches of `simd` inputs (blake3.c). The SIMD degree is a
    parameter: any power of two up to the platform's maximum. So is the batch function: portable or NEON. */
module Wide {
  import opened Bits
  import opened Words
  import opened Balanced
  import opened Tree
  import opened Chunk
  import opened HashMany
  import opened Dispatch

  function ChunkJob(m: Mode): Job {
    Job(m.compress, 16, m.key, m.flags, CHUNK_START, CHUNK_END)
  }

  function ParentJob(m: Mode): Job {
    Job(m.compress, 1, m.key, BitOr(m.flags, PARENT), 0, 0)
  }

  function Min(a: nat, b: nat): nat {
    if a <= b then a else b
  }

  function Max(a: nat, b: nat): nat {
    if a >= b then a else b
  }

  function ChunkCount(len: nat): nat {
    (len + 1023) / 1024
  }

  // ----- the batch path agrees with the streaming path

  lemma {:induction false} ChunkJobChain(m: Mode, data: seq<Byte>, counter: nat, n: nat)
    requires |data| == 1024 && n <= 15
    ensures HashChain(ChunkJob(m), data, counter, n) == ChainBlocks(m, data, counter, n)
  {
    if n > 0 {
      ChunkJobChain(m, data, counter, n - 1);
    }
  }

  /** A full chunk through `hash_many` has the chunk's chaining value. */
  lemma ChunkJobCV(m: Mode, data: seq<Byte>, counter: nat)
    requires |data| == 1024
    ensures HashOneCV(ChunkJob(m), data, counter) == Leaf(m)(data, counter)
  {
    ChunkJobChain(m, data, counter, 15);
    var last := data[960..];
    assert PadBlock(last) == last == data[64 * 15..64 * 16];
    var o := ChunkOutput(m, data, counter);
    assert o == Output(ChainBlocks(m, data, counter, 15), counter, last, 64, BitOr(m.flags, CHUNK_END));
    assert FlagsAt(ChunkJob(m), 15) == o.flags;
  }

  /** A 64-byte block through `hash_many` is the parent of its two halves. */
  lemma ParentJobCV(m: Mode, block: seq<Byte>)
    requires |block| == 64
    ensures HashOneCV(ParentJob(m), block, 0) == Node(m)(block[..32], block[32..])
  {
    var j := ParentJob(m);
    assert FlagsAt(j, 0) == BitOr(m.flags, PARENT);
    assert block == block[..32] + block[32..];
    assert block[64 * 0..64 * 1] == block;
    assert HashChain(j, block, 0, 1) == m.compress(HashChain(j, block, 0, 0), block, 64, 0, BitOr(m.flags, PARENT));
  }

  /** Write one more chaining value behind the `n` at offset `at`. */
  method AppendCV(out: array<Byte>, at: nat, n: nat, cv: CV)
    requires at + 32 * (n + 1) <= out.Length
    modifies out
    ensures CVsAt(out[..], at, n + 1) == old(CVsAt(out[..], at, n)) + [cv]
    ensures out[..at] == old(out[..at])
    ensures out[at + 32 * (n + 1)..] == old(out[at + 32 * n..])[32..]
  {
    ghost var before := out[..];
    WriteBytes(out, at + 32 * n, cv);
    assert out[..][at..at + 32 * n] == before[at..at + 32 * n] by {
      SliceSlice(before, 0, at + 32 * n, at, at + 32 * n);
      SliceSlice(out[..], 0, at + 32 * n, at, at + 32 * n);
    }
    CVsAtFrame(before, at, out[..], at, n);
    CVsAtConcat(out[..], at, n, 1);
    assert out[..at] == out[..at + 32 * n][..at];
  }

  /** The chunks that fill 1024 bytes each. */
  ghost predicate FullChunks(input: seq<Byte>, chunks: seq<seq<Byte>>) {
    && 1024 * |chunks| <= |input|
    && forall i | 0 <= i < |chunks| :: chunks[i] == input[1024 * i..1024 * i + 1024]
  }

  lemma FullLeaf(m: Mode, input: seq<Byte>, counter: nat, chunks: seq<seq<Byte>>, i: nat)
    requires FullChunks(input, chunks) && i < |chunks| && counter + i < TWO_64
    ensures HashOneCV(ChunkJob(m), chunks[i], CounterAt(counter, true, i)) == Leaves(Leaf(m), input, counter)[i]
  {
    ModSmall(counter + i, TWO_64);
    ChunkJobCV(m, chunks[i], counter + i);
    LeafAt(Leaf(m), input, counter, i);
  }

  /** `hash_many` on the full chunks gives the leaves up to the partial chunk. */
  lemma FullLeaves(m: Mode, input: seq<Byte>, counter: nat, chunks: seq<seq<Byte>>)
    requires |input| >= 1 && FullChunks(input, chunks) && counter + |chunks| < TWO_64
    ensures HashManyCVs(ChunkJob(m), chunks, counter, true) == Leaves(Leaf(m), input, counter)[..|chunks|]
  {
    forall i | 0 <= i < |chunks|
      ensures HashManyCVs(ChunkJob(m), chunks, counter, true)[i] == Leaves(Leaf(m), input, counter)[i]
    {
      FullLeaf(m, input, counter, chunks, i);
    }
  }

  /** The partial chunk behind the full ones is the last leaf. */
  lemma TailLeaf(m: Mode, input: seq<Byte>, counter: nat, n: nat)
    requires 1024 * n < |input| < 1024 * n + 1024
    ensures Leaves(Leaf(m), input, counter)
            == Leaves(Leaf(m), input, counter)[..n] + [Leaf(m)(input[1024 * n..], counter + n)]
  {
    LeafAt(Leaf(m), input, counter, n);
    assert input[1024 * n..] == input[1024 * n..|input|];
  }

  /** A chunk state fed one whole chunk and finished at once, as three callers do. */
  method HashChunk(m: Mode, data: seq<Byte>, counter: nat) returns (cv: CV)
    requires |data| <= 1024
    ensures cv == Leaf(m)(data, counter)
  {
    var state := new ChunkState(m, counter);
    state.Update(data);
    assert state.absorbed == data;
    cv := OutputCV(m, state.Out());
  }

  /** The collecting loop of compress_chunks_parallel: the chunks fit the array of `maxDegree` slots. */
  method CollectChunks(input: seq<Byte>, maxDegree: nat) returns (chunksArray: array<seq<Byte>>, len: nat)
    requires |input| <= 1024 * maxDegree
    ensures fresh(chunksArray) && chunksArray.Length == maxDegree
    ensures len == |input| / 1024 <= maxDegree && FullChunks(input, chunksArray[..len])
  {
    chunksArray := new seq<Byte>[maxDegree];
    len := 0;
    var pos := 0;
    while |input| - pos >= 1024
      invariant pos == 1024 * len <= |input| && len <= maxDegree && FullChunks(input, chunksArray[..len])
    {
      chunksArray[len] := input[pos..pos + 1024];
      pos := pos + 1024;
      len := len + 1;
    }
  }

  /** The first part of compress_chunks_parallel: the full chunks, as one batch. */
  method CompressFullChunks(m: Mode, maxDegree: nat, neon: bool, input: seq<Byte>, counter: nat, out: array<Byte>,
                            at: nat)
    returns (n: nat)
    requires Serves(neon, m)
    requires 1 <= |input| <= 1024 * maxDegree && counter + |input| / 1024 < TWO_64
    requires at + 32 * (|input| / 1024) <= out.Length
    modifies out
    ensures n == |input| / 1024 <= maxDegree
    ensures CVsAt(out[..], at, n) == Leaves(Leaf(m), input, counter)[..n]
    ensures out[..at] == old(out[..at]) && out[at + 32 * n..] == old(out[at + 32 * n..])
  {
    hide CVsAt, HashManyCVs, Leaves, FullChunks;
    var chunksArray;
    chunksArray, n := CollectChunks(input, maxDegree);
    var chunks := chunksArray[..n];
    FullLeaves(m, input, counter, chunks);
    ChunkLengths(input, chunks);
    HashManyAny(ChunkJob(m), neon, chunks, counter, true, out, at);
  }

  lemma ChunkLengths(input: seq<Byte>, chunks: seq<seq<Byte>>)
    requires FullChunks(input, chunks)
    ensures forall i | 0 <= i < |chunks| :: |chunks[i]| == 1024
  {
  }

  /** compress_chunks_parallel */
  method CompressChunksParallel(m: Mode, maxDegree: nat, neon: bool, input: seq<Byte>, counter: nat, out: array<Byte>,
                                at: nat)
    returns (n: nat)
    requires Serves(neon, m)
    requires 1 <= |input| <= 1024 * maxDegree && counter + ChunkCount(|input|) < TWO_64
    requires at + 32 * ChunkCount(|input|) <= out.Length
    modifies out
    ensures n == ChunkCount(|input|)
    ensures CVsAt(out[..], at, n) == Leaves(Leaf(m), input, counter)
    ensures out[..at] == old(out[..at]) && out[at + 32 * n..] == old(out[at + 32 * n..])
  {
    hide CVsAt, Leaf;
    n := CompressFullChunks(m, maxDegree, neon, input, counter, out, at);
    if |input| > 1024 * n {
      TailLeaf(m, input, counter, n);
      hide Leaves;
      var cv := HashChunk(m, input[1024 * n..], counter + n);
      AppendCV(out, at, n, cv);
      n := n + 1;
    }
  }

  /** The blocks made of two adjacent chaining values. */
  ghost predicate Pairs(children: seq<Byte>, num: nat, parents: seq<seq<Byte>>) {
    && 64 * |parents| <= 32 * num <= |children|
    && forall i | 0 <= i < |parents| :: parents[i] == children[64 * i..64 * i + 64]
  }

  lemma PairNode(m: Mode, children: seq<Byte>, num: nat, parents: seq<seq<Byte>>, i: nat)
    requires Pairs(children, num, parents) && i < |parents|
    ensures HashOneCV(ParentJob(m), parents[i], 0) == PairUp(Node(m), CVsAt(children, 0, num))[i]
  {
    ParentJobCV(m, parents[i]);
    PairUpAt(Node(m), CVsAt(children, 0, num), i);
    SliceSlice(children, 64 * i, 64 * i + 64, 0, 32);
    SliceSlice(children, 64 * i, 64 * i + 64, 32, 64);
  }

  /** `hash_many` on the pairs gives the layer of nodes up to the odd value. */
  lemma PairNodes(m: Mode, children: seq<Byte>, num: nat, parents: seq<seq<Byte>>)
    requires Pairs(children, num, parents)
    ensures HashManyCVs(ParentJob(m), parents, 0, false) == PairUp(Node(m), CVsAt(children, 0, num))[..|parents|]
  {
    forall i | 0 <= i < |parents|
      ensures HashManyCVs(ParentJob(m), parents, 0, false)[i] == PairUp(Node(m), CVsAt(children, 0, num))[i]
    {
      PairNode(m, children, num, parents, i);
    }
  }

  lemma OddNode(m: Mode, children: seq<Byte>, num: nat, n: nat)
    requires 32 * num <= |children| && num == 2 * n + 1
    ensures PairUp(Node(m), CVsAt(children, 0, num))
            == PairUp(Node(m), CVsAt(children, 0, num))[..n] + [children[64 * n..64 * n + 32]]
  {
    PairUpAt(Node(m), CVsAt(children, 0, num), n);
  }

  /** The collecting loop of compress_parents_parallel: the blocks fit the array of `max(maxDegree, 2)` slots. */
  method CollectPairs(children: array<Byte>, maxDegree: nat, num: nat)
    returns (parentsArray: array<seq<Byte>>, len: nat)
    requires 32 * num <= children.Length && num <= 2 * Max(maxDegree, 2)
    ensures fresh(parentsArray) && parentsArray.Length == Max(maxDegree, 2)
    ensures len == num / 2 <= parentsArray.Length && Pairs(children[..], num, parentsArray[..len])
  {
    parentsArray := new seq<Byte>[Max(maxDegree, 2)];
    len := 0;
    while num - 2 * len >= 2
      invariant 2 * len <= num && Pairs(children[..], num, parentsArray[..len])
    {
      parentsArray[len] := children[64 * len..64 * len + 64];
      len := len + 1;
    }
  }

  /** compress_parents_parallel */
  method CompressParentsParallel(m: Mode, maxDegree: nat, neon: bool, children: array<Byte>, num: nat,
                                 out: array<Byte>, at: nat)
    returns (n: nat)
    requires Serves(neon, m)
    requires children != out && 32 * num <= children.Length && num <= 2 * Max(maxDegree, 2)
    requires at + 32 * ((num + 1) / 2) <= out.Length
    modifies out
    ensures n == (num + 1) / 2
    ensures CVsAt(out[..], at, n) == PairUp(Node(m), CVsAt(children[..], 0, num))
    ensures out[..at] == old(out[..at]) && out[at + 32 * n..] == old(out[at + 32 * n..])
  {
    hide CVsAt, HashManyCVs, PairUp, Pairs;
    var parentsArray;
    parentsArray, n := CollectPairs(children, maxDegree, num);
    var parents := parentsArray[..n];
    PairNodes(m, children[..], num, parents);
    PairLengths(children[..], num, parents);
    HashManyAny(ParentJob(m), neon, parents, 0, false, out, at);
    if num > 2 * n {
      OddNode(m, children[..], num, n);
      AppendCV(out, at, n, children[64 * n..64 * n + 32]);
      n := n + 1;
    }
  }

  lemma PairLengths(children: seq<Byte>, num: nat, parents: seq<seq<Byte>>)
    requires Pairs(children, num, parents)
    ensures forall i | 0 <= i < |parents| :: |parents[i]| == 64
  {
  }

  // ----- the wide recursion

  /** How many values the wide recursion leaves for a complete subtree of at least `simd` chunks. */
  function WideCount(simd: nat, len: nat): nat {
    if simd == 1 && len > 1024 then 2 else simd
  }

  /** left_subtree_len */
  method LeftSubtreeLen(len: nat) returns (left: nat)
    requires 1024 < len < TWO_64
    ensures left == LeftLen(len)
  {
    var r := RoundDownToPowerOf2((len - 1) / 1024);
    left := r * 1024;
  }

  /** blake3_compress_subtree_wide */
  method CompressSubtreeWide(m: Mode, simd: nat, maxDegree: nat, neon: bool, input: seq<Byte>, counter: nat,
                             out: array<Byte>, at: nat)
    returns (n: nat)
    requires Serves(neon, m)
    requires IsPow2(simd) && simd <= maxDegree
    requires 1 <= |input| < TWO_64 && counter + ChunkCount(|input|) < TWO_64
    requires at + 32 * Max(simd, 2) <= out.Length
    modifies out
    ensures 1 <= n <= Max(simd, 2) && (|input| <= 1024 <==> n == 1)
    ensures Condenses(Leaf(m), Node(m), input, counter, CVsAt(out[..], at, n))
    ensures Complete(|input|) && |input| >= 1024 * simd ==> n == WideCount(simd, |input|)
    ensures out[..at] == old(out[..at]) && out[at + 32 * n..] == old(out[at + 32 * n..])
    decreases |input|
  {
    hide Fold, Children, Reduce, ReduceToPair, Condenses, CVsAt, Leaves;
    if |input| <= 1024 * simd {
      n := CompressChunksParallel(m, maxDegree, neon, input, counter, out, at);
      LeavesCondense(Leaf(m), Node(m), input, counter);
    } else {
      n := CompressBothHalves(m, simd, maxDegree, neon, input, counter, out, at);
    }
  }

  /** The recursive case, first part: both subtrees into one array, the right values directly
      behind the left ones. */
  method CompressHalves(m: Mode, simd: nat, maxDegree: nat, neon: bool, input: seq<Byte>, counter: nat,
                        cvArray: array<Byte>)
    returns (leftN: nat, rightN: nat)
    requires Serves(neon, m)
    requires IsPow2(simd) && simd <= maxDegree
    requires 1024 * simd < |input| < TWO_64 && counter + ChunkCount(|input|) < TWO_64
    requires cvArray.Length == 2 * Max(maxDegree, 2) * 32
    modifies cvArray
    ensures 1 <= rightN <= leftN == WideCount(simd, LeftLen(|input|))
    ensures Complete(|input|) ==> rightN == leftN
    ensures Condenses(Leaf(m), Node(m), input, counter, CVsAt(cvArray[..], 0, leftN + rightN))
    decreases |input|, 0
  {
    hide Fold, Children, Reduce, ReduceToPair, Condenses, CVsAt, Pow2;
    var left := LeftSubtreeLen(|input|);
    CompleteHalves(|input|);
    LeftLenIsLargest(|input|);
    LeftAtLeast(|input|, simd);
    var degree := simd;
    if left > 1024 && degree == 1 {
      degree := 2;
    }
    leftN := CompressSubtreeWide(m, simd, maxDegree, neon, input[..left], counter, cvArray, 0);
    ghost var before := cvArray[..];
    rightN := CompressSubtreeWide(m, simd, maxDegree, neon, input[left..], counter + left / 1024, cvArray, 32 * degree);
    assert leftN == degree;
    assert cvArray[..][..32 * degree] == before[..32 * degree];
    CVsAtFrame(before, 0, cvArray[..], 0, leftN);
    HalvesCondense(m, simd, input, counter, cvArray[..], leftN, rightN);
  }

  lemma WidthIsPow2(simd: nat, len: nat) returns (k: nat)
    requires IsPow2(simd)
    ensures WideCount(simd, len) == Pow2(k)
  {
    k := if WideCount(simd, len) == simd then Log2(simd) else 1;
    Pow2Values();
  }

  lemma HalvesCondense(m: Mode, simd: nat, input: seq<Byte>, counter: nat, bytes: seq<Byte>, leftN: nat, rightN: nat)
    requires IsPow2(simd) && |input| > 1024 && leftN == WideCount(simd, LeftLen(|input|)) && rightN <= leftN
    requires 32 * (leftN + rightN) <= |bytes|
    requires Condenses(Leaf(m), Node(m), input[..LeftLen(|input|)], counter, CVsAt(bytes, 0, leftN))
    requires Condenses(Leaf(m), Node(m), input[LeftLen(|input|)..], counter + LeftLen(|input|) / 1024,
                       CVsAt(bytes, 32 * leftN, rightN))
    ensures Condenses(Leaf(m), Node(m), input, counter, CVsAt(bytes, 0, leftN + rightN))
  {
    hide Fold, Children, Reduce, ReduceToPair, Condenses, CVsAt, LeftLen, IsPow2, WideCount, Leaf, Node;
    var left := LeftLen(|input|);
    var k := WidthIsPow2(simd, left);
    CVsAtConcat(bytes, 0, leftN, rightN);
    CondensesJoin(Leaf(m), Node(m), input, counter, left, CVsAt(bytes, 0, leftN), CVsAt(bytes, 32 * leftN, rightN), k);
  }

  /** The recursive case of blake3_compress_subtree_wide. */
  method CompressBothHalves(m: Mode, simd: nat, maxDegree: nat, neon: bool, input: seq<Byte>, counter: nat,
                            out: array<Byte>, at: nat)
    returns (n: nat)
    requires Serves(neon, m)
    requires IsPow2(simd) && simd <= maxDegree
    requires 1024 * simd < |input| < TWO_64 && counter + ChunkCount(|input|) < TWO_64
    requires at + 32 * Max(simd, 2) <= out.Length
    modifies out
    ensures 2 <= n <= Max(simd, 2)
    ensures Condenses(Leaf(m), Node(m), input, counter, CVsAt(out[..], at, n))
    ensures Complete(|input|) ==> n == WideCount(simd, |input|)
    ensures out[..at] == old(out[..at]) && out[at + 32 * n..] == old(out[at + 32 * n..])
    decreases |input|, 1
  {
    hide Fold, Children, Reduce, ReduceToPair, Condenses, CVsAt, PairUp;
    var cvArray := new Byte[2 * Max(maxDegree, 2) * 32];
    var leftN, rightN := CompressHalves(m, simd, maxDegree, neon, input, counter, cvArray);
    if leftN == 1 {
      WriteBytes(out, at, cvArray[..64]);
      CVsAtFrame(cvArray[..], 0, out[..], at, 2);
      return 2;
    }
    CondensesLayer(Leaf(m), Node(m), input, counter, CVsAt(cvArray[..], 0, leftN + rightN));
    n := CompressParentsParallel(m, maxDegree, neon, cvArray, leftN + rightN, out, at);
  }

  /** compress_subtree_to_parent_node: whatever the SIMD degree, the two halves of the block are the
      chaining values of the two children of the top node. */
  method CompressSubtreeToParentNode(m: Mode, simd: nat, maxDegree: nat, neon: bool, input: seq<Byte>, counter: nat)
    returns (block: Block)
    requires Serves(neon, m)
    requires IsPow2(simd) && simd <= maxDegree && IsPow2(maxDegree)
    requires 1024 < |input| < TWO_64 && counter + ChunkCount(|input|) < TWO_64
    ensures block[..32] == TreeCV(m, input[..LeftLen(|input|)], counter)
    ensures block[32..] == TreeCV(m, input[LeftLen(|input|)..], counter + LeftLen(|input|) / 1024)
  {
    hide Fold, Children, Reduce, ReduceToPair, Condenses, CVsAt, TreeCV, LeftLen;
    var maxOr2 := Max(maxDegree, 2);
    ghost var half := MaxOr2Even(maxDegree);
    var cvArray := new Byte[maxOr2 * 32];
    var num := CompressSubtreeWide(m, simd, maxDegree, neon, input, counter, cvArray, 0);
    var outArray := new Byte[maxOr2 * 32 / 2];
    while num > 2
      invariant 2 <= num <= 2 * half
      invariant Condenses(Leaf(m), Node(m), input, counter, CVsAt(cvArray[..], 0, num))
      decreases num
    {
      num := CondenseStep(m, maxDegree, neon, input, counter, cvArray, outArray, num, half);
    }
    block := cvArray[..64];
    PairOfBlock(m, input, counter, cvArray[..], block);
  }

  lemma MaxOr2Even(maxDegree: nat) returns (half: nat)
    requires IsPow2(maxDegree)
    ensures Max(maxDegree, 2) == 2 * half
  {
    half := if maxDegree > 1 then Pow2(Log2(maxDegree) - 1) else 1;
  }

  /** One turn of the condensing loop. */
  method CondenseStep(m: Mode, maxDegree: nat, neon: bool, ghost input: seq<Byte>, ghost counter: nat,
                      cvArray: array<Byte>, outArray: array<Byte>, num: nat, ghost half: nat)
    returns (n: nat)
    requires Serves(neon, m)
    requires Max(maxDegree, 2) == 2 * half && cvArray != outArray
    requires 2 < num <= 2 * half && cvArray.Length == 64 * half && outArray.Length == 32 * half
    requires Condenses(Leaf(m), Node(m), input, counter, CVsAt(cvArray[..], 0, num))
    modifies cvArray, outArray
    ensures 2 <= n < num
    ensures Condenses(Leaf(m), Node(m), input, counter, CVsAt(cvArray[..], 0, n))
  {
    hide Fold, Children, Reduce, ReduceToPair, Condenses, CVsAt, PairUp;
    CondensesLayer(Leaf(m), Node(m), input, counter, CVsAt(cvArray[..], 0, num));
    n := CompressParentsParallel(m, maxDegree, neon, cvArray, num, outArray, 0);
    ghost var layer := outArray[..];
    WriteBytes(cvArray, 0, outArray[..32 * n]);
    assert cvArray[..][0..32 * n] == layer[0..32 * n];
    CVsAtFrame(layer, 0, cvArray[..], 0, n);
  }

  lemma PairOfBlock(m: Mode, input: seq<Byte>, counter: nat, cvs: seq<Byte>, block: seq<Byte>)
    requires |input| > 1024 && |cvs| >= 64 && block == cvs[..64]
    requires Condenses(Leaf(m), Node(m), input, counter, CVsAt(cvs, 0, 2))
    ensures block[..32] == TreeCV(m, input[..LeftLen(|input|)], counter)
    ensures block[32..] == TreeCV(m, input[LeftLen(|input|)..], counter + LeftLen(|input|) / 1024)
  {
    assert CVsAt(cvs, 0, 2) == [cvs[0..32], cvs[32..64]];
    assert block[..32] == cvs[0..32] && block[32..] == cvs[32..64];
  }
}
