/** `blake3_hasher`: the incremental hasher (blake3.c). */
module Hasher {
  import opened Bits
  import opened Words
  import opened Balanced
  import opened Tree
  import opened Chunk
  import opened HashMany
  import opened Dispatch
  import opened Wide
  import opened Stack
  import Root

  // ----- rolling up the stack, as facts about values

  /** One turn of the roll-up loop: entry `i` is the left child of the node over everything from
      entry `i` on. */
  lemma RollUpStep(m: Mode, data: seq<Byte>, es: seq<nat>, cvs: seq<CV>, i: nat)
    requires Pieces(m, data, es, cvs) && Lazy(es) && i < |es|
    requires var hi := Chunks(es[..i + 1]); 1024 * hi < |data| <= 1024 * (hi + Pow2(es[i]))
    ensures var lo, hi := Chunks(es[..i]), Chunks(es[..i + 1]);
            && 1024 * lo <= |data|
            && TreeOutput(m, data[1024 * lo..], lo) == ParentOutput(m, Pair(cvs[i], TreeCV(m, data[1024 * hi..], hi)))
  {
    hide TreeOutput, TreeCV, ParentOutput, Pow2;
    AboveIsSmaller(es, i);
    assert PieceAt(m, data, es, cvs[i], i);
    var lo, hi := Chunks(es[..i]), Chunks(es[..i + 1]);
    var a, b := 1024 * lo, 1024 * hi;
    JoinOutput(m, data[a..], lo, es[i], b - a);
    SliceSlice(data, a, |data|, 0, b - a);
    assert data[a..][..b - a] == data[a..b] && data[a..][b - a..] == data[b..];
  }

  /** The node over the top two entries of a stack that covers all the data. */
  lemma RollUpStart(m: Mode, data: seq<Byte>, es: seq<nat>, cvs: seq<CV>)
    requires Pieces(m, data, es, cvs) && Lazy(es) && |es| >= 2 && |data| == 1024 * Chunks(es)
    ensures var i := |es| - 2; var lo := Chunks(es[..i]);
            && 1024 * lo <= |data|
            && TreeOutput(m, data[1024 * lo..], lo) == ParentOutput(m, Pair(cvs[i], cvs[i + 1]))
  {
    hide TreeOutput, TreeCV, ParentOutput, Pow2, Chunks;
    var i := |es| - 2;
    AboveIsSmaller(es, i);
    AboveIsSmaller(es, i + 1);
    assert PieceAt(m, data, es, cvs[i + 1], i + 1);
    assert es[..i + 2] == es;
    var hi := Chunks(es[..i + 1]);
    assert data[1024 * hi..] == data[1024 * hi..1024 * Chunks(es)];
    RollUpStep(m, data, es, cvs, i);
  }

  // ----- choosing the next subtree

  /** No power of two above `len` both fits the input and divides the count. */
  ghost predicate Largest(inputLen: nat, countSoFar: nat, len: nat) {
    forall p: nat | IsPow2(p) && p <= inputLen && countSoFar % p == 0 :: p <= len
  }

  /** The round-down and halving loop of blake3_hasher_update_base: the largest power of two that
      fits the input and divides the bytes hashed so far. It is at least one chunk. */
  method SelectSubtreeLen(inputLen: nat, countSoFar: nat) returns (len: nat)
    requires 1024 < inputLen < TWO_64 && countSoFar % 1024 == 0
    ensures IsPow2(len) && 1024 <= len <= inputLen && countSoFar % len == 0
    ensures Largest(inputLen, countSoFar, len)
  {
    len := RoundDownToPowerOf2(inputLen);
    ghost var e := Log2(len);
    FitsBelow(inputLen, countSoFar, len);
    AtLeastChunk(len);
    hide Largest, Pow2, Log2, BitAnd;
    while BitAnd(len - 1, countSoFar) != 0
      invariant len == Pow2(e) && 1024 <= len <= inputLen
      invariant Largest(inputLen, countSoFar, len)
      decreases len
    {
      MaskIsMod(countSoFar, e);
      HalveStep(inputLen, countSoFar, e);
      len := len / 2;
      e := e - 1;
    }
    MaskIsMod(countSoFar, e);
    Pow2IsPow2(e);
  }

  lemma FitsBelow(inputLen: nat, countSoFar: nat, len: nat)
    requires IsPow2(len) && len <= inputLen < 2 * len
    ensures Largest(inputLen, countSoFar, len)
  {
    forall p: nat | IsPow2(p) && p <= inputLen ensures p <= len {
      if p > len {
        Pow2Injective(Log2(len), Log2(p));
        Pow2Monotonic(Log2(len), Log2(p));
      }
    }
  }

  lemma AtLeastChunk(len: nat)
    requires IsPow2(len) && 2 * len > 1024
    ensures len >= 1024
  {
    Pow2Values();
    var e := Log2(len);
    if e < 10 {
      Pow2Monotonic(e, 10);
    } else {
      Pow2Monotonic(10, e);
    }
  }

  lemma BelowPow2(p: nat, e: nat)
    requires e >= 1 && IsPow2(p) && p <= Pow2(e) && p != Pow2(e)
    ensures p <= Pow2(e - 1)
  {
    var k := Log2(p);
    Pow2Injective(k, e);
    Pow2Monotonic(k, e - 1);
  }

  lemma HalveStep(inputLen: nat, count: nat, e: nat)
    requires count % 1024 == 0 && count % Pow2(e) != 0 && Pow2(e) >= 1024 && Largest(inputLen, count, Pow2(e))
    ensures e >= 1 && Pow2(e - 1) >= 1024 && Pow2(e) == 2 * Pow2(e - 1)
    ensures Largest(inputLen, count, Pow2(e - 1))
  {
    Pow2Values();
    Pow2Injective(10, e);
    assert e != 10;
    Pow2Monotonic(10, e - 1);
    hide Log2;
    forall p: nat | IsPow2(p) && p <= inputLen && count % p == 0 ensures p <= Pow2(e - 1) {
      BelowPow2(p, e);
    }
  }

  /** The chosen length in chunks: a power of two that divides the chunk count. */
  lemma SubtreeChunks(len: nat, chunks: nat) returns (k: nat)
    requires IsPow2(len) && len >= 1024 && (1024 * chunks) % len == 0
    ensures len == 1024 * Pow2(k) && chunks % Pow2(k) == 0
    ensures k > 0 <==> len > 1024
  {
    k := ExponentOf(len);
    hide Pow2, IsPow2;
    ExactDivision(1024 * chunks, len);
    CancelChunkLen(chunks, (1024 * chunks) / len, Pow2(k));
  }

  lemma ExponentOf(len: nat) returns (k: nat)
    requires IsPow2(len) && len >= 1024
    ensures len == 1024 * Pow2(k) && (k > 0 <==> len > 1024)
  {
    Pow2Values();
    Pow2Injective(10, Log2(len));
    k := Log2(len) - 10;
    Pow2Add(10, k);
  }

  lemma ExactDivision(n: nat, d: nat)
    requires d > 0 && n % d == 0
    ensures n == (n / d) * d
  {
  }

  lemma CancelChunkLen(n: nat, q: nat, d: nat)
    requires d > 0 && 1024 * n == q * (1024 * d)
    ensures n % d == 0
  {
    assert q * (1024 * d) == 1024 * (q * d);
    MultipleMod(q, d);
  }

  // ----- the hasher

  class Hasher {
    const mode: Mode
    const chunk: ChunkState
    const cvStack: array<Byte>
    var cvStackLen: nat
    /** Base-two logarithm of the number of chunks under each stack entry, bottom first. */
    ghost var sizes: seq<nat>
    /** All input so far. */
    ghost var absorbed: seq<Byte>

    /** The stack holds the values of consecutive complete subtrees at the start of `data`. */
    ghost predicate StackHolds(data: seq<Byte>)
      reads this, cvStack
    {
      && cvStack.Length == 55 * 32
      && cvStackLen == |sizes| <= 54
      && Lazy(sizes)
      && Pieces(mode, data, sizes, CVsAt(cvStack[..], 0, cvStackLen))
    }

    /** The parts of the object belong together. */
    ghost predicate Parts()
      reads this, chunk, chunk.buf
    {
      chunk.Valid() && chunk.mode == mode && chunk.buf != cvStack && chunk.chunkCounter == Chunks(sizes)
    }

    ghost predicate Valid()
      reads this, chunk, chunk.buf, cvStack
    {
      && Parts() && StackHolds(absorbed)
      && |absorbed| < TWO_64
      && |absorbed| == 1024 * Chunks(sizes) + |chunk.absorbed|
      && absorbed[1024 * Chunks(sizes)..] == chunk.absorbed
      && (chunk.absorbed != [] ==> Strict(sizes))
      && (chunk.absorbed == [] && sizes != [] ==> |sizes| >= 2)
    }

    /** hasher_init_base */
    constructor (m: Mode)
      ensures Valid() && absorbed == [] && mode == m
      ensures fresh(chunk) && fresh(chunk.buf) && fresh(cvStack)
    {
      hide Lazy, Strict, Chunks, ChainBlocks, PadBlock, Pieces, CVsAt;
      mode := m;
      chunk := new ChunkState(m, 0);
      cvStack := new Byte[55 * 32];
      cvStackLen := 0;
      sizes := [];
      absorbed := [];
      new;
      PiecesEmpty(m, cvStack[..]);
    }

    /** One turn of the loop of hasher_merge_cv_stack: the parent of the top two replaces them. */
    method MergeTopTwo(ghost data: seq<Byte>)
      requires StackHolds(data) && TopTwoEqual(sizes)
      modifies this`cvStackLen, this`sizes, cvStack
      ensures StackHolds(data) && sizes == Joined(old(sizes)) && Chunks(sizes) == old(Chunks(sizes))
    {
      hide Pieces, TreeCV, OutputCV, ParentOutput, Chunks;
      ghost var cvs, before := CVsAt(cvStack[..], 0, cvStackLen), cvStack[..];
      var at := (cvStackLen - 2) * 32;
      var parentNode: Block := cvStack[at..at + 64];
      var cv := OutputCV(mode, ParentOutput(mode, parentNode));
      PiecesJoin(mode, data, sizes, cvs);
      JoinedKeepsChunks(sizes);
      assert parentNode == Pair(cvs[cvStackLen - 2], cvs[cvStackLen - 1]);
      WriteBytes(cvStack, at, cv);
      ReplaceTop(before, cvStack[..], cvStackLen, cv);
      cvStackLen := cvStackLen - 1;
      sizes := Joined(sizes);
    }

    /** hasher_merge_cv_stack: merging down to one entry per set bit is merging all that can be. */
    method MergeCvStack(totalLen: nat, ghost data: seq<Byte>)
      requires StackHolds(data) && totalLen == Chunks(sizes)
      modifies this`cvStackLen, this`sizes, cvStack
      ensures StackHolds(data) && Strict(sizes) && Chunks(sizes) == totalLen
    {
      hide Pieces, TreeCV, Chunks, PopCount, CVsAt;
      var postMergeStackLen := PopCnt(totalLen);
      LazyPopCount(sizes);
      while cvStackLen > postMergeStackLen
        invariant StackHolds(data) && totalLen == Chunks(sizes)
        invariant cvStackLen > postMergeStackLen <==> TopTwoEqual(sizes)
        invariant cvStackLen > postMergeStackLen <==> !Strict(sizes)
        decreases cvStackLen
      {
        MergeTopTwo(data);
        LazyPopCount(sizes);
      }
    }

    /** hasher_push_cv: merge what is pending, then put the new value on top, unmerged. */
    method PushCV(cv: CV, totalLen: nat, ghost data: seq<Byte>, ghost k: nat)
      requires StackHolds(data) && totalLen == Chunks(sizes) && totalLen % Pow2(k) == 0
      requires 1024 * (totalLen + Pow2(k)) <= |data| < TWO_64
      requires cv == TreeCV(mode, data[1024 * totalLen..1024 * (totalLen + Pow2(k))], totalLen)
      modifies this`cvStackLen, this`sizes, cvStack
      ensures StackHolds(data) && Chunks(sizes) == totalLen + Pow2(k)
      ensures totalLen > 0 ==> |sizes| >= 2
    {
      hide Pieces, TreeCV, CVsAt, Pow2, Lazy, Strict, Chunks;
      MergeCvStack(totalLen, data);
      ghost var cvs := CVsAt(cvStack[..], 0, cvStackLen);
      MayPush(sizes, k);
      PiecesPush(mode, data, sizes, cvs, k, cv);
      AppendCV(cvStack, 0, cvStackLen, cv);
      cvStackLen := cvStackLen + 1;
      sizes := sizes + [k];
    }

    /** A full chunk that more input follows is compressed and pushed, and the next chunk starts. */
    method FlushChunk(ghost all: seq<Byte>, ghost rest: seq<Byte>)
      requires Parts() && StackHolds(all) && |all| < TWO_64 && |chunk.absorbed| == 1024
      requires 1024 * Chunks(sizes) <= |all| && all[1024 * Chunks(sizes)..] == chunk.absorbed + rest
      modifies this`cvStackLen, this`sizes, chunk, chunk.buf, cvStack
      ensures Parts() && StackHolds(all) && chunk.absorbed == [] && Continues(all, rest)
    {
      hide Pieces, TreeCV, CVsAt, Lazy, Strict, Chunks, ChainBlocks, PadBlock, OutputCV, ChunkOutput;
      ghost var n := Chunks(sizes);
      var cv := OutputCV(mode, chunk.Out());
      assert all[1024 * n..1024 * (n + 1)] == chunk.absorbed;
      FullChunkCV(mode, chunk.absorbed, n);
      PushCV(cv, chunk.chunkCounter, all, 0);
      chunk.Reset(chunk.chunkCounter + 1);
      assert all[1024 * (n + 1)..] == rest;
    }

    /** The first part of blake3_hasher_update_base: finish a partly filled chunk. What is left of
        the input then starts at a chunk boundary. */
    method FinishChunk(input: seq<Byte>) returns (rest: seq<Byte>)
      requires Valid() && chunk.absorbed != [] && input != [] && |absorbed| + |input| < TWO_64
      modifies this, chunk, chunk.buf, cvStack
      ensures Parts() && StackHolds(old(absorbed) + input)
      ensures rest == [] ==> Valid() && absorbed == old(absorbed) + input
      ensures rest != [] ==> chunk.absorbed == [] && absorbed == old(absorbed) && Continues(old(absorbed) + input, rest)
    {
      hide Pieces, TreeCV, CVsAt, Lazy, Strict, Chunks, ChainBlocks, PadBlock;
      ghost var all := absorbed + input;
      PiecesMoreData(mode, absorbed, input, sizes, CVsAt(cvStack[..], 0, cvStackLen));
      var take := Min(1024 - chunk.Len(), |input|);
      chunk.Update(input[..take]);
      rest := input[take..];
      assert all[1024 * Chunks(sizes)..] == chunk.absorbed + rest;
      if rest != [] {
        FlushChunk(all, rest);
      } else {
        absorbed := all;
      }
    }

    /** The single-chunk branch of the subtree loop. */
    method PushChunk(data: seq<Byte>, ghost all: seq<Byte>)
      requires Parts() && StackHolds(all) && |data| == 1024 && |all| < TWO_64
      requires var n := Chunks(sizes); 1024 * (n + 1) <= |all| && all[1024 * n..1024 * (n + 1)] == data
      modifies this`cvStackLen, this`sizes, cvStack
      ensures StackHolds(all) && Chunks(sizes) == old(Chunks(sizes)) + 1
    {
      hide Pieces, TreeCV, CVsAt, Lazy, Strict, OutputCV, ChunkOutput;
      var cv := HashChunk(mode, data, chunk.chunkCounter);
      FullChunkCV(mode, data, chunk.chunkCounter);
      PushCV(cv, chunk.chunkCounter, all, 0);
    }

    /** The wide branch of the subtree loop: both children of a complete subtree are pushed, so its
        top node stays uncompressed. */
    method PushPair(data: seq<Byte>, simd: nat, maxDegree: nat, neon: bool, ghost all: seq<Byte>, ghost k: nat)
      requires Parts() && StackHolds(all) && |all| < TWO_64
      requires IsPow2(simd) && simd <= maxDegree && IsPow2(maxDegree) && Serves(neon, mode)
      requires |data| == 1024 * Pow2(k + 1) && Chunks(sizes) % Pow2(k + 1) == 0
      requires var n := Chunks(sizes);
               1024 * (n + Pow2(k + 1)) <= |all| && all[1024 * n..1024 * (n + Pow2(k + 1))] == data
      modifies this`cvStackLen, this`sizes, cvStack
      ensures StackHolds(all) && Chunks(sizes) == old(Chunks(sizes)) + Pow2(k + 1) && |sizes| >= 2
    {
      hide Pieces, TreeCV, CVsAt, Lazy, Strict, Chunks, LeftLen;
      ghost var n := Chunks(sizes);
      var counter, half := chunk.chunkCounter, |data| / 1024 / 2;
      assert half == Pow2(k);
      LeftLenUnique(|data|, k, 1024 * half);
      var block := CompressSubtreeToParentNode(mode, simd, maxDegree, neon, data, counter);
      HalvesOfAll(all, data, n, half);
      AlignedHalves(n, k);
      PushCV(block[..32], counter, all, k);
      PushCV(block[32..], counter + half, all, k);
    }

    /** One turn of the subtree loop. */
    method AbsorbSubtree(input: seq<Byte>, simd: nat, maxDegree: nat, neon: bool, ghost all: seq<Byte>)
      returns (rest: seq<Byte>)
      requires Parts() && StackHolds(all) && chunk.absorbed == [] && |all| < TWO_64
      requires Continues(all, input) && |input| > 1024
      requires IsPow2(simd) && simd <= maxDegree && IsPow2(maxDegree) && Serves(neon, mode)
      modifies this`cvStackLen, this`sizes, chunk, cvStack
      ensures Parts() && StackHolds(all) && chunk.absorbed == []
      ensures Continues(all, rest) && |rest| < |input| && (rest == [] ==> |sizes| >= 2)
    {
      hide Pieces, TreeCV, CVsAt, Lazy, Strict, Chunks, Largest, IsPow2, ChainBlocks, PadBlock, Serves;
      var subtreeLen := SelectSubtreeLen(|input|, chunk.chunkCounter * 1024);
      ghost var n := Chunks(sizes);
      ghost var k := SubtreeChunks(subtreeLen, n);
      var data := input[..subtreeLen];
      assert all[1024 * n..1024 * n + subtreeLen] == data;
      if subtreeLen <= 1024 {
        PushChunk(data, all);
      } else {
        PushPair(data, simd, maxDegree, neon, all, k - 1);
      }
      chunk.Advance(subtreeLen / 1024);
      rest := input[subtreeLen..];
      assert rest == all[1024 * n + subtreeLen..];
    }

    /** The last part of blake3_hasher_update_base: what is left goes to the chunk state, and then
        no merge may stay pending. */
    method AbsorbTail(rest: seq<Byte>, ghost all: seq<Byte>)
      requires Parts() && StackHolds(all) && chunk.absorbed == [] && |all| < TWO_64
      requires Continues(all, rest) && |rest| <= 1024 && (rest == [] ==> |sizes| >= 2)
      modifies this, chunk, chunk.buf, cvStack
      ensures Valid() && absorbed == all
    {
      hide Pieces, TreeCV, CVsAt, Lazy, Strict, Chunks;
      if rest != [] {
        chunk.Update(rest);
        MergeCvStack(chunk.chunkCounter, all);
      }
      absorbed := all;
    }

    /** blake3_hasher_update_base */
    method Update(input: seq<Byte>, simd: nat, maxDegree: nat, neon: bool)
      requires Valid() && |absorbed| + |input| < TWO_64
      requires IsPow2(simd) && simd <= maxDegree && IsPow2(maxDegree) && Serves(neon, mode)
      modifies this, chunk, chunk.buf, cvStack
      ensures Valid() && absorbed == old(absorbed) + input
    {
      hide Pieces, TreeCV, CVsAt, Lazy, Strict, Chunks, IsPow2;
      ghost var all := absorbed + input;
      if input == [] {
        assert all == absorbed;
        return;
      }
      var rest := input;
      if chunk.Len() > 0 {
        rest := FinishChunk(input);
        if rest == [] {
          return;
        }
      } else {
        PiecesMoreData(mode, absorbed, input, sizes, CVsAt(cvStack[..], 0, cvStackLen));
        assert all[|absorbed|..] == input;
      }
      while |rest| > 1024
        invariant Parts() && StackHolds(all) && chunk.absorbed == []
        invariant Continues(all, rest) && (rest == [] ==> |sizes| >= 2)
        decreases |rest|
      {
        rest := AbsorbSubtree(rest, simd, maxDegree, neon, all);
      }
      AbsorbTail(rest, all);
    }

    /** The node that finalization starts from: the current chunk, or the parent of the top two
        entries, and how many entries are below it. */
    method FinalizeStart() returns (output: Output, remaining: nat)
      requires Valid()
      ensures remaining <= |sizes| && 1024 * Chunks(sizes[..remaining]) <= |absorbed|
      ensures output == TreeOutput(mode, absorbed[1024 * Chunks(sizes[..remaining])..], Chunks(sizes[..remaining]))
      ensures remaining > 0 ==> 1024 * Chunks(sizes[..remaining]) < |absorbed|
      ensures chunk.absorbed == [] ==> |absorbed| == 1024 * Chunks(sizes)
    {
      hide TreeCV, Lazy, Strict, ParentOutput;
      assert sizes[..|sizes|] == sizes;
      if cvStackLen == 0 || chunk.Len() > 0 {
        output, remaining := chunk.Out(), cvStackLen;
      } else {
        remaining := cvStackLen - 2;
        var block: Block := cvStack[remaining * 32..remaining * 32 + 64];
        ghost var cvs := CVsAt(cvStack[..], 0, cvStackLen);
        assert block == Pair(cvs[remaining], cvs[remaining + 1]);
        RollUpStart(mode, absorbed, sizes, cvs);
        output := ParentOutput(mode, block);
      }
    }

    /** One turn of the roll-up loop: the entry below becomes the left sibling. */
    method RollUp(output: Output, i: nat) returns (parent: Output)
      requires Valid() && i < |sizes|
      requires 1024 * Chunks(sizes[..i + 1]) < |absorbed|
      requires output == TreeOutput(mode, absorbed[1024 * Chunks(sizes[..i + 1])..], Chunks(sizes[..i + 1]))
      ensures 1024 * Chunks(sizes[..i]) < |absorbed|
      ensures parent == TreeOutput(mode, absorbed[1024 * Chunks(sizes[..i])..], Chunks(sizes[..i]))
    {
      hide TreeCV, TreeOutput, OutputCV, ParentOutput, Pow2, Pieces;
      var left: CV, right := cvStack[i * 32..i * 32 + 32], OutputCV(mode, output);
      var parentBlock := Pair(left, right);
      ghost var cvs := CVsAt(cvStack[..], 0, cvStackLen);
      assert left == cvs[i];
      TreeCVOfOutput(mode, absorbed[1024 * Chunks(sizes[..i + 1])..], Chunks(sizes[..i + 1]));
      AboveIsSmaller(sizes, i);
      RollUpStep(mode, absorbed, sizes, cvs, i);
      parent := ParentOutput(mode, parentBlock);
    }

    /** The root node of everything absorbed: blake3_hasher_finalize_seek up to its output. */
    method RootOutput() returns (output: Output)
      requires Valid()
      ensures output == TreeOutput(mode, absorbed, 0)
    {
      hide TreeOutput, Pieces, CVsAt, Lazy, Strict;
      var remaining;
      output, remaining := FinalizeStart();
      while remaining > 0
        invariant 0 <= remaining <= |sizes| && 1024 * Chunks(sizes[..remaining]) <= |absorbed|
        invariant remaining > 0 ==> 1024 * Chunks(sizes[..remaining]) < |absorbed|
        invariant output == TreeOutput(mode, absorbed[1024 * Chunks(sizes[..remaining])..], Chunks(sizes[..remaining]))
      {
        remaining := remaining - 1;
        output := RollUp(output, remaining);
      }
      assert absorbed[1024 * Chunks(sizes[..0])..] == absorbed;
    }

    /** blake3_hasher_finalize_seek */
    method FinalizeSeek(seek: nat, out: array<Byte>, outLen: nat)
      requires Valid() && outLen <= out.Length
      modifies out
      ensures out[..outLen] == Hash(mode, old(absorbed), seek, outLen)
      ensures out[outLen..] == old(out[outLen..])
    {
      hide TreeOutput, RootBytes;
      var output := RootOutput();
      Root.OutputRootBytes(mode, output, seek, out, outLen);
    }

    /** blake3_hasher_reset, from any state. */
    method Reset()
      requires cvStack.Length == 55 * 32 && chunk.buf.Length == 64 && chunk.mode == mode && chunk.buf != cvStack
      modifies this, chunk, chunk.buf
      ensures Valid() && absorbed == []
    {
      hide Lazy, Strict, Chunks, ChainBlocks, PadBlock, Pieces, CVsAt;
      PiecesEmpty(mode, cvStack[..]);
      chunk.Reset(0);
      cvStackLen := 0;
      sizes := [];
      absorbed := [];
    }

    /** Between the parts of an update: everything up to the chunk boundary is on the stack and
        `rest` is what remains. */
    ghost predicate Continues(data: seq<Byte>, rest: seq<Byte>)
      reads this
    {
      1024 * Chunks(sizes) <= |data| && rest == data[1024 * Chunks(sizes)..]
    }
  }

  /** In every valid state, every stored chaining value is that of an aligned complete subtree, and none of them
      covers all the input: the root is never compressed early. When the chunk is empty there are no entries or at
      least two, so finalization may start from the top two. */
  lemma RootIsNotStored(h: Hasher, i: nat)
    requires h.Valid() && i < h.cvStackLen
    ensures Chunks(h.sizes[..i]) % Pow2(h.sizes[i]) == 0
    ensures 1024 * Pow2(h.sizes[i]) < |h.absorbed|
    ensures PieceAt(h.mode, h.absorbed, h.sizes, CVsAt(h.cvStack[..], 0, h.cvStackLen)[i], i)
    ensures h.chunk.absorbed == [] ==> h.cvStackLen >= 2
  {
    hide PieceAt, CVsAt, ChainBlocks, PadBlock;
    EntryIsAligned(h.sizes, i);
    AboveIsSmaller(h.sizes, i);
    if |h.sizes| >= 2 {
      EntryIsPart(h.sizes, i);
    }
  }

  lemma HalvesOfAll(all: seq<Byte>, data: seq<Byte>, n: nat, half: nat)
    requires |data| == 2048 * half && 1024 * (n + 2 * half) <= |all|
    requires all[1024 * n..1024 * (n + 2 * half)] == data
    ensures data[..1024 * half] == all[1024 * n..1024 * (n + half)]
    ensures data[1024 * half..] == all[1024 * (n + half)..1024 * (n + 2 * half)]
  {
    SliceSlice(all, 1024 * n, 1024 * (n + 2 * half), 0, 1024 * half);
    SliceSlice(all, 1024 * n, 1024 * (n + 2 * half), 1024 * half, 2048 * half);
  }

  lemma AlignedHalves(n: nat, k: nat)
    requires n % Pow2(k + 1) == 0
    ensures n % Pow2(k) == 0 && (n + Pow2(k)) % Pow2(k) == 0
  {
    ModSmaller(n, k, k + 1);
    ModSum(n, Pow2(k), Pow2(k));
    Pow2Divides(k, k);
  }

  /** The empty stack. */
  lemma PiecesEmpty(m: Mode, bytes: seq<Byte>)
    ensures Pieces(m, [], [], CVsAt(bytes, 0, 0)) && Lazy([]) && Strict([]) && Chunks([]) == 0
  {
  }

  /** A full chunk is a subtree of one chunk. */
  lemma FullChunkCV(m: Mode, data: seq<Byte>, counter: nat)
    requires |data| == 1024
    ensures OutputCV(m, ChunkOutput(m, data, counter)) == TreeCV(m, data, counter)
    ensures Pow2(0) == 1 && counter % Pow2(0) == 0
  {
  }

  function Concat(parts: seq<seq<Byte>>): seq<Byte> {
    if parts == [] then [] else Concat(parts[..|parts| - 1]) + parts[|parts| - 1]
  }

  /** Hashing a message that arrives in any number of parts of any size, as blake3_mini_fd reads a
      file: the digest is that of the whole message, whatever the parts, whatever the SIMD degree used
      for each, and whichever batch function. */
  method HashParts(m: Mode, parts: seq<seq<Byte>>, degrees: seq<nat>, maxDegree: nat, neon: bool, seek: nat,
                   outLen: nat)
    returns (digest: seq<Byte>)
    requires |Concat(parts)| < TWO_64 && |degrees| == |parts| && IsPow2(maxDegree) && Serves(neon, m)
    requires forall i | 0 <= i < |degrees| :: IsPow2(degrees[i]) && degrees[i] <= maxDegree
    ensures digest == Hash(m, Concat(parts), seek, outLen)
  {
    hide *;
    ConcatSteps(parts, 0);
    var hasher := new Hasher(m);
    var i := 0;
    while i < |parts|
      invariant 0 <= i <= |parts| && fresh(hasher) && fresh(hasher.chunk)
      invariant fresh(hasher.chunk.buf) && fresh(hasher.cvStack)
      invariant hasher.Valid() && hasher.mode == m && hasher.absorbed == Concat(parts[..i])
    {
      ConcatSteps(parts, i);
      ConcatPrefix(parts, i + 1);
      hasher.Update(parts[i], degrees[i], maxDegree, neon);
      i := i + 1;
    }
    assert parts[..i] == parts;
    var out := new Byte[outLen];
    hasher.FinalizeSeek(seek, out, outLen);
    digest := out[..];
  }

  lemma ConcatSteps(parts: seq<seq<Byte>>, n: nat)
    ensures Concat(parts[..0]) == []
    ensures n < |parts| ==> Concat(parts[..n + 1]) == Concat(parts[..n]) + parts[n]
  {
    if n < |parts| {
      assert parts[..n + 1][..n] == parts[..n];
    }
  }

  lemma {:induction false} ConcatPrefix(parts: seq<seq<Byte>>, n: nat)
    requires n <= |parts|
    ensures |Concat(parts[..n])| <= |Concat(parts)|
    decreases |parts| - n
  {
    if n == |parts| {
      assert parts[..n] == parts;
    } else {
      ConcatPrefix(parts, n + 1);
      assert parts[..n + 1][..n] == parts[..n];
    }
  }

  /** Pushing an aligned subtree onto a fully merged stack keeps its shape and its bound. */
  lemma MayPush(es: seq<nat>, k: nat)
    requires Strict(es) && Chunks(es) % Pow2(k) == 0 && 1024 * (Chunks(es) + Pow2(k)) < TWO_64
    ensures Lazy(es + [k]) && Chunks(es + [k]) == Chunks(es) + Pow2(k)
    ensures |es + [k]| <= 54 && (Chunks(es) > 0 ==> |es + [k]| >= 2)
  {
    PushIsLazy(es, k);
    Pow2Values();
    StackBound(es, k);
  }

  /** Overwriting the entry below the top and dropping the top. */
  lemma ReplaceTop(before: seq<Byte>, after: seq<Byte>, n: nat, cv: CV)
    requires n >= 2 && 32 * n <= |before| == |after|
    requires after[32 * (n - 2)..32 * (n - 2) + 32] == cv && after[..32 * (n - 2)] == before[..32 * (n - 2)]
    ensures CVsAt(after, 0, n - 1) == CVsAt(before, 0, n)[..n - 2] + [cv]
  {
    CVsAtFrame(before, 0, after, 0, n - 2);
    CVsAtConcat(after, 0, n - 2, 1);
    CVsAtConcat(before, 0, n - 2, 2);
  }
}
