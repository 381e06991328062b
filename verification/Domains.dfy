/** The tree hash written out once more with its flags as numbers, and the separation of domains that
    the flags are for. */
module Domains {
  import opened Bits
  import opened Words
  import opened Balanced
  import opened Tree

  // ----- flags as numbers

  lemma {:induction false} AndPow2(x: nat, k: nat)
    ensures BitAnd(x, Pow2(k)) == if x / Pow2(k) % 2 == 0 then 0 else Pow2(k)
    decreases k
  {
    hide BitAnd, Pow2;
    Pow2Step(k);
    AndLast(x, Pow2(k));
    if k == 0 {
      MaskZero(x / 2);
    } else {
      AndPow2(x / 2, k - 1);
      ModDouble(x, Pow2(k - 1));
    }
  }

  /** A flag that is clear is added. */
  lemma OrAdds(x: nat, k: nat)
    requires x / Pow2(k) % 2 == 0
    ensures BitOr(x, Pow2(k)) == x + Pow2(k)
  {
    hide BitOr, BitAnd, Pow2;
    AndPow2(x, k);
    OrSum(x, Pow2(k));
  }

  lemma FlagValues()
    ensures Pow2(0) == 1 && Pow2(1) == 2 && Pow2(2) == 4 && Pow2(3) == 8
  {
  }

  /** No flag of the tree is part of the flags of a hashing mode. */
  predicate ModeFlags(flags: nat) {
    flags % 16 == 0
  }

  lemma QuotientsAreEven(f: nat)
    requires ModeFlags(f)
    ensures f / 1 % 2 == 0 && f / 2 % 2 == 0 && (f + 1) / 2 % 2 == 0 && f / 4 % 2 == 0
    ensures (f + 2) / 8 % 2 == 0 && (f + 3) / 8 % 2 == 0 && (f + 4) / 8 % 2 == 0
  {
    var q := f / 16;
    assert f == 16 * q;
    assert f / 2 == 2 * (4 * q) && (f + 1) / 2 == 2 * (4 * q) && f / 4 == 2 * (2 * q);
    assert (f + 2) / 8 == 2 * q && (f + 3) / 8 == 2 * q && (f + 4) / 8 == 2 * q;
  }

  lemma FlagSums(f: nat)
    requires ModeFlags(f)
    ensures BitOr(f, 1) == f + 1 && BitOr(f, 2) == f + 2 && BitOr(f + 1, 2) == f + 3 && BitOr(f, 4) == f + 4
    ensures BitOr(f + 2, 8) == f + 10 && BitOr(f + 3, 8) == f + 11 && BitOr(f + 4, 8) == f + 12
  {
    hide BitOr, Pow2, ModeFlags;
    FlagValues();
    QuotientsAreEven(f);
    OrAdds(f, 0);
    OrAdds(f, 1);
    OrAdds(f + 1, 1);
    OrAdds(f, 2);
    OrAdds(f + 2, 3);
    OrAdds(f + 3, 3);
    OrAdds(f + 4, 3);
  }

  // ----- the hash written out

  /** The number of blocks of a chunk: an empty chunk has one. */
  function BlockCount(len: nat): nat {
    if len == 0 then 1 else (len + 63) / 64
  }

  /** Block `i` of a chunk, with zeros behind the data. */
  function PaddedBlock(data: seq<Byte>, i: nat): Block {
    seq<Byte>(64, k requires 0 <= k < 64 => if 64 * i + k < |data| then data[64 * i + k] else 0)
  }

  function BytesIn(len: nat, i: nat): nat {
    if 64 * i + 64 <= len then 64 else if 64 * i <= len then len - 64 * i else 0
  }

  /** The flags of block `i` of a chunk: 1 on the first and 2 on the last. */
  function FlagsOf(flags: nat, len: nat, i: nat): nat {
    flags + (if i == 0 then 1 else 0) + (if i + 1 == BlockCount(len) then 2 else 0)
  }

  /** The chaining value after `i` blocks of a chunk. */
  function PlainChain(m: Mode, data: seq<Byte>, counter: nat, i: nat): Words8 {
    if i == 0 then m.key
    else m.compress(PlainChain(m, data, counter, i - 1), PaddedBlock(data, i - 1), BytesIn(|data|, i - 1), counter,
                    FlagsOf(m.flags, |data|, i - 1))
  }

  /** The largest power of two times `left` that is below `len`. */
  function Doubled(left: nat, len: nat): (r: nat)
    requires 0 < left < len
    ensures left <= r < len
    decreases len - left
  {
    if 2 * left < len then Doubled(2 * left, len) else left
  }

  /** The chaining value of a subtree: a parent has the flag 4 and the counter 0. */
  function PlainTree(m: Mode, data: seq<Byte>, counter: nat): CV
    decreases |data|
  {
    if |data| <= 1024 then StoreWords(PlainChain(m, data, counter, BlockCount(|data|)))
    else
      var left := Doubled(1024, |data|);
      var children := PlainTree(m, data[..left], counter) + PlainTree(m, data[left..], counter + left / 1024);
      StoreWords(m.compress(m.key, children, 64, 0, m.flags + 4))
  }

  /** Block `i` of the output: the last compression again, with the flag 8 and the counter `i`. */
  function PlainOutput(m: Mode, message: seq<Byte>, i: nat): Block {
    if |message| <= 1024 then
      var last := BlockCount(|message|) - 1;
      m.xof(PlainChain(m, message, 0, last), PaddedBlock(message, last), BytesIn(|message|, last), i,
            FlagsOf(m.flags, |message|, last) + 8)
    else
      var left := Doubled(1024, |message|);
      m.xof(m.key, PlainTree(m, message[..left], 0) + PlainTree(m, message[left..], left / 1024), 64, i, m.flags + 12)
  }

  // ----- and that it is the hash

  lemma BlockCounts(len: nat)
    ensures BlockCount(len) == BlocksBeforeLast(len) + 1
  {
  }

  lemma FullBlock(data: seq<Byte>, i: nat)
    requires 64 * i + 64 <= |data|
    ensures PaddedBlock(data, i) == data[64 * i..64 * (i + 1)] && BytesIn(|data|, i) == 64
  {
  }

  lemma LastBlock(data: seq<Byte>)
    ensures var n := BlocksBeforeLast(|data|);
            && PaddedBlock(data, n) == PadBlock(data[64 * n..]) && BytesIn(|data|, n) == |data| - 64 * n
  {
  }

  lemma {:induction false} ChainIsPlain(m: Mode, data: seq<Byte>, counter: nat, n: nat)
    requires ModeFlags(m.flags) && n <= BlocksBeforeLast(|data|)
    ensures ChainBlocks(m, data, counter, n) == PlainChain(m, data, counter, n)
    decreases n
  {
    hide BitOr, ModeFlags, PaddedBlock, BytesIn;
    BlockCounts(|data|);
    if n > 0 {
      ChainIsPlain(m, data, counter, n - 1);
      FullBlock(data, n - 1);
      FlagSums(m.flags);
    }
  }

  lemma ChunkIsPlain(m: Mode, data: seq<Byte>, counter: nat)
    requires ModeFlags(m.flags) && |data| <= 1024
    ensures var last := BlockCount(|data|) - 1;
            ChunkOutput(m, data, counter)
            == Output(PlainChain(m, data, counter, last), counter, PaddedBlock(data, last), BytesIn(|data|, last),
                      FlagsOf(m.flags, |data|, last))
    ensures OutputCV(m, ChunkOutput(m, data, counter)) == StoreWords(PlainChain(m, data, counter, BlockCount(|data|)))
  {
    hide BitOr, ModeFlags, PaddedBlock, BytesIn, ChainBlocks, BlocksBeforeLast, PadBlock, StoreWords;
    BlockCounts(|data|);
    ChainIsPlain(m, data, counter, BlocksBeforeLast(|data|));
    LastBlock(data);
    FlagSums(m.flags);
  }

  lemma {:induction false} DoubledIsLeft(k: nat, len: nat)
    requires 1024 * Pow2(k) < len
    ensures len > 1024 && Doubled(1024 * Pow2(k), len) == LeftLen(len)
    decreases len - 1024 * Pow2(k)
  {
    hide Pow2, LeftLen;
    Pow2Step(k + 1);
    if 1024 * Pow2(k + 1) < len {
      DoubledIsLeft(k + 1, len);
    } else {
      LeftLenUnique(len, k, 1024 * Pow2(k));
    }
  }

  lemma ParentIsPlain(m: Mode, left: CV, right: CV)
    requires ModeFlags(m.flags)
    ensures ParentOutput(m, Pair(left, right)) == Output(m.key, 0, left + right, 64, m.flags + 4)
    ensures ParentCV(m, left, right) == StoreWords(m.compress(m.key, left + right, 64, 0, m.flags + 4))
  {
    hide BitOr, ModeFlags, StoreWords;
    FlagSums(m.flags);
  }

  /** The tree of the model is the one written out. */
  lemma {:induction false} TreeIsPlain(m: Mode, data: seq<Byte>, counter: nat)
    requires ModeFlags(m.flags)
    ensures TreeCV(m, data, counter) == PlainTree(m, data, counter)
    decreases |data|
  {
    hide BitOr, ModeFlags, ChunkOutput, OutputCV, ParentCV, PlainChain, StoreWords, LeftLen, Pow2;
    if |data| <= 1024 {
      ChunkIsPlain(m, data, counter);
    } else {
      FlagValues();
      DoubledIsLeft(0, |data|);
      var left := LeftLen(|data|);
      TreeIsPlain(m, data[..left], counter);
      TreeIsPlain(m, data[left..], counter + left / 1024);
      ParentIsPlain(m, TreeCV(m, data[..left], counter), TreeCV(m, data[left..], counter + left / 1024));
    }
  }

  lemma RootIsPlain(m: Mode, message: seq<Byte>, i: nat)
    requires ModeFlags(m.flags)
    ensures RootBlock(m, TreeOutput(m, message, 0), i) == PlainOutput(m, message, i)
  {
    hide BitOr, ModeFlags, ChunkOutput, ParentOutput, PlainChain, PlainTree, TreeCV, LeftLen, Pow2;
    hide PaddedBlock, BytesIn;
    FlagSums(m.flags);
    if |message| <= 1024 {
      ChunkIsPlain(m, message, 0);
    } else {
      FlagValues();
      DoubledIsLeft(0, |message|);
      var left := LeftLen(|message|);
      TreeIsPlain(m, message[..left], 0);
      TreeIsPlain(m, message[left..], left / 1024);
      ParentIsPlain(m, TreeCV(m, message[..left], 0), TreeCV(m, message[left..], left / 1024));
    }
  }

  /** Every byte of every hash. */
  lemma HashIsPlain(m: Mode, message: seq<Byte>, seek: nat, len: nat, k: nat)
    requires ModeFlags(m.flags) && k < len
    ensures Hash(m, message, seek, len)[k] == PlainOutput(m, message, (seek + k) / 64)[(seek + k) % 64]
  {
    hide RootBlock, TreeOutput, PlainOutput, ModeFlags;
    RootIsPlain(m, message, (seek + k) / 64);
    assert RootBytes(m, TreeOutput(m, message, 0), seek, len)[k] == RootByte(m, TreeOutput(m, message, 0), seek + k);
  }

  // ----- the separation of the root

  predicate RootFlag(flags: nat) {
    flags / 8 % 2 == 1
  }

  /** Setting another flag leaves the root flag as it is, and setting it sets it. */
  lemma RootFlagKept(f: nat)
    ensures RootFlag(BitOr(f, 1)) == RootFlag(f) && RootFlag(BitOr(f, 2)) == RootFlag(f)
    ensures RootFlag(BitOr(f, 4)) == RootFlag(f) && RootFlag(BitOr(f, 8))
  {
    hide BitOr, Pow2;
    FlagValues();
    OrBit(f, 1, 3);
    OrBit(f, 2, 3);
    OrBit(f, 4, 3);
    OrBit(f, 8, 3);
  }

  /** Two compression functions that agree wherever the root flag is clear, and two extended ones that
      agree wherever it is set. */
  ghost predicate AgreeBelowRoot(m: Mode, m': Mode) {
    && m.key == m'.key && m.flags == m'.flags
    && forall cv: Words8, b: Block, n: nat, c: nat, f: nat ::
         !RootFlag(f) ==> m.compress(cv, b, n, c, f) == m'.compress(cv, b, n, c, f)
  }

  ghost predicate AgreeAtRoot(m: Mode, m': Mode) {
    forall cv: Words8, b: Block, n: nat, c: nat, f: nat ::
      RootFlag(f) ==> m.xof(cv, b, n, c, f) == m'.xof(cv, b, n, c, f)
  }

  lemma {:induction false} SameChain(m: Mode, m': Mode, data: seq<Byte>, counter: nat, n: nat)
    requires AgreeBelowRoot(m, m') && !RootFlag(m.flags) && 64 * n <= |data|
    ensures ChainBlocks(m, data, counter, n) == ChainBlocks(m', data, counter, n)
    decreases n
  {
    hide BitOr, RootFlag;
    if n > 0 {
      SameChain(m, m', data, counter, n - 1);
      RootFlagKept(m.flags);
    }
  }

  lemma SameChunk(m: Mode, m': Mode, data: seq<Byte>, counter: nat)
    requires AgreeBelowRoot(m, m') && !RootFlag(m.flags) && |data| <= 1024
    ensures ChunkOutput(m, data, counter) == ChunkOutput(m', data, counter)
    ensures !RootFlag(ChunkOutput(m, data, counter).flags)
    ensures OutputCV(m, ChunkOutput(m, data, counter)) == OutputCV(m', ChunkOutput(m', data, counter))
  {
    hide BitOr, RootFlag, ChainBlocks, StoreWords, PadBlock;
    SameChain(m, m', data, counter, BlocksBeforeLast(|data|));
    RootFlagKept(m.flags);
    RootFlagKept(BitOr(m.flags, CHUNK_START));
  }

  lemma SameParent(m: Mode, m': Mode, left: CV, right: CV)
    requires AgreeBelowRoot(m, m') && !RootFlag(m.flags)
    ensures !RootFlag(ParentOutput(m, Pair(left, right)).flags)
    ensures ParentCV(m, left, right) == ParentCV(m', left, right)
  {
    hide BitOr, RootFlag, StoreWords;
    RootFlagKept(m.flags);
  }

  /** No chaining value depends on what the compression function does when the root flag is set. */
  lemma {:induction false} ChainingIsBelowRoot(m: Mode, m': Mode, data: seq<Byte>, counter: nat)
    requires AgreeBelowRoot(m, m') && !RootFlag(m.flags)
    ensures TreeCV(m, data, counter) == TreeCV(m', data, counter)
    decreases |data|
  {
    hide AgreeBelowRoot, RootFlag, ChunkOutput, OutputCV, ParentCV, LeftLen;
    if |data| <= 1024 {
      SameChunk(m, m', data, counter);
    } else {
      var left := LeftLen(|data|);
      ChainingIsBelowRoot(m, m', data[..left], counter);
      ChainingIsBelowRoot(m, m', data[left..], counter + left / 1024);
      SameParent(m, m', TreeCV(m, data[..left], counter), TreeCV(m, data[left..], counter + left / 1024));
    }
  }

  lemma SameOutput(m: Mode, m': Mode, data: seq<Byte>, counter: nat)
    requires AgreeBelowRoot(m, m') && !RootFlag(m.flags)
    ensures TreeOutput(m, data, counter) == TreeOutput(m', data, counter)
    ensures !RootFlag(TreeOutput(m, data, counter).flags)
  {
    hide AgreeBelowRoot, RootFlag, ChunkOutput, OutputCV, TreeCV, LeftLen;
    if |data| <= 1024 {
      SameChunk(m, m', data, counter);
    } else {
      var left := LeftLen(|data|);
      ChainingIsBelowRoot(m, m', data[..left], counter);
      ChainingIsBelowRoot(m, m', data[left..], counter + left / 1024);
      SameParent(m, m', TreeCV(m, data[..left], counter), TreeCV(m, data[left..], counter + left / 1024));
      SameFlags(m, m');
    }
  }

  lemma SameFlags(m: Mode, m': Mode)
    requires AgreeBelowRoot(m, m')
    ensures m.key == m'.key && m.flags == m'.flags
  {
  }

  /** The bytes of a hash come from the extended function with the root flag set, everything under them
      from the compression function with the root flag clear. */
  lemma RootIsSeparate(m: Mode, m': Mode, message: seq<Byte>, seek: nat, len: nat)
    requires AgreeBelowRoot(m, m') && AgreeAtRoot(m, m') && !RootFlag(m.flags)
    ensures Hash(m, message, seek, len) == Hash(m', message, seek, len)
  {
    hide AgreeBelowRoot, RootFlag, TreeOutput, BitOr;
    SameOutput(m, m', message, 0);
    var o := TreeOutput(m, message, 0);
    RootFlagKept(o.flags);
    var r, r' := RootBytes(m, o, seek, len), RootBytes(m', o, seek, len);
    forall k | 0 <= k < len ensures r[k] == r'[k] {
      assert r[k] == RootByte(m, o, seek + k) && r'[k] == RootByte(m', o, seek + k);
    }
  }

  /** The last compression of a message, with the root flag added. */
  lemma RootCompression(m: Mode, message: seq<Byte>, i: nat)
    requires !RootFlag(m.flags)
    ensures var o := TreeOutput(m, message, 0);
            && !RootFlag(o.flags)
            && Hash(m, message, 64 * i, 64) == m.xof(o.inputCV, o.block, o.blockLen, i, o.flags + 8)
  {
    hide TreeOutput, BitOr, RootFlag;
    var o := TreeOutput(m, message, 0);
    SameOutput(m, m, message, 0);
    assert BitOr(o.flags, 8) == o.flags + 8 by { RootFlagAdded(o.flags); }
    WholeBlock(m, message, i);
  }

  lemma RootFlagAdded(f: nat)
    requires !RootFlag(f)
    ensures BitOr(f, 8) == f + 8
  {
    hide BitOr, Pow2;
    FlagValues();
    OrAdds(f, 3);
  }
}
