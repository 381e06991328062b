/** The BLAKE3 tree hash as a recursive definition (sections 2.1, 2.4, 2.5 and 2.6 of the BLAKE3
    paper), for an arbitrary compression function. Everything the incremental hasher computes is
    proved equal to these definitions. */
module Tree {
  import opened Bits
  import opened Words
  import opened Balanced


  const CHUNK_START: nat := 1
  const CHUNK_END: nat := 2
  const PARENT: nat := 4
  const ROOT: nat := 8

  type Words8 = w: seq<Word> | |w| == 8 witness [0, 0, 0, 0, 0, 0, 0, 0]
  type CV = b: seq<Byte> | |b| == 32 witness seq(32, _ => 0)
  type Block = b: seq<Byte> | |b| == 64 witness seq(64, _ => 0)

  /** What stays fixed while one message is hashed: the key words, the mode flags, and the two
      entry points of the compression function (chaining value and full 64-byte output). The
      arguments are input chaining value, block, block length, counter and flags. */
  datatype Mode = Mode(key: Words8, flags: nat,
                       compress: (Words8, Block, nat, nat, nat) -> Words8,
                       xof: (Words8, Block, nat, nat, nat) -> Block)

  /** A node whose last compression is still to be done, as a chaining value or as the root. */
  datatype Output = Output(inputCV: Words8, counter: nat, block: Block, blockLen: nat, flags: nat)

  function OutputCV(m: Mode, o: Output): CV {
    StoreWords(m.compress(o.inputCV, o.block, o.blockLen, o.counter, o.flags))
  }

  // ----- one chunk

  function PadBlock(b: seq<Byte>): Block
    requires |b| <= 64
  {
    b + seq(64 - |b|, _ => 0)
  }

  function BlockFlags(flags: nat, blocksDone: nat): nat {
    if blocksDone == 0 then BitOr(flags, CHUNK_START) else flags
  }

  /** The chaining value after the first `n` blocks of a chunk. */
  function ChainBlocks(m: Mode, data: seq<Byte>, counter: nat, n: nat): Words8
    requires 64 * n <= |data|
  {
    if n == 0 then m.key
    else m.compress(ChainBlocks(m, data, counter, n - 1), data[64 * (n - 1)..64 * n],
                    64, counter, BlockFlags(m.flags, n - 1))
  }

  /** How many blocks of a chunk of `len` bytes come before its last, possibly partial, block. */
  function BlocksBeforeLast(len: nat): (n: nat)
    ensures 64 * n <= len <= 64 * n + 64
  {
    if len == 0 then 0 else (len - 1) / 64
  }

  function ChunkOutput(m: Mode, data: seq<Byte>, counter: nat): Output
    requires |data| <= 1024
  {
    var n := BlocksBeforeLast(|data|);
    Output(ChainBlocks(m, data, counter, n), counter, PadBlock(data[64 * n..]),
           |data| - 64 * n, BitOr(BlockFlags(m.flags, n), CHUNK_END))
  }

  // ----- the tree

  function ParentOutput(m: Mode, block: Block): Output {
    Output(m.key, 0, block, 64, BitOr(m.flags, PARENT))
  }

  /** The block of a parent: the chaining values of its children. */
  function Pair(left: CV, right: CV): Block {
    left + right
  }

  function ParentCV(m: Mode, left: CV, right: CV): CV {
    OutputCV(m, ParentOutput(m, Pair(left, right)))
  }

  /** Chaining values as a tree algebra: the leaf of a chunk and the node over two children. */
  function Leaf(m: Mode): (ChunkData, nat) -> CV {
    (data: ChunkData, counter: nat) => OutputCV(m, ChunkOutput(m, data, counter))
  }

  function Node(m: Mode): (CV, CV) -> CV {
    (left: CV, right: CV) => ParentCV(m, left, right)
  }

  /** The chaining value of the subtree over `data`, whose first chunk has index `counter`. */
  function TreeCV(m: Mode, data: seq<Byte>, counter: nat): CV {
    Fold(Leaf(m), Node(m), data, counter)
  }

  /** The node at the top of that subtree, before its last compression. */
  function TreeOutput(m: Mode, data: seq<Byte>, counter: nat): Output {
    if |data| <= 1024 then ChunkOutput(m, data, counter)
    else
      var left := LeftLen(|data|);
      ParentOutput(m, Pair(TreeCV(m, data[..left], counter), TreeCV(m, data[left..], counter + left / 1024)))
  }

  // ----- the root

  /** Block `i` of the extendable output of a root node. */
  function RootBlock(m: Mode, o: Output, i: nat): Block {
    m.xof(o.inputCV, o.block, o.blockLen, i, BitOr(o.flags, ROOT))
  }

  /** Byte `i` of the extendable output stream of a root node. */
  function RootByte(m: Mode, o: Output, i: nat): Byte {
    RootBlock(m, o, i / 64)[i % 64]
  }

  /** Bytes `[seek, seek + len)` of the extendable output stream. */
  function RootBytes(m: Mode, o: Output, seek: nat, len: nat): (r: seq<Byte>)
    ensures |r| == len
  {
    seq<Byte>(len, i requires 0 <= i < len => RootByte(m, o, seek + i))
  }

  /** BLAKE3 of `message`: `len` bytes of output starting at `seek`. */
  function Hash(m: Mode, message: seq<Byte>, seek: nat, len: nat): seq<Byte> {
    RootBytes(m, TreeOutput(m, message, 0), seek, len)
  }

  // ----- facts

  lemma TreeCVOfOutput(m: Mode, data: seq<Byte>, counter: nat)
    ensures OutputCV(m, TreeOutput(m, data, counter)) == TreeCV(m, data, counter)
  {
  }

  /** A node over a complete left subtree and a right subtree no larger than it. */
  lemma JoinOutput(m: Mode, data: seq<Byte>, counter: nat, k: nat, left: nat)
    requires left == 1024 * Pow2(k) && left < |data| <= 2 * left
    ensures TreeOutput(m, data, counter)
            == ParentOutput(m, Pair(TreeCV(m, data[..left], counter), TreeCV(m, data[left..], counter + Pow2(k))))
  {
    LeftLenUnique(|data|, k, left);
  }

  lemma JoinCV(m: Mode, data: seq<Byte>, counter: nat, k: nat, left: nat)
    requires left == 1024 * Pow2(k) && left < |data| <= 2 * left
    ensures TreeCV(m, data, counter)
            == ParentCV(m, TreeCV(m, data[..left], counter), TreeCV(m, data[left..], counter + Pow2(k)))
  {
    hide ParentCV, Leaf, Node, Pow2;
    JoinSubtrees(Leaf(m), Node(m), data, counter, k, left);
    NodeOfChildren(Leaf(m), Node(m), data, counter);
    hide Fold, Children;
    NodeIsParent(m, TreeCV(m, data[..left], counter), TreeCV(m, data[left..], counter + Pow2(k)));
  }

  lemma NodeIsParent(m: Mode, left: CV, right: CV)
    ensures Node(m)(left, right) == ParentCV(m, left, right)
  {
  }

  /** Adjacent reads of the output stream concatenate. */
  lemma RootBytesConcat(m: Mode, o: Output, seek: nat, a: nat, b: nat)
    ensures RootBytes(m, o, seek, a) + RootBytes(m, o, seek + a, b) == RootBytes(m, o, seek, a + b)
  {
    var l, r, all := RootBytes(m, o, seek, a), RootBytes(m, o, seek + a, b), RootBytes(m, o, seek, a + b);
    forall i | 0 <= i < a + b ensures (l + r)[i] == all[i] {
      assert i >= a ==> (seek + a) + (i - a) == seek + i;
    }
  }

  /** A read of one whole block of the output. */
  lemma WholeBlock(m: Mode, message: seq<Byte>, i: nat)
    ensures Hash(m, message, 64 * i, 64) == RootBlock(m, TreeOutput(m, message, 0), i)
  {
    hide TreeOutput, RootBlock;
    var o := TreeOutput(m, message, 0);
    forall k | 0 <= k < 64 ensures RootByte(m, o, 64 * i + k) == RootBlock(m, o, i)[k] {
      assert (64 * i + k) / 64 == i && (64 * i + k) % 64 == k;
    }
  }
}
