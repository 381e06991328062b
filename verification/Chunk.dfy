/** `blake3_chunk_state`: the incremental hash of one chunk (blake3.c). */
module Chunk {
  import opened Bits
  import opened Words
  import opened Tree

  /** The chain of a prefix does not depend on what follows it. */
  lemma {:induction false} ChainPrefix(m: Mode, data: seq<Byte>, more: seq<Byte>, counter: nat, n: nat)
    requires 64 * n <= |data|
    ensures ChainBlocks(m, data + more, counter, n) == ChainBlocks(m, data, counter, n)
  {
    if n > 0 {
      ChainPrefix(m, data, more, counter, n - 1);
      assert (data + more)[64 * (n - 1)..64 * n] == data[64 * (n - 1)..64 * n];
    }
  }

  class ChunkState {
    const mode: Mode
    const buf: array<Byte>
    var cv: Words8
    var chunkCounter: nat
    var bufLen: nat
    var blocksCompressed: nat
    /** Everything fed to this chunk so far. */
    ghost var absorbed: seq<Byte>

    /** The fields are those of a chunk that has read `data`: whole blocks compressed, the rest
        buffered, the unused tail of the buffer zero. */
    ghost predicate Holds(data: seq<Byte>)
      reads this, buf
    {
      && buf.Length == 64
      && 64 * blocksCompressed + bufLen == |data|
      && bufLen <= 64
      && cv == ChainBlocks(mode, data, chunkCounter, blocksCompressed)
      && buf[..] == PadBlock(data[64 * blocksCompressed..])
    }

    /** ... and the last block is kept back, full or not, because it may need the end flag. */
    ghost predicate Valid()
      reads this, buf
    {
      && Holds(absorbed)
      && |absorbed| <= 1024
      && blocksCompressed == BlocksBeforeLast(|absorbed|)
    }

    /** chunk_state_init, with the counter that its callers store right after it. */
    constructor (m: Mode, counter: nat)
      ensures Valid() && fresh(buf)
      ensures absorbed == [] && chunkCounter == counter && mode == m
    {
      mode := m;
      cv := m.key;
      chunkCounter := counter;
      buf := new Byte[64](_ => 0);
      bufLen := 0;
      blocksCompressed := 0;
      absorbed := [];
    }

    /** chunk_state_reset */
    method Reset(counter: nat)
      requires buf.Length == 64
      modifies this, buf
      ensures Valid() && absorbed == [] && chunkCounter == counter
    {
      cv := mode.key;
      chunkCounter := counter;
      blocksCompressed := 0;
      forall i | 0 <= i < 64 {
        buf[i] := 0;
      }
      bufLen := 0;
      absorbed := [];
    }

    /** The caller's `chunk_counter += n` while the chunk is empty. */
    method Advance(n: nat)
      requires Valid() && absorbed == []
      modifies this`chunkCounter
      ensures Valid() && chunkCounter == old(chunkCounter) + n
    {
      chunkCounter := chunkCounter + n;
    }

    /** chunk_state_len */
    function Len(): (n: nat)
      requires Valid()
      reads this, buf
      ensures n == |absorbed|
    {
      64 * blocksCompressed + bufLen
    }

    /** chunk_state_fill_buf */
    method FillBuf(input: seq<Byte>, ghost data: seq<Byte>) returns (take: nat)
      requires Holds(data)
      modifies this`bufLen, buf
      ensures take <= |input| && Holds(data + input[..take])
      ensures take == |input| || bufLen == 64
    {
      take := 64 - bufLen;
      if take > |input| {
        take := |input|;
      }
      ChainPrefix(mode, data, input[..take], chunkCounter, blocksCompressed);
      forall i | 0 <= i < take {
        buf[bufLen + i] := input[i];
      }
      bufLen := bufLen + take;
      assert (data + input[..take])[64 * blocksCompressed..] == data[64 * blocksCompressed..] + input[..take];
    }

    /** The step that compresses a whole block held in `block`, from chunk_state_update. */
    method CompressBlock(block: seq<Byte>, ghost data: seq<Byte>)
      requires buf.Length == 64 && |block| == 64 && |data| == 64 * blocksCompressed
      requires cv == ChainBlocks(mode, data, chunkCounter, blocksCompressed)
      modifies this`cv, this`blocksCompressed
      ensures blocksCompressed == old(blocksCompressed) + 1
      ensures cv == ChainBlocks(mode, data + block, chunkCounter, blocksCompressed)
    {
      ChainPrefix(mode, data, block, chunkCounter, blocksCompressed);
      assert (data + block)[64 * blocksCompressed..64 * (blocksCompressed + 1)] == block;
      cv := mode.compress(cv, block, 64, chunkCounter, BlockFlags(mode.flags, blocksCompressed));
      blocksCompressed := blocksCompressed + 1;
    }

    /** The first part of chunk_state_update: top up a partly filled buffer, and compress it if
        more input follows. */
    method TopUp(input: seq<Byte>) returns (rest: seq<Byte>, ghost data: seq<Byte>)
      requires Valid()
      modifies this`cv, this`bufLen, this`blocksCompressed, buf
      ensures Holds(data) && data + rest == absorbed + input
      ensures rest != [] ==> bufLen == 0
      ensures rest == [] ==> blocksCompressed == BlocksBeforeLast(|data|)
    {
      rest := input;
      data := absorbed;
      if bufLen > 0 {
        var take := FillBuf(rest, data);
        data := data + rest[..take];
        rest := rest[take..];
        assert data + rest == absorbed + input;
        if rest != [] {
          ghost var whole := data[..64 * blocksCompressed];
          assert data == whole + buf[..];
          ChainPrefix(mode, whole, buf[..], chunkCounter, blocksCompressed);
          CompressBlock(buf[..], whole);
          bufLen := 0;
          forall i | 0 <= i < 64 {
            buf[i] := 0;
          }
        }
      }
    }

    /** chunk_state_update */
    method Update(input: seq<Byte>)
      requires Valid() && |absorbed| + |input| <= 1024
      modifies this, buf
      ensures Valid() && absorbed == old(absorbed) + input && chunkCounter == old(chunkCounter)
    {
      hide ChainBlocks, PadBlock;
      var rest, data := TopUp(input);
      while |rest| > 64
        invariant Holds(data) && data + rest == old(absorbed) + input
        invariant rest != [] ==> bufLen == 0
        invariant rest == [] ==> blocksCompressed == BlocksBeforeLast(|data|)
        invariant chunkCounter == old(chunkCounter)
      {
        assert data[64 * blocksCompressed..] == [];
        CompressBlock(rest[..64], data);
        assert (data + rest[..64])[64 * blocksCompressed..] == [];
        assert data + rest == (data + rest[..64]) + rest[64..];
        data := data + rest[..64];
        rest := rest[64..];
      }
      var take := FillBuf(rest, data);
      assert take == |rest| && rest[..take] == rest;
      absorbed := data + rest;
    }

    /** chunk_state_output */
    function Out(): (o: Output)
      requires Valid()
      reads this, buf
      ensures o == ChunkOutput(mode, absorbed, chunkCounter)
    {
      Output(cv, chunkCounter, buf[..], bufLen, BitOr(BlockFlags(mode.flags, blocksCompressed), CHUNK_END))
    }
  }

  /** What a valid chunk state looks like: at most fifteen blocks are compressed before the output, the buffer
      is empty only when nothing was read, and its unused tail is zero. */
  lemma ChunkShape(c: ChunkState)
    requires c.Valid()
    ensures c.blocksCompressed <= 15
    ensures c.bufLen == 0 <==> c.absorbed == []
    ensures c.buf[..c.bufLen] == c.absorbed[64 * c.blocksCompressed..]
    ensures forall i | c.bufLen <= i < 64 :: c.buf[i] == 0
  {
    var rest := c.absorbed[64 * c.blocksCompressed..];
    assert |rest| == c.bufLen;
    forall i | 0 <= i < 64
      ensures c.buf[i] == PadBlock(rest)[i]
    {
      assert c.buf[..][i] == c.buf[i];
    }
  }

  /** The fields are determined by the mode, the counter and the bytes read ... */
  lemma SameFields(a: ChunkState, b: ChunkState)
    requires a.Valid() && b.Valid()
    requires a.mode == b.mode && a.chunkCounter == b.chunkCounter && a.absorbed == b.absorbed
    ensures a.cv == b.cv && a.blocksCompressed == b.blocksCompressed && a.bufLen == b.bufLen && a.buf[..] == b.buf[..]
  {
  }

  /** ... so it makes no difference how the bytes of a chunk are split into updates. */
  method SplitUpdate(m: Mode, counter: nat, first: seq<Byte>, second: seq<Byte>)
    returns (split: ChunkState, whole: ChunkState)
    requires |first| + |second| <= 1024
    ensures split.Valid() && whole.Valid() && split.absorbed == whole.absorbed == first + second
    ensures split.cv == whole.cv && split.bufLen == whole.bufLen && split.buf[..] == whole.buf[..]
    ensures split.blocksCompressed == whole.blocksCompressed && split.chunkCounter == whole.chunkCounter == counter
  {
    hide ChainBlocks, PadBlock;
    split := new ChunkState(m, counter);
    split.Update(first);
    split.Update(second);
    whole := new ChunkState(m, counter);
    whole.Update(first + second);
    SameFields(split, whole);
  }
}
