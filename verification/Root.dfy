/** Extendable output of a root node (output_root_bytes in blake3.c, blake3_xof_many in
    blake3_dispatch.c). */
module Root {
  import opened Bits
  import opened Words
  import opened Tree

  /** Bytes `[from, from + count)` of root block `i` are the stretch of the stream at `64 * i + from`. */
  lemma BlockIsStream(m: Mode, o: Output, i: nat, from: nat, count: nat)
    requires from + count <= 64
    ensures RootBlock(m, o, i)[from..from + count] == RootBytes(m, o, 64 * i + from, count)
  {
    hide RootBlock;
    var part, stream := RootBlock(m, o, i)[from..from + count], RootBytes(m, o, 64 * i + from, count);
    forall k | 0 <= k < count ensures part[k] == stream[k] {
      var at := 64 * i + from + k;
      assert at / 64 == i && at % 64 == from + k;
      assert stream[k] == RootByte(m, o, at);
    }
  }

  /** One compress_xof and the copy of part of its block to `out[p..]`. */
  method EmitPart(m: Mode, o: Output, i: nat, from: nat, count: nat, out: array<Byte>, p: nat, ghost seek: nat)
    requires from + count <= 64 && p + count <= out.Length && seek + p == 64 * i + from
    requires out[..p] == RootBytes(m, o, seek, p)
    modifies out
    ensures out[..p + count] == RootBytes(m, o, seek, p + count)
    ensures out[p + count..] == old(out[p + count..])
  {
    hide RootBytes, BitOr;
    var block := m.xof(o.inputCV, o.block, o.blockLen, i, BitOr(o.flags, ROOT));
    BlockIsStream(m, o, i, from, count);
    RootBytesConcat(m, o, seek, p, count);
    forall k | 0 <= k < count {
      out[p + k] := block[from + k];
    }
    assert out[..p + count] == old(out[..p]) + block[from..from + count];
  }

  /** blake3_xof_many */
  method XofMany(m: Mode, o: Output, counter: nat, outBlocks: nat, out: array<Byte>, p: nat, ghost seek: nat)
    requires p + 64 * outBlocks <= out.Length && seek + p == 64 * counter
    requires out[..p] == RootBytes(m, o, seek, p)
    modifies out
    ensures out[..p + 64 * outBlocks] == RootBytes(m, o, seek, p + 64 * outBlocks)
    ensures out[p + 64 * outBlocks..] == old(out[p + 64 * outBlocks..])
  {
    hide RootBytes, RootBlock;
    var i := 0;
    ghost var initial := out[..];
    while i < outBlocks
      invariant i <= outBlocks
      invariant out[..p + 64 * i] == RootBytes(m, o, seek, p + 64 * i)
      invariant out[p + 64 * i..] == initial[p + 64 * i..]
    {
      ghost var before := out[..];
      EmitPart(m, o, counter + i, 0, 64, out, p + 64 * i, seek);
      assert before[p + 64 * i + 64..] == before[p + 64 * i..][64..];
      i := i + 1;
    }
  }

  /** The unaligned start of output_root_bytes: after it the position is at a block boundary, or
      nothing is left to write. */
  method EmitHead(m: Mode, o: Output, seek: nat, out: array<Byte>, outLen: nat) returns (p: nat, counter: nat)
    requires 0 < outLen <= out.Length
    modifies out
    ensures p <= outLen && out[..p] == RootBytes(m, o, seek, p) && out[p..] == old(out[p..])
    ensures p == outLen || seek + p == 64 * counter
  {
    hide RootBytes, RootBlock;
    var offset := seek % 64;
    p, counter := 0, seek / 64;
    assert out[..0] == RootBytes(m, o, seek, 0);
    if offset != 0 {
      var bytes := if outLen > 64 - offset then 64 - offset else outLen;
      EmitPart(m, o, counter, offset, bytes, out, p, seek);
      p, counter := bytes, counter + 1;
    }
  }

  /** output_root_bytes */
  method OutputRootBytes(m: Mode, o: Output, seek: nat, out: array<Byte>, outLen: nat)
    requires outLen <= out.Length
    modifies out
    ensures out[..outLen] == RootBytes(m, o, seek, outLen)
    ensures out[outLen..] == old(out[outLen..])
  {
    hide RootBytes, RootBlock;
    if outLen == 0 {
      return;
    }
    ghost var initial := out[..];
    var p, counter := EmitHead(m, o, seek, out, outLen);
    var rest := outLen - p;
    if rest / 64 > 0 {
      XofMany(m, o, counter, rest / 64, out, p, seek);
      assert initial[p + 64 * (rest / 64)..] == initial[p..][64 * (rest / 64)..];
    }
    counter, p, rest := counter + rest / 64, p + 64 * (rest / 64), rest - 64 * (rest / 64);
    if rest > 0 {
      EmitPart(m, o, counter, 0, rest, out, p, seek);
      assert initial[outLen..] == initial[p..][rest..];
    }
  }
}
