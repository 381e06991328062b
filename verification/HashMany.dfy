/** Hashing many equally long inputs (blake3_portable.c), for an arbitrary compression function. */
module HashMany {
  import opened Bits
  import opened Words
  import opened Tree

  type Compress = (Words8, Block, nat, nat, nat) -> Words8

  /** The per-call parameters of `hash_one` and `hash_many`. */
  datatype Job = Job(compress: Compress, blocks: nat, key: Words8, flags: nat, flagsStart: nat, flagsEnd: nat)

  /** The flags of block `i`: the start flags on the first, the end flags on the last. */
  function FlagsAt(j: Job, i: nat): nat {
    var first := if i == 0 then BitOr(j.flags, j.flagsStart) else j.flags;
    if i + 1 == j.blocks then BitOr(first, j.flagsEnd) else first
  }

  function HashChain(j: Job, input: seq<Byte>, counter: nat, n: nat): Words8
    requires 64 * n <= |input|
  {
    if n == 0 then j.key
    else j.compress(HashChain(j, input, counter, n - 1), input[64 * (n - 1)..64 * n], 64, counter, FlagsAt(j, n - 1))
  }

  /** The chaining value of one input. */
  function HashOneCV(j: Job, input: seq<Byte>, counter: nat): CV
    requires 64 * j.blocks <= |input|
  {
    StoreWords(HashChain(j, input, counter, j.blocks))
  }

  /** The 64-bit counter of input `i`. */
  function CounterAt(counter: nat, increment: bool, i: nat): (c: nat)
    ensures c < TWO_64
  {
    (if increment then counter + i else counter) % TWO_64
  }

  /** The chaining values stored one after another in `bytes`, from offset `off`. */
  function CVsAt(bytes: seq<Byte>, off: nat, n: nat): (r: seq<CV>)
    requires off + 32 * n <= |bytes|
    ensures |r| == n
  {
    seq(n, i requires 0 <= i < n => bytes[off + 32 * i..off + 32 * i + 32])
  }

  /** The stored values depend on their own bytes only, wherever those are. */
  lemma CVsAtFrame(a: seq<Byte>, at: nat, b: seq<Byte>, bt: nat, n: nat)
    requires at + 32 * n <= |a| && bt + 32 * n <= |b| && a[at..at + 32 * n] == b[bt..bt + 32 * n]
    ensures CVsAt(a, at, n) == CVsAt(b, bt, n)
  {
    forall i | 0 <= i < n ensures CVsAt(a, at, n)[i] == CVsAt(b, bt, n)[i] {
      SliceSlice(a, at, at + 32 * n, 32 * i, 32 * i + 32);
      SliceSlice(b, bt, bt + 32 * n, 32 * i, 32 * i + 32);
    }
  }

  /** Values stored next to each other form one list. */
  lemma CVsAtConcat(bytes: seq<Byte>, off: nat, a: nat, b: nat)
    requires off + 32 * (a + b) <= |bytes|
    ensures CVsAt(bytes, off, a) + CVsAt(bytes, off + 32 * a, b) == CVsAt(bytes, off, a + b)
  {
  }

  /** A memcpy of `data` to offset `at`. */
  method WriteBytes(out: array<Byte>, at: nat, data: seq<Byte>)
    requires at + |data| <= out.Length
    modifies out
    ensures out[at..at + |data|] == data
    ensures out[..at] == old(out[..at]) && out[at + |data|..] == old(out[at + |data|..])
  {
    forall i | 0 <= i < |data| {
      out[at + i] := data[i];
    }
  }

  /** The block loop of hash_one_portable. */
  method CompressBlocks(j: Job, input: seq<Byte>, counter: nat) returns (cv: Words8)
    requires 64 * j.blocks <= |input|
    ensures cv == HashChain(j, input, counter, j.blocks)
  {
    var blockFlags, blocks, pos := BitOr(j.flags, j.flagsStart), j.blocks, 0;
    cv := j.key;
    while blocks > 0
      invariant 0 <= blocks <= j.blocks && pos == 64 * (j.blocks - blocks)
      invariant cv == HashChain(j, input, counter, j.blocks - blocks)
      invariant blockFlags == if blocks == j.blocks then BitOr(j.flags, j.flagsStart) else j.flags
    {
      if blocks == 1 {
        blockFlags := BitOr(blockFlags, j.flagsEnd);
      }
      assert blockFlags == FlagsAt(j, j.blocks - blocks);
      cv := j.compress(cv, input[pos..pos + 64], 64, counter, blockFlags);
      pos := pos + 64;
      blocks := blocks - 1;
      blockFlags := j.flags;
    }
  }

  /** hash_one_portable */
  method HashOnePortable(j: Job, input: seq<Byte>, counter: nat, out: array<Byte>, at: nat)
    requires 64 * j.blocks <= |input| && at + 32 <= out.Length
    modifies out
    ensures out[at..at + 32] == HashOneCV(j, input, counter)
    ensures out[..at] == old(out[..at]) && out[at + 32..] == old(out[at + 32..])
  {
    var cv := CompressBlocks(j, input, counter);
    WriteBytes(out, at, StoreWords(cv));
  }

  /** The chaining values of a batch, as a specification for every `hash_many`. */
  function HashManyCVs(j: Job, inputs: seq<seq<Byte>>, counter: nat, increment: bool): (r: seq<CV>)
    requires forall i | 0 <= i < |inputs| :: 64 * j.blocks <= |inputs[i]|
    ensures |r| == |inputs|
  {
    seq(|inputs|, i requires 0 <= i < |inputs| => HashOneCV(j, inputs[i], CounterAt(counter, increment, i)))
  }

  /** The first `n` values of a batch are in place, and the rest of `out` is as it was. */
  ghost predicate Written(j: Job, inputs: seq<seq<Byte>>, counter: nat, increment: bool, out: seq<Byte>,
                          initial: seq<Byte>, at: nat, n: nat)
    requires forall i | 0 <= i < |inputs| :: 64 * j.blocks <= |inputs[i]|
    requires n <= |inputs| && at + 32 * |inputs| <= |out| == |initial|
  {
    && CVsAt(out, at, n) == HashManyCVs(j, inputs[..n], counter, increment)
    && out[..at] == initial[..at] && out[at + 32 * n..] == initial[at + 32 * n..]
  }

  lemma WrittenStart(j: Job, inputs: seq<seq<Byte>>, counter: nat, increment: bool, out: seq<Byte>, at: nat)
    requires forall i | 0 <= i < |inputs| :: 64 * j.blocks <= |inputs[i]|
    requires at + 32 * |inputs| <= |out| && counter < TWO_64
    ensures Written(j, inputs, counter, increment, out, out, at, 0) && counter == CounterAt(counter, increment, 0)
  {
    ModSmall(counter, TWO_64);
  }

  lemma WrittenEnd(j: Job, inputs: seq<seq<Byte>>, counter: nat, increment: bool, out: seq<Byte>, initial: seq<Byte>,
                   at: nat)
    requires forall i | 0 <= i < |inputs| :: 64 * j.blocks <= |inputs[i]|
    requires at + 32 * |inputs| <= |out| == |initial|
    requires Written(j, inputs, counter, increment, out, initial, at, |inputs|)
    ensures CVsAt(out, at, |inputs|) == HashManyCVs(j, inputs, counter, increment)
    ensures out[..at] == initial[..at] && out[at + 32 * |inputs|..] == initial[at + 32 * |inputs|..]
  {
    assert inputs[..|inputs|] == inputs;
  }

  /** One turn of the one-at-a-time loop. */
  method HashNext(j: Job, inputs: seq<seq<Byte>>, ghost counter: nat, ghost increment: bool, c: nat, out: array<Byte>,
                  ghost initial: seq<Byte>, at: nat, n: nat)
    requires forall i | 0 <= i < |inputs| :: 64 * j.blocks <= |inputs[i]|
    requires n < |inputs| && at + 32 * |inputs| <= out.Length == |initial| && c == CounterAt(counter, increment, n)
    requires Written(j, inputs, counter, increment, out[..], initial, at, n)
    modifies out
    ensures Written(j, inputs, counter, increment, out[..], initial, at, n + 1)
  {
    ghost var before := out[..];
    HashOnePortable(j, inputs[n], c, out, at + 32 * n);
    assert CVsAt(out[..], at + 32 * n, 1)[0] == HashOneCV(j, inputs[n], c);
    hide CVsAt, HashManyCVs, HashOneCV;
    WrittenStep(j, inputs, counter, increment, before, out[..], initial, at, n, 1);
  }

  /** The one-at-a-time loop of `hash_many`, from input `start` on. */
  method HashRest(j: Job, inputs: seq<seq<Byte>>, ghost counter: nat, increment: bool, first: nat, out: array<Byte>,
                  ghost initial: seq<Byte>, at: nat, start: nat)
    requires forall i | 0 <= i < |inputs| :: 64 * j.blocks <= |inputs[i]|
    requires start <= |inputs| && at + 32 * |inputs| <= out.Length == |initial|
    requires first == CounterAt(counter, increment, start)
    requires Written(j, inputs, counter, increment, out[..], initial, at, start)
    modifies out
    ensures Written(j, inputs, counter, increment, out[..], initial, at, |inputs|)
  {
    hide Written;
    var n, c := start, first;
    while n < |inputs|
      invariant start <= n <= |inputs| && c == CounterAt(counter, increment, n)
      invariant Written(j, inputs, counter, increment, out[..], initial, at, n)
    {
      HashNext(j, inputs, counter, increment, c, out, initial, at, n);
      if increment {
        CounterStep(counter, n, 1);
        c := (c + 1) % TWO_64;
      }
      n := n + 1;
    }
  }

  /** blake3_hash_many_portable */
  method HashManyPortable(j: Job, inputs: seq<seq<Byte>>, counter: nat, increment: bool, out: array<Byte>, at: nat)
    requires forall i | 0 <= i < |inputs| :: 64 * j.blocks <= |inputs[i]|
    requires counter < TWO_64 && at + 32 * |inputs| <= out.Length
    modifies out
    ensures CVsAt(out[..], at, |inputs|) == HashManyCVs(j, inputs, counter, increment)
    ensures out[..at] == old(out[..at]) && out[at + 32 * |inputs|..] == old(out[at + 32 * |inputs|..])
  {
    hide Written, CVsAt, HashManyCVs;
    ghost var initial := out[..];
    WrittenStart(j, inputs, counter, increment, initial, at);
    HashRest(j, inputs, counter, increment, counter, out, initial, at, 0);
    WrittenEnd(j, inputs, counter, increment, out[..], initial, at);
  }

  /** Writing the next `k` values behind the first `n`. */
  lemma WrittenStep(j: Job, inputs: seq<seq<Byte>>, counter: nat, increment: bool, before: seq<Byte>,
                    after: seq<Byte>, initial: seq<Byte>, at: nat, n: nat, k: nat)
    requires forall i | 0 <= i < |inputs| :: 64 * j.blocks <= |inputs[i]|
    requires n + k <= |inputs| && at + 32 * |inputs| <= |before| == |after| == |initial|
    requires Written(j, inputs, counter, increment, before, initial, at, n)
    requires BatchFrom(j, inputs, counter, increment, n, CVsAt(after, at + 32 * n, k))
    requires after[..at + 32 * n] == before[..at + 32 * n]
    requires after[at + 32 * n + 32 * k..] == before[at + 32 * n + 32 * k..]
    ensures Written(j, inputs, counter, increment, after, initial, at, n + k)
  {
    hide CVsAt, HashManyCVs, BatchFrom;
    ExtendBatch(j, inputs, counter, increment, before, after, at, n, k);
    FrameStep(initial, before, after, at, n, k);
  }

  lemma FrameStep(initial: seq<Byte>, before: seq<Byte>, after: seq<Byte>, at: nat, n: nat, k: nat)
    requires |initial| == |before| == |after| && at + 32 * (n + k) <= |after|
    requires before[..at] == initial[..at] && before[at + 32 * n..] == initial[at + 32 * n..]
    requires after[..at + 32 * n] == before[..at + 32 * n] && after[at + 32 * (n + k)..] == before[at + 32 * (n + k)..]
    ensures after[..at] == initial[..at] && after[at + 32 * (n + k)..] == initial[at + 32 * (n + k)..]
  {
    assert after[..at] == after[..at + 32 * n][..at] && before[..at] == before[..at + 32 * n][..at];
    assert before[at + 32 * (n + k)..] == before[at + 32 * n..][32 * k..];
    assert initial[at + 32 * (n + k)..] == initial[at + 32 * n..][32 * k..];
  }

  /** The values of a stretch of the batch, from input `n` on. */
  ghost predicate BatchFrom(j: Job, inputs: seq<seq<Byte>>, counter: nat, increment: bool, n: nat, cvs: seq<CV>)
    requires forall i | 0 <= i < |inputs| :: 64 * j.blocks <= |inputs[i]|
    requires n + |cvs| <= |inputs|
  {
    forall i | 0 <= i < |cvs| :: cvs[i] == HashOneCV(j, inputs[n + i], CounterAt(counter, increment, n + i))
  }

  /** More values written behind the first `n` extend the batch. */
  lemma ExtendBatch(j: Job, inputs: seq<seq<Byte>>, counter: nat, increment: bool,
                    before: seq<Byte>, after: seq<Byte>, at: nat, n: nat, k: nat)
    requires forall i | 0 <= i < |inputs| :: 64 * j.blocks <= |inputs[i]|
    requires n + k <= |inputs| && |before| == |after| && at + 32 * (n + k) <= |after|
    requires after[..at + 32 * n] == before[..at + 32 * n]
    requires CVsAt(before, at, n) == HashManyCVs(j, inputs[..n], counter, increment)
    requires BatchFrom(j, inputs, counter, increment, n, CVsAt(after, at + 32 * n, k))
    ensures CVsAt(after, at, n + k) == HashManyCVs(j, inputs[..n + k], counter, increment)
  {
    hide HashOneCV, CounterAt;
    assert after[at..at + 32 * n] == after[..at + 32 * n][at..];
    assert before[at..at + 32 * n] == before[..at + 32 * n][at..];
    CVsAtFrame(before, at, after, at, n);
    CVsAtConcat(after, at, n, k);
    var l, r := CVsAt(after, at, n + k), HashManyCVs(j, inputs[..n + k], counter, increment);
    forall i | 0 <= i < n + k ensures l[i] == r[i] {
      if i < n {
        assert l[i] == HashManyCVs(j, inputs[..n], counter, increment)[i];
      } else {
        assert l[i] == CVsAt(after, at + 32 * n, k)[i - n];
      }
    }
  }

  /** Stepping the wrapped counter is wrapping the stepped counter. */
  lemma CounterStep(counter: nat, n: nat, d: nat)
    ensures (CounterAt(counter, true, n) + d) % TWO_64 == CounterAt(counter, true, n + d)
  {
  }
}
