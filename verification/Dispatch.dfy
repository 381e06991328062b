/** The choice of the batch function (blake3_dispatch.c): the NEON code where it is built in, the portable code
    otherwise. */
module Dispatch {
  import opened Bits
  import opened Words
  import opened Tree
  import opened HashMany
  import Portable
  import Neon

  /** The NEON code computes with the portable compression function only. */
  ghost predicate Serves(neon: bool, m: Mode) {
    neon ==> m.compress == Portable.CompressWords
  }

  /** blake3_hash_many: whichever code is chosen, the same values in the same places. */
  method HashManyAny(j: Job, neon: bool, inputs: seq<seq<Byte>>, counter: nat, increment: bool, out: array<Byte>,
                     at: nat)
    requires neon ==> j.compress == Portable.CompressWords
    requires forall i | 0 <= i < |inputs| :: 64 * j.blocks <= |inputs[i]|
    requires counter < TWO_64 && at + 32 * |inputs| <= out.Length
    modifies out
    ensures CVsAt(out[..], at, |inputs|) == HashManyCVs(j, inputs, counter, increment)
    ensures out[..at] == old(out[..at]) && out[at + 32 * |inputs|..] == old(out[at + 32 * |inputs|..])
  {
    hide CVsAt, HashManyCVs;
    if neon {
      Neon.HashManyNeon(j, inputs, counter, increment, out, at);
    } else {
      HashManyPortable(j, inputs, counter, increment, out, at);
    }
  }
}
