/** The digests of dune (blake3_stubs.c): the hasher with the BLAKE3 compression function. */
module Digests {
  import opened Bits
  import opened Words
  import opened Tree
  import opened Dispatch
  import opened Portable
  import opened Hasher

  /** What one call of read gives. */
  datatype Read = Data(bytes: seq<Byte>) | Interrupted | Failed | EndOfFile

  datatype Option<T> = None | Some(value: T)

  /** A read fails before the end of the file. A read that is interrupted is tried again. */
  predicate Fails(results: seq<Read>) {
    results != [] && !results[0].EndOfFile? && (results[0].Failed? || Fails(results[1..]))
  }

  /** The bytes that arrive before the end of the file or a failure. */
  function Arrived(results: seq<Read>): seq<Byte> {
    if results == [] || results[0].EndOfFile? || results[0].Failed? then []
    else if results[0].Data? then results[0].bytes + Arrived(results[1..])
    else Arrived(results[1..])
  }

  /** Neither the end of the file nor a failure is among these reads. */
  predicate GoesOn(results: seq<Read>) {
    forall i | 0 <= i < |results| :: results[i].Data? || results[i].Interrupted?
  }

  lemma {:induction false} ReadsConcat(a: seq<Read>, b: seq<Read>)
    requires GoesOn(a)
    ensures Arrived(a + b) == Arrived(a) + Arrived(b) && (Fails(a + b) <==> Fails(b))
  {
    if a == [] {
      assert a + b == b;
    } else {
      assert (a + b)[1..] == a[1..] + b;
      ReadsConcat(a[1..], b);
    }
  }

  /** What the reads mean: a portion is appended, an interruption changes nothing, the end of the file ends the
      reading, and a failure makes it fail. */
  lemma ReadsMean(a: seq<Read>, bytes: seq<Byte>, b: seq<Read>)
    requires GoesOn(a)
    ensures Arrived(a + [Data(bytes)] + b) == Arrived(a) + bytes + Arrived(b)
    ensures Arrived(a + [Interrupted] + b) == Arrived(a + b) && (Fails(a + [Interrupted] + b) <==> Fails(a + b))
    ensures Arrived(a + [EndOfFile] + b) == Arrived(a) && !Fails(a + [EndOfFile] + b)
    ensures Fails(a + [Failed] + b)
  {
    assert a + [Data(bytes)] + b == a + ([Data(bytes)] + b) && a + [Interrupted] + b == a + ([Interrupted] + b);
    assert a + [EndOfFile] + b == a + ([EndOfFile] + b) && a + [Failed] + b == a + ([Failed] + b);
    ReadsConcat(a, [Data(bytes)] + b);
    ReadsConcat(a, [Interrupted] + b);
    ReadsConcat(a, [EndOfFile] + b);
    ReadsConcat(a, [Failed] + b);
    ReadsConcat(a, b);
  }

  /** blake3_mini_fd: the digest is the first 16 bytes of the BLAKE3 hash of the file, in whatever portions it is
      read, whatever the SIMD degree and whichever batch function; there is none if a read fails. */
  method MiniFd(results: seq<Read>, simd: nat, maxDegree: nat, neon: bool) returns (digest: Option<seq<Byte>>)
    requires |Arrived(results)| < TWO_64 && IsPow2(simd) && simd <= maxDegree && IsPow2(maxDegree)
    ensures digest == if Fails(results) then None else Some(Hash(PortableMode(IV, 0), Arrived(results), 0, 16))
  {
    hide *;
    PortableServes(neon);
    var hasher := new Hasher(PortableMode(IV, 0));
    var rest := results;
    ReadStart(results);
    while rest != [] && !rest[0].EndOfFile?
      invariant fresh(hasher) && fresh(hasher.chunk) && fresh(hasher.chunk.buf) && fresh(hasher.cvStack)
      invariant hasher.Valid() && hasher.mode == PortableMode(IV, 0)
      invariant ReadSoFar(results, hasher.absorbed, rest)
    {
      ReadStep(results, hasher.absorbed, rest);
      if rest[0].Failed? {
        return None;
      }
      if rest[0].Data? {
        hasher.Update(rest[0].bytes, simd, maxDegree, neon);
      }
      rest := rest[1..];
    }
    ReadEnd(results, hasher.absorbed, rest);
    var out := new Byte[16];
    hasher.FinalizeSeek(0, out, 16);
    assert out[..16] == out[..];
    digest := Some(out[..]);
  }

  /** The mode of these digests may use the NEON batch. */
  lemma PortableServes(neon: bool)
    ensures Serves(neon, PortableMode(IV, 0))
  {
  }

  /** `done` has been read, and `rest` is what is still to come. */
  ghost predicate ReadSoFar(results: seq<Read>, done: seq<Byte>, rest: seq<Read>) {
    Arrived(results) == done + Arrived(rest) && (Fails(results) <==> Fails(rest))
  }

  lemma ReadStart(results: seq<Read>)
    ensures ReadSoFar(results, [], results)
  {
  }

  lemma ReadStep(results: seq<Read>, done: seq<Byte>, rest: seq<Read>)
    requires ReadSoFar(results, done, rest) && rest != [] && !rest[0].EndOfFile?
    ensures rest[0].Failed? ==> Fails(results)
    ensures rest[0].Data? ==> |done| + |rest[0].bytes| <= |Arrived(results)|
    ensures rest[0].Data? ==> ReadSoFar(results, done + rest[0].bytes, rest[1..])
    ensures rest[0].Interrupted? ==> ReadSoFar(results, done, rest[1..])
  {
    if rest[0].Data? {
      assert done + (rest[0].bytes + Arrived(rest[1..])) == done + rest[0].bytes + Arrived(rest[1..]);
    }
  }

  lemma ReadEnd(results: seq<Read>, done: seq<Byte>, rest: seq<Read>)
    requires ReadSoFar(results, done, rest) && (rest == [] || rest[0].EndOfFile?)
    ensures Arrived(results) == done && !Fails(results)
  {
    assert done + [] == done;
  }
}
