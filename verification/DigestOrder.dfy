/** Equality and order of digests (blake3_stubs.c), which are computed on two 64-bit fields. */
module DigestOrder {

  type Octet = bv8
  type Digest = d: seq<Octet> | |d| == 16 witness seq(16, _ => 0)

  /** Eight bytes as a number, the first one lowest, or highest. */
  function LowestFirst(b: seq<Octet>): bv64
    requires |b| == 8
  {
    (b[0] as bv64) | ((b[1] as bv64) << 8) | ((b[2] as bv64) << 16) | ((b[3] as bv64) << 24)
    | ((b[4] as bv64) << 32) | ((b[5] as bv64) << 40) | ((b[6] as bv64) << 48) | ((b[7] as bv64) << 56)
  }

  function HighestFirst(b: seq<Octet>): bv64
    requires |b| == 8
  {
    (b[7] as bv64) | ((b[6] as bv64) << 8) | ((b[5] as bv64) << 16) | ((b[4] as bv64) << 24)
    | ((b[3] as bv64) << 32) | ((b[2] as bv64) << 40) | ((b[1] as bv64) << 48) | ((b[0] as bv64) << 56)
  }

  /** digest_field: eight bytes in the order of the machine. */
  function Field(d: Digest, field: nat, bigEndian: bool): bv64
    requires field < 2
  {
    var b := d[8 * field..8 * field + 8];
    if bigEndian then HighestFirst(b) else LowestFirst(b)
  }

  /** digest_field_for_compare: on a little-endian machine the bytes are turned round, neighbours first. */
  function FieldForCompare(d: Digest, field: nat, bigEndian: bool): bv64
    requires field < 2
  {
    if bigEndian then Field(d, field, true) else Turned(Field(d, field, false))
  }

  function Turned(x: bv64): bv64 {
    var y := ((x & 0x00ff00ff00ff00ff) << 8) | ((x & 0xff00ff00ff00ff00) >> 8);
    var z := ((y & 0x0000ffff0000ffff) << 16) | ((y & 0xffff0000ffff0000) >> 16);
    (z << 32) | (z >> 32)
  }

  /** blake3_mini_digest_equal */
  predicate Equal(left: Digest, right: Digest, bigEndian: bool) {
    Field(left, 0, bigEndian) == Field(right, 0, bigEndian) && Field(left, 1, bigEndian) == Field(right, 1, bigEndian)
  }

  function Sign(x: bv64, y: bv64): int {
    (if x > y then 1 else 0) - (if x < y then 1 else 0)
  }

  /** blake3_mini_digest_compare */
  function Compare(left: Digest, right: Digest, bigEndian: bool): int {
    var x, y := FieldForCompare(left, 0, bigEndian), FieldForCompare(right, 0, bigEndian);
    if x == y then Sign(FieldForCompare(left, 1, bigEndian), FieldForCompare(right, 1, bigEndian)) else Sign(x, y)
  }

  /** The lexicographic order of byte strings. */
  function Lexicographic(a: seq<Octet>, b: seq<Octet>): int
    requires |a| == |b|
  {
    if a == [] then 0
    else if a[0] < b[0] then -1
    else if a[0] > b[0] then 1
    else Lexicographic(a[1..], b[1..])
  }

  lemma TurnedRound(b: seq<Octet>)
    requires |b| == 8
    ensures Turned(LowestFirst(b)) == HighestFirst(b)
  {
  }

  lemma NumbersDetermineBytes(a: seq<Octet>, b: seq<Octet>)
    requires |a| == |b| == 8
    ensures HighestFirst(a) == HighestFirst(b) <==> a == b
    ensures LowestFirst(a) == LowestFirst(b) <==> a == b
  {
  }

  /** Before its first difference from `b`, and there smaller. */
  predicate Before(a: seq<Octet>, b: seq<Octet>, k: nat)
    requires |a| == |b| == 8 && k < 8
  {
    && (k >= 1 ==> a[0] == b[0]) && (k >= 2 ==> a[1] == b[1]) && (k >= 3 ==> a[2] == b[2]) && (k >= 4 ==> a[3] == b[3])
    && (k >= 5 ==> a[4] == b[4]) && (k >= 6 ==> a[5] == b[5]) && (k >= 7 ==> a[6] == b[6]) && a[k] < b[k]
  }

  lemma EarlyDifference(a: seq<Octet>, b: seq<Octet>, k: nat)
    requires |a| == |b| == 8 && k < 4 && Before(a, b, k)
    ensures HighestFirst(a) < HighestFirst(b)
  {
    if k == 0 {
    } else if k == 1 {
    } else if k == 2 {
    }
  }

  lemma LateDifference(a: seq<Octet>, b: seq<Octet>, k: nat)
    requires |a| == |b| == 8 && 4 <= k < 8 && Before(a, b, k)
    ensures HighestFirst(a) < HighestFirst(b)
  {
    if k == 4 {
    } else if k == 5 {
    } else if k == 6 {
    }
  }

  /** The first byte that differs decides. */
  lemma FirstDifference(a: seq<Octet>, b: seq<Octet>, k: nat)
    requires |a| == |b| == 8 && k < 8 && a[..k] == b[..k] && a[k] < b[k]
    ensures HighestFirst(a) < HighestFirst(b)
  {
    hide HighestFirst;
    assert forall i | 0 <= i < k :: a[i] == a[..k][i] && b[i] == b[..k][i];
    if k < 4 {
      EarlyDifference(a, b, k);
    } else {
      LateDifference(a, b, k);
    }
  }

  lemma {:induction false} LexicographicAt(a: seq<Octet>, b: seq<Octet>, k: nat)
    requires |a| == |b| && k < |a| && a[..k] == b[..k] && a[k] != b[k]
    ensures Lexicographic(a, b) == if a[k] < b[k] then -1 else 1
    decreases k
  {
    if k > 0 {
      assert a[0] == a[..k][0] == b[..k][0] == b[0];
      assert a[1..][..k - 1] == a[..k][1..] && b[1..][..k - 1] == b[..k][1..];
      LexicographicAt(a[1..], b[1..], k - 1);
    }
  }

  lemma {:induction false} Differ(a: seq<Octet>, b: seq<Octet>) returns (k: nat)
    requires |a| == |b| && a != b
    ensures k < |a| && a[..k] == b[..k] && a[k] != b[k]
  {
    if a[0] != b[0] {
      k := 0;
    } else {
      assert a == [a[0]] + a[1..] && b == [b[0]] + b[1..];
      k := Differ(a[1..], b[1..]);
      k := k + 1;
      assert a[..k] == [a[0]] + a[1..][..k - 1] && b[..k] == [b[0]] + b[1..][..k - 1];
    }
  }

  lemma {:induction false} LexicographicSame(a: seq<Octet>)
    ensures Lexicographic(a, a) == 0
  {
    if a != [] {
      LexicographicSame(a[1..]);
    }
  }

  lemma SignIsLexicographic(a: seq<Octet>, b: seq<Octet>)
    requires |a| == |b| == 8
    ensures Sign(HighestFirst(a), HighestFirst(b)) == Lexicographic(a, b)
  {
    hide HighestFirst, Lexicographic;
    if a == b {
      LexicographicSame(a);
    } else {
      var k := Differ(a, b);
      LexicographicAt(a, b, k);
      if a[k] < b[k] {
        FirstDifference(a, b, k);
      } else {
        FirstDifference(b, a, k);
      }
    }
  }

  lemma {:induction false} LexicographicConcat(a: seq<Octet>, b: seq<Octet>, c: seq<Octet>, d: seq<Octet>)
    requires |a| == |b| && |c| == |d|
    ensures Lexicographic(a + c, b + d) == if a == b then Lexicographic(c, d) else Lexicographic(a, b)
  {
    if a == [] {
      assert a + c == c && b + d == d;
    } else {
      assert (a + c)[1..] == a[1..] + c && (b + d)[1..] == b[1..] + d;
      assert a == [a[0]] + a[1..] && b == [b[0]] + b[1..];
      LexicographicConcat(a[1..], b[1..], c, d);
    }
  }

  lemma ForCompareIsHighestFirst(d: Digest, field: nat, bigEndian: bool)
    requires field < 2
    ensures FieldForCompare(d, field, bigEndian) == HighestFirst(d[8 * field..8 * field + 8])
  {
    hide Turned, LowestFirst, HighestFirst;
    TurnedRound(d[8 * field..8 * field + 8]);
  }

  /** On either kind of machine the order is the lexicographic order of the bytes ... */
  lemma CompareIsLexicographic(left: Digest, right: Digest, bigEndian: bool)
    ensures Compare(left, right, bigEndian) == Lexicographic(left, right)
  {
    hide FieldForCompare, HighestFirst, Lexicographic, Sign;
    var a, b, c, d := left[..8], right[..8], left[8..], right[8..];
    assert left == a + c && left[0..8] == a && left[8..16] == c;
    assert right == b + d && right[0..8] == b && right[8..16] == d;
    ForCompareIsHighestFirst(left, 0, bigEndian);
    ForCompareIsHighestFirst(right, 0, bigEndian);
    ForCompareIsHighestFirst(left, 1, bigEndian);
    ForCompareIsHighestFirst(right, 1, bigEndian);
    NumbersDetermineBytes(a, b);
    SignIsLexicographic(a, b);
    SignIsLexicographic(c, d);
    LexicographicConcat(a, b, c, d);
  }

  /** ... equality is equality of the bytes ... */
  lemma EqualIsSame(left: Digest, right: Digest, bigEndian: bool)
    ensures Equal(left, right, bigEndian) <==> left == right
  {
    hide HighestFirst, LowestFirst;
    assert left == left[0..8] + left[8..16] && right == right[0..8] + right[8..16];
    NumbersDetermineBytes(left[0..8], right[0..8]);
    NumbersDetermineBytes(left[8..16], right[8..16]);
  }

  lemma {:induction false} LexicographicOrder(a: seq<Octet>, b: seq<Octet>, c: seq<Octet>)
    requires |a| == |b| == |c|
    ensures Lexicographic(a, b) == -Lexicographic(b, a) && (Lexicographic(a, b) == 0 <==> a == b)
    ensures Lexicographic(a, b) <= 0 && Lexicographic(b, c) <= 0 ==> Lexicographic(a, c) <= 0
  {
    if a != [] {
      LexicographicOrder(a[1..], b[1..], c[1..]);
      assert a == [a[0]] + a[1..] && b == [b[0]] + b[1..];
    }
  }

  /** ... and so the order is total, and agrees with equality. */
  lemma CompareIsTotalOrder(a: Digest, b: Digest, c: Digest, bigEndian: bool)
    ensures Compare(a, b, bigEndian) == -Compare(b, a, bigEndian)
    ensures Compare(a, b, bigEndian) == 0 <==> Equal(a, b, bigEndian)
    ensures Compare(a, b, bigEndian) <= 0 && Compare(b, c, bigEndian) <= 0 ==> Compare(a, c, bigEndian) <= 0
  {
    hide Compare, Equal, Lexicographic;
    CompareIsLexicographic(a, b, bigEndian);
    CompareIsLexicographic(b, a, bigEndian);
    CompareIsLexicographic(b, c, bigEndian);
    CompareIsLexicographic(a, c, bigEndian);
    EqualIsSame(a, b, bigEndian);
    LexicographicOrder(a, b, c);
  }
}
