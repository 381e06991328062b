/** Powers of two, base-two logarithm and bit counting over the natural numbers, and the
    portable bit tricks of the hasher proved against them. A 64-bit word is a natural number
    below `TWO_64`; `BitAnd` and `BitOr` are the bitwise operators on such words. */
module Bits {

  const TWO_64: nat := 0x1_0000_0000_0000_0000

  function Pow2(k: nat): (p: nat)
    ensures p >= 1
  {
    if k == 0 then 1 else 2 * Pow2(k - 1)
  }

  /** Index of the highest set bit. */
  function Log2(n: nat): nat
    requires n >= 1
  {
    if n == 1 then 0 else 1 + Log2(n / 2)
  }

  function PopCount(n: nat): nat {
    if n == 0 then 0 else n % 2 + PopCount(n / 2)
  }

  function BitAnd(x: nat, y: nat): nat {
    if x == 0 || y == 0 then 0
    else (if x % 2 == 1 && y % 2 == 1 then 1 else 0) + 2 * BitAnd(x / 2, y / 2)
  }

  function BitOr(x: nat, y: nat): nat
    decreases x + y
  {
    if x == 0 then y
    else if y == 0 then x
    else (if x % 2 == 1 || y % 2 == 1 then 1 else 0) + 2 * BitOr(x / 2, y / 2)
  }

  function BitXor(x: nat, y: nat): nat
    decreases x + y
  {
    if x == 0 then y
    else if y == 0 then x
    else (if x % 2 != y % 2 then 1 else 0) + 2 * BitXor(x / 2, y / 2)
  }

  ghost predicate IsPow2(n: nat) {
    n >= 1 && n == Pow2(Log2(n))
  }

  lemma {:induction false} Log2Bounds(n: nat)
    requires n >= 1
    ensures Pow2(Log2(n)) <= n < 2 * Pow2(Log2(n))
  {
    if n > 1 {
      Log2Bounds(n / 2);
    }
  }

  lemma {:induction false} Log2Unique(n: nat, k: nat)
    requires Pow2(k) <= n < 2 * Pow2(k)
    ensures Log2(n) == k
  {
    if k > 0 {
      assert Pow2(k) == 2 * Pow2(k - 1);
      Log2Unique(n / 2, k - 1);
    }
  }

  lemma Pow2IsPow2(k: nat)
    ensures IsPow2(Pow2(k)) && Log2(Pow2(k)) == k
  {
    Log2Unique(Pow2(k), k);
  }

  lemma {:induction false} Pow2Monotonic(a: nat, b: nat)
    requires a <= b
    ensures Pow2(a) <= Pow2(b)
    ensures a < b ==> 2 * Pow2(a) <= Pow2(b)
  {
    if a < b {
      Pow2Monotonic(a, b - 1);
    }
  }

  lemma Pow2Injective(a: nat, b: nat)
    requires Pow2(a) <= Pow2(b)
    ensures a <= b
  {
    if b < a {
      Pow2Monotonic(b, a);
    }
  }

  lemma {:induction false} Pow2Add(a: nat, b: nat)
    ensures Pow2(a + b) == Pow2(a) * Pow2(b)
  {
    if a > 0 {
      Pow2Add(a - 1, b);
      assert Pow2(a + b) == 2 * Pow2((a - 1) + b);
      assert Pow2(a) * Pow2(b) == 2 * (Pow2(a - 1) * Pow2(b));
    }
  }

  lemma Pow2Values()
    ensures Pow2(1) == 2 && Pow2(2) == 4 && Pow2(4) == 16 && Pow2(8) == 0x100 && Pow2(10) == 1024
    ensures Pow2(16) == 0x1_0000 && Pow2(32) == 0x1_0000_0000
    ensures Pow2(54) == 0x40_0000_0000_0000 && Pow2(64) == TWO_64
  {
    assert Pow2(1) == 2 && Pow2(2) == 4 && Pow2(4) == 16 && Pow2(6) == 64 && Pow2(8) == 0x100;
    assert Pow2(10) == 1024;
    assert Pow2(16) == 0x1_0000;
    assert Pow2(32) == 0x1_0000_0000 by { Pow2Add(16, 16); }
    assert Pow2(48) == 0x1_0000_0000_0000 by { Pow2Add(32, 16); }
    assert Pow2(54) == 0x40_0000_0000_0000 by { Pow2Add(48, 6); }
    assert Pow2(64) == TWO_64 by { Pow2Add(32, 32); }
  }

  /** A power of two divides every larger one. */
  lemma {:induction false} Pow2Divides(a: nat, b: nat)
    requires a <= b
    ensures Pow2(b) % Pow2(a) == 0
  {
    Pow2Add(b - a, a);
    MultipleMod(Pow2(b - a), Pow2(a));
  }

  lemma MultipleMod(q: nat, d: nat)
    requires d > 0
    ensures (q * d) % d == 0
  {
    DivModUnique(q * d, d, q, 0);
  }

  lemma MulAssoc(a: nat, b: nat, c: nat)
    ensures a * (b * c) == (a * b) * c
  {
  }

  /** Euclidean division is determined by its defining equation. */
  lemma DivModUnique(n: int, d: nat, q: int, r: int)
    requires d > 0 && n == q * d + r && 0 <= r < d
    ensures n / d == q && n % d == r
  {
    var q', r' := n / d, n % d;
    assert q' * d + r' == q * d + r;
    Distribute(q, q', d);
    if q > q' {
      MulAtLeast(q - q', d);
    } else if q < q' {
      Distribute(q', q, d);
      MulAtLeast(q' - q, d);
    }
  }

  lemma Distribute(a: int, b: int, d: int)
    ensures (a - b) * d == a * d - b * d
  {
  }

  lemma MulAtLeast(a: int, d: nat)
    requires a >= 1
    ensures a * d >= d
  {
  }

  lemma ModSum(x: nat, y: nat, d: nat)
    requires d > 0 && x % d == 0
    ensures (x + y) % d == y % d
  {
    var q, q' := x / d, y / d;
    assert x == q * d && y == q' * d + y % d;
    assert (q + q') * d == q * d + q' * d;
    DivModUnique(x + y, d, q + q', y % d);
  }

  lemma MultipleOfMultiple(n: nat, q: nat, m: nat, d: nat)
    requires d > 0 && n == q * (m * d)
    ensures n % d == 0
  {
    MulAssoc(q, m, d);
    MultipleMod(q * m, d);
  }

  /** Divisibility by a power of two passes to every smaller one. */
  lemma ModSmaller(n: nat, a: nat, b: nat)
    requires a <= b && n % Pow2(b) == 0
    ensures n % Pow2(a) == 0
  {
    hide Pow2;
    Pow2Add(b - a, a);
    MultipleOfMultiple(n, n / Pow2(b), Pow2(b - a), Pow2(a));
  }

  lemma ModDouble(x: nat, d: nat)
    requires d > 0
    ensures x % (2 * d) == x % 2 + 2 * ((x / 2) % d)
    ensures x / (2 * d) == (x / 2) / d
  {
    var q, r := (x / 2) / d, (x / 2) % d;
    assert x == 2 * (q * d + r) + x % 2;
    assert q * (2 * d) == 2 * (q * d);
    DivModUnique(x, 2 * d, q, 2 * r + x % 2);
  }

  lemma Pow2Step(k: nat)
    ensures if k == 0 then Pow2(k) == 1 else Pow2(k) == 2 * Pow2(k - 1)
  {
  }

  lemma MaskZero(x: nat)
    ensures BitAnd(0, x) == 0 && BitAnd(x, 0) == 0 && x % 1 == 0
  {
  }

  /** The lowest bit of a mask of ones, and the rest of it. */
  lemma MaskStep(x: nat, d: nat)
    requires d >= 1
    ensures BitAnd(2 * d - 1, x) == x % 2 + 2 * BitAnd(d - 1, x / 2)
    ensures BitAnd(x, 2 * d - 1) == x % 2 + 2 * BitAnd(x / 2, d - 1)
  {
    assert (2 * d - 1) / 2 == d - 1 && (2 * d - 1) % 2 == 1;
  }

  /** Masking with `2^k - 1` is the remainder modulo `2^k`. */
  lemma {:induction false} MaskIsMod(x: nat, k: nat)
    ensures BitAnd(Pow2(k) - 1, x) == x % Pow2(k)
    ensures BitAnd(x, Pow2(k) - 1) == x % Pow2(k)
  {
    Pow2Step(k);
    hide BitAnd, Pow2;
    if k == 0 {
      MaskZero(x);
    } else {
      MaskIsMod(x / 2, k - 1);
      ModDouble(x, Pow2(k - 1));
      MaskStep(x, Pow2(k - 1));
    }
  }

  lemma AndEven(x: nat, m: nat)
    ensures BitAnd(x, 2 * m) == 2 * BitAnd(x / 2, m)
  {
  }

  /** In a word of `lo + w` bits the mask of the upper `w` bits tests exactly `x >= 2^lo`. */
  lemma {:induction false} HighMaskTest(x: nat, lo: nat, w: nat)
    requires x < Pow2(lo + w)
    ensures Pow2(lo) <= Pow2(lo + w)
    ensures BitAnd(x, Pow2(lo + w) - Pow2(lo)) != 0 <==> x >= Pow2(lo)
  {
    hide BitAnd;
    Pow2Monotonic(lo, lo + w);
    if lo == 0 {
      MaskIsMod(x, w);
      ModSmall(x, Pow2(w));
    } else {
      HighMaskTest(x / 2, lo - 1, w);
      var m := Pow2(lo - 1 + w) - Pow2(lo - 1);
      assert Pow2(lo + w) - Pow2(lo) == 2 * m;
      AndEven(x, m);
    }
  }

  lemma ModSmall(x: nat, d: nat)
    requires x < d
    ensures x % d == x && x / d == 0
  {
    DivModUnique(x, d, 0, x);
  }

  /** Shifting right by `a` and then by `b` is shifting by `a + b`. */
  lemma {:induction false} ShiftShift(x: nat, a: nat, b: nat)
    ensures x / Pow2(a) / Pow2(b) == x / Pow2(a + b)
  {
    if a > 0 {
      ModDouble(x, Pow2(a - 1));
      ModDouble(x, Pow2(a - 1 + b));
      ShiftShift(x / 2, a - 1, b);
    }
  }

  /** A right shift by `a` keeps the value below `2^b` just when it was below `2^(a + b)`. */
  lemma {:induction false} ShiftBound(x: nat, a: nat, b: nat)
    ensures x / Pow2(a) < Pow2(b) <==> x < Pow2(a + b)
  {
    if a > 0 {
      ModDouble(x, Pow2(a - 1));
      ShiftBound(x / 2, a - 1, b);
    }
  }

  /** `x & (x - 1)` clears the lowest set bit, so it drops exactly one from the count. */
  lemma {:induction false} ClearLowestBit(x: nat)
    requires x > 0
    ensures BitAnd(x, x - 1) < x
    ensures PopCount(BitAnd(x, x - 1)) + 1 == PopCount(x)
  {
    if x % 2 == 1 {
      AndSelf(x / 2);
      assert (x - 1) / 2 == x / 2;
    } else {
      ClearLowestBit(x / 2);
      assert (x - 1) / 2 == x / 2 - 1;
      assert BitAnd(x, x - 1) == 2 * BitAnd(x / 2, x / 2 - 1);
    }
  }

  lemma {:induction false} AndSelf(x: nat)
    ensures BitAnd(x, x) == x
  {
    if x > 0 {
      AndSelf(x / 2);
    }
  }

  lemma {:induction false} XorBound(x: nat, y: nat, k: nat)
    requires x < Pow2(k) && y < Pow2(k)
    ensures BitXor(x, y) < Pow2(k)
  {
    if x > 0 && y > 0 {
      XorBound(x / 2, y / 2, k - 1);
    }
  }

  // ----- what the bitwise operations mean

  lemma XorLast(x: nat, y: nat)
    ensures BitXor(x, y) == (if x % 2 == y % 2 then 0 else 1) + 2 * BitXor(x / 2, y / 2)
  {
    if x == 0 {
      assert y == y % 2 + 2 * (y / 2);
    } else if y == 0 {
      assert x == x % 2 + 2 * (x / 2);
    }
  }

  lemma XorHalf(x: nat, y: nat)
    ensures BitXor(x, y) / 2 == BitXor(x / 2, y / 2) && BitXor(x, y) % 2 == (x + y) % 2
  {
    hide BitXor;
    XorLast(x, y);
  }

  lemma OrHalf(x: nat, y: nat)
    ensures BitOr(x, y) / 2 == BitOr(x / 2, y / 2) && BitOr(x, y) % 2 == if x % 2 == 0 && y % 2 == 0 then 0 else 1
  {
    hide BitOr;
    OrLast(x, y);
  }

  lemma AndLast(x: nat, y: nat)
    ensures BitAnd(x, y) == (x % 2 + y % 2) / 2 + 2 * BitAnd(x / 2, y / 2)
  {
  }

  lemma OrLast(x: nat, y: nat)
    ensures BitOr(x, y) == (x % 2 + y % 2 + 1) / 2 + 2 * BitOr(x / 2, y / 2)
  {
  }

  /** Exclusive or is addition without the carries, which are the common bits ... */
  lemma {:induction false} XorSum(x: nat, y: nat)
    ensures x + y == BitXor(x, y) + 2 * BitAnd(x, y)
  {
    hide BitXor, BitAnd;
    if x == 0 {
      ZeroBits(y);
    } else {
      XorLast(x, y);
      AndLast(x, y);
      XorSum(x / 2, y / 2);
    }
  }

  /** ... inclusive or has them once ... */
  lemma {:induction false} OrSum(x: nat, y: nat)
    ensures x + y == BitOr(x, y) + BitAnd(x, y)
  {
    hide BitOr, BitAnd;
    if x == 0 {
      ZeroBits(y);
    } else {
      OrLast(x, y);
      AndLast(x, y);
      OrSum(x / 2, y / 2);
    }
  }

  lemma ZeroBits(y: nat)
    ensures BitXor(0, y) == y && BitAnd(0, y) == 0 && BitOr(0, y) == y
  {
  }

  /** ... and every bit of the exclusive or is the sum of the two bits, modulo two. */
  lemma {:induction false} XorBit(x: nat, y: nat, i: nat)
    ensures BitXor(x, y) / Pow2(i) % 2 == (x / Pow2(i) + y / Pow2(i)) % 2
    decreases i
  {
    hide BitXor, Pow2;
    Pow2Step(i);
    XorHalf(x, y);
    if i > 0 {
      XorBit(x / 2, y / 2, i - 1);
      ModDouble(BitXor(x, y), Pow2(i - 1));
      ModDouble(x, Pow2(i - 1));
      ModDouble(y, Pow2(i - 1));
    }
  }

  /** A bit of an inclusive or is clear exactly when it is clear in both. */
  lemma {:induction false} OrBit(x: nat, y: nat, i: nat)
    ensures BitOr(x, y) / Pow2(i) % 2 == 0 <==> x / Pow2(i) % 2 == 0 && y / Pow2(i) % 2 == 0
    decreases i
  {
    hide BitOr, Pow2;
    Pow2Step(i);
    OrHalf(x, y);
    if i > 0 {
      OrBit(x / 2, y / 2, i - 1);
      ModDouble(BitOr(x, y), Pow2(i - 1));
      ModDouble(x, Pow2(i - 1));
      ModDouble(y, Pow2(i - 1));
    }
  }

  /** Exclusive or undoes itself. */
  lemma {:induction false} XorCancel(x: nat, y: nat)
    ensures BitXor(BitXor(x, y), y) == x
  {
    hide BitXor;
    if x == 0 && y == 0 {
      ZeroBits(0);
    } else {
      XorLast(x, y);
      XorLast(BitXor(x, y), y);
      XorCancel(x / 2, y / 2);
    }
  }

  lemma {:induction false} OrBound(x: nat, y: nat, k: nat)
    requires x < Pow2(k) && y < Pow2(k)
    ensures BitOr(x, y) < Pow2(k)
  {
    if x > 0 && y > 0 {
      OrBound(x / 2, y / 2, k - 1);
    }
  }

  /** A number below `2^k` has at most `k` set bits, and exactly `k` only when all are set. */
  lemma {:induction false} PopCountBound(n: nat, k: nat)
    requires n < Pow2(k)
    ensures PopCount(n) <= k
    ensures PopCount(n) == k ==> n == Pow2(k) - 1
  {
    if n > 0 {
      PopCountBound(n / 2, k - 1);
    }
  }

  /** Adding a new lowest bit adds one to the count. */
  lemma {:induction false} PopCountAdd(high: nat, k: nat)
    requires high % Pow2(k + 1) == 0
    ensures PopCount(high + Pow2(k)) == PopCount(high) + 1
  {
    if k == 0 {
      assert Pow2(1) == 2;
      assert (high + 1) / 2 == high / 2;
    } else {
      ModDouble(high, Pow2(k));
      PopCountAdd(high / 2, k - 1);
      assert (high + Pow2(k)) / 2 == high / 2 + Pow2(k - 1);
      assert (high + Pow2(k)) % 2 == 0;
    }
  }

  /** The search so far: `x` is `word` shifted right by `c`, non-zero and at most `w` bits wide. */
  ghost predicate Narrowed(word: nat, x: nat, c: nat, w: nat) {
    1 <= x < Pow2(w) && x == word / Pow2(c)
  }

  /** One line of the search: if the upper half of the `2 * w` bits is non-zero, shift it down. */
  method SearchStep(ghost word: nat, x: nat, c: nat, mask: nat, w: nat) returns (x': nat, c': nat)
    requires Narrowed(word, x, c, w + w)
    requires mask == Pow2(w + w) - Pow2(w)
    ensures Narrowed(word, x', c', w)
    ensures c <= c' <= c + w
  {
    HighMaskTest(x, w, w);
    ShiftShift(word, c, w);
    ShiftBound(x, w, w);
    ShiftBound(x, w, 0);
    x', c' := x, c;
    if BitAnd(x, mask) != 0 {
      x', c' := x / Pow2(w), c + w;
    }
  }

  /** blake3_impl.h, the portable `highest_one`: a binary search for the highest set bit. */
  method HighestOne(word: nat) returns (c: nat)
    requires 1 <= word < TWO_64
    ensures c < 64 && c == Log2(word)
  {
    Pow2Values();
    var x := word;
    c := 0;
    x, c := SearchStep(word, x, c, 0xffff_ffff_0000_0000, 32);
    x, c := SearchStep(word, x, c, 0xffff_0000, 16);
    x, c := SearchStep(word, x, c, 0xff00, 8);
    x, c := SearchStep(word, x, c, 0xf0, 4);
    x, c := SearchStep(word, x, c, 0xc, 2);
    x, c := SearchStep(word, x, c, 0x2, 1);
    NarrowedToOne(word, x, c);
  }

  lemma NarrowedToOne(word: nat, x: nat, c: nat)
    requires Narrowed(word, x, c, 1)
    ensures Log2(word) == c
  {
    assert Pow2(1) == 2 && Pow2(0) == 1;
    ShiftBound(word, c, 1);
    ShiftBound(word, c, 0);
    Log2Unique(word, c);
  }

  /** blake3_impl.h, the portable `popcnt`. */
  method PopCnt(word: nat) returns (count: nat)
    ensures count == PopCount(word)
  {
    var x := word;
    count := 0;
    while x != 0
      invariant count + PopCount(x) == PopCount(word)
      decreases x
    {
      ClearLowestBit(x);
      count := count + 1;
      x := BitAnd(x, x - 1);
    }
  }

  /** blake3_impl.h, `round_down_to_power_of_2`: the largest power of two not above `x`, or 1. */
  method RoundDownToPowerOf2(x: nat) returns (r: nat)
    requires x < TWO_64
    ensures IsPow2(r) && r < TWO_64
    ensures x >= 1 ==> r <= x < 2 * r
    ensures x == 0 ==> r == 1
    ensures x >= 1 ==> Log2(r) == Log2(x)
  {
    OrOne(x);
    var c := HighestOne(BitOr(x, 1));
    r := Pow2(c);
    Pow2IsPow2(c);
    Pow2Values();
    Pow2Monotonic(c + 1, 64);
    Log2Bounds(BitOr(x, 1));
    if x >= 1 {
      if x % 2 == 0 {
        EvenAbovePow2(x, c);
      }
      Log2Unique(x, c);
    }
  }

  lemma OrOne(x: nat)
    requires x < TWO_64
    ensures BitOr(x, 1) == (if x % 2 == 0 then x + 1 else x)
    ensures 1 <= BitOr(x, 1) < TWO_64
  {
    if x > 0 {
      assert BitOr(x / 2, 0) == x / 2;
    }
  }

  lemma EvenAbovePow2(x: nat, c: nat)
    requires x >= 1 && x % 2 == 0 && Pow2(c) <= x + 1
    ensures Pow2(c) <= x
  {
    if c > 0 {
      assert Pow2(c) == 2 * Pow2(c - 1);
    }
  }
}
