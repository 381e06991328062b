/** The word arithmetic of the model against that of 32-bit machine words, Dafny's `bv32`, whose
    operators owe nothing to the definitions of `Bits` and `Portable`. */
module Machine {
  import opened Bits
  import opened Words

  function Bit(v: bv32): (r: nat)
    ensures r < 2
  {
    if v & 1 == 1 then 1 else 0
  }

  function Half(v: bv32): bv32 {
    v >> 1
  }

  /** The number that a machine word stands for. */
  function Num(v: bv32): nat
    decreases v
  {
    if v == 0 then 0 else Bit(v) + 2 * Num(Half(v))
  }

  lemma NumStep(v: bv32)
    ensures Num(v) == Bit(v) + 2 * Num(Half(v))
  {
  }

  // ----- exclusive or

  lemma XorDigit(x: nat, y: nat, i: nat, j: nat)
    requires i < 2 && j < 2
    ensures BitXor(i + 2 * x, j + 2 * y) == (i + j) % 2 + 2 * BitXor(x, y)
  {
    hide BitXor;
    XorLast(i + 2 * x, j + 2 * y);
  }

  function Exclusive(u: bv32, v: bv32): bv32 {
    u ^ v
  }

  lemma XorBits(u: bv32, v: bv32)
    ensures Half(Exclusive(u, v)) == Exclusive(Half(u), Half(v))
    ensures Bit(Exclusive(u, v)) == (Bit(u) + Bit(v)) % 2
  {
  }

  lemma ZeroOrHalves(u: bv32, v: bv32)
    ensures if u == 0 then Exclusive(u, v) == v else Half(u) < u
  {
  }

  lemma {:induction false} XorNum(u: bv32, v: bv32)
    ensures Num(Exclusive(u, v)) == BitXor(Num(u), Num(v))
    decreases u
  {
    hide Exclusive, BitXor, Bit, Half, Num;
    ZeroOrHalves(u, v);
    if u == 0 {
      NumZero();
      ZeroBits(Num(v));
    } else {
      XorBits(u, v);
      XorNum(Half(u), Half(v));
      NumStep(u);
      NumStep(v);
      NumStep(Exclusive(u, v));
      XorDigit(Num(Half(u)), Num(Half(v)), Bit(u), Bit(v));
    }
  }

  lemma NumZero()
    ensures Num(0) == 0
  {
  }

  // ----- the next word

  function Next(u: bv32): bv32 {
    u + 1
  }

  predicate Last(u: bv32) {
    u == 0xFFFF_FFFF
  }

  lemma NextEven(u: bv32)
    requires Bit(u) == 0
    ensures Bit(Next(u)) == 1 && Half(Next(u)) == Half(u)
  {
  }

  lemma NextOdd(u: bv32)
    requires Bit(u) == 1 && !Last(u)
    ensures Half(Next(u)) == Next(Half(u))
  {
  }

  lemma NextOfOdd(u: bv32)
    requires Bit(u) == 1
    ensures Bit(Next(u)) == 0
  {
  }

  lemma HalfOfOdd(u: bv32)
    requires Bit(u) == 1
    ensures !Last(Half(u)) && Half(u) < u
  {
  }

  lemma {:induction false} NextNum(u: bv32)
    requires !Last(u)
    ensures Num(Next(u)) == Num(u) + 1
    decreases u
  {
    hide Bit, Half, Num, Next, Last;
    NumStep(u);
    NumStep(Next(u));
    if Bit(u) == 1 {
      NextOdd(u);
      NextOfOdd(u);
      HalfOfOdd(u);
      NextNum(Half(u));
    } else {
      NextEven(u);
    }
  }

  // ----- the value of a word, bit by bit

  lemma NibbleNum(v: bv32, rest: bv32)
    requires rest == v >> 4
    ensures Num(v) == (if v & 1 == 0 then 0 else 1) + (if v & 2 == 0 then 0 else 2)
                   + (if v & 4 == 0 then 0 else 4) + (if v & 8 == 0 then 0 else 8) + 16 * Num(rest)
  {
    hide Num;
    NumStep(v);
    NumStep(v >> 1);
    NumStep(v >> 2);
    NumStep(v >> 3);
  }

  lemma ByteNum(v: bv32, rest: bv32)
    requires rest == v >> 8
    ensures Num(v) == (if v & 1 == 0 then 0 else 1) + (if v & 2 == 0 then 0 else 2)
                   + (if v & 4 == 0 then 0 else 4) + (if v & 8 == 0 then 0 else 8)
                   + (if v & 0x10 == 0 then 0 else 0x10) + (if v & 0x20 == 0 then 0 else 0x20)
                   + (if v & 0x40 == 0 then 0 else 0x40) + (if v & 0x80 == 0 then 0 else 0x80) + 0x100 * Num(rest)
  {
    hide Num;
    NibbleNum(v, v >> 4);
    NibbleNum(v >> 4, rest);
  }

  function ByteOf(v: bv32): (r: nat)
    ensures r < 0x100
  {
    ((v & 0xFF) as bv8) as nat
  }

  function Rest(v: bv32): bv32 {
    v >> 8
  }

  lemma ByteOfNum(v: bv32)
    ensures Num(v) == ByteOf(v) + 0x100 * Num(Rest(v))
  {
    hide Num;
    ByteNum(v, Rest(v));
  }

  lemma RestsAre(v: bv32)
    ensures Rest(Rest(v)) == v >> 16 && Rest(Rest(Rest(v))) == v >> 24 && Rest(Rest(Rest(Rest(v)))) == 0
  {
  }

  lemma FourBytes(v: bv32)
    ensures Num(v) == ByteOf(v) + 0x100 * ByteOf(Rest(v)) + 0x1_0000 * ByteOf(Rest(Rest(v)))
                   + 0x100_0000 * ByteOf(Rest(Rest(Rest(v))))
  {
    hide Num, ByteOf, Rest;
    ByteOfNum(v);
    ByteOfNum(Rest(v));
    ByteOfNum(Rest(Rest(v)));
    ByteOfNum(Rest(Rest(Rest(v))));
    RestsAre(v);
    NumZero();
  }

  /** The value of a word from its four bytes. */
  lemma LiteralNum(v: bv32)
    ensures Num(v) == (v & 0xFF) as bv8 as nat + 0x100 * (((v >> 8) & 0xFF) as bv8 as nat)
                   + 0x1_0000 * (((v >> 16) & 0xFF) as bv8 as nat) + 0x100_0000 * (((v >> 24) & 0xFF) as bv8 as nat)
  {
    hide Num;
    FourBytes(v);
    RestsAre(v);
  }

  lemma NumBound(u: bv32)
    ensures Num(u) < 0x1_0000_0000
  {
    hide Num;
    LiteralNum(u);
  }

  // ----- addition, by counting

  lemma IncrementNum(u: bv32)
    ensures Num(u + 1) == (Num(u) + 1) % 0x1_0000_0000
  {
    hide Num;
    if u == 0xFFFF_FFFF {
      LiteralNum(u);
      NumZero();
    } else {
      NextNum(u);
      NumBound(u + 1);
    }
  }

  lemma DecrementNum(v: bv32)
    requires v != 0
    ensures Num(v - 1) == Num(v) - 1 && v - 1 < v
  {
    hide Num;
    NextNum(v - 1);
  }

  lemma MoveOne(a: nat, b: nat)
    requires a < 0x1_0000_0000 && b > 0
    ensures ((a + 1) % 0x1_0000_0000 + (b - 1)) % 0x1_0000_0000 == (a + b) % 0x1_0000_0000
  {
    if a + 1 == 0x1_0000_0000 {
      assert (a + b) % 0x1_0000_0000 == (b - 1) % 0x1_0000_0000 by { ModSum(b - 1); }
    }
  }

  lemma ModSum(b: nat)
    ensures (0x1_0000_0000 + b) % 0x1_0000_0000 == b % 0x1_0000_0000
  {
  }

  predicate IsSum(u: bv32, v: bv32, r: bv32) {
    r == u + v
  }

  lemma CountSum(u: bv32, v: bv32, r: bv32)
    requires IsSum(u, v, r)
    ensures IsSum(u + 1, v - 1, r)
  {
  }

  lemma ZeroSum(u: bv32, r: bv32)
    requires IsSum(u, 0, r)
    ensures r == u
  {
  }

  lemma {:induction false} SumNum(u: bv32, v: bv32, r: bv32)
    requires IsSum(u, v, r)
    ensures Num(r) == (Num(u) + Num(v)) % 0x1_0000_0000
    decreases v
  {
    hide Num, IsSum;
    if v == 0 {
      ZeroSum(u, r);
      NumZero();
      NumBound(u);
    } else {
      IncrementNum(u);
      DecrementNum(v);
      NumBound(u);
      MoveOne(Num(u), Num(v));
      CountSum(u, v, r);
      SumNum(u + 1, v - 1, r);
    }
  }

  // ----- rotation, one place at a time

  function Turn(v: bv32): bv32 {
    (v >> 1) | (v << 31)
  }

  lemma TurnEven(v: bv32)
    requires Bit(v) == 0
    ensures Turn(v) == Half(v)
  {
  }

  lemma TurnOdd(v: bv32)
    requires Bit(v) == 1
    ensures IsSum(Half(v), 0x8000_0000, Turn(v))
  {
  }

  lemma TurnNum(v: bv32)
    ensures Num(Turn(v)) == Num(v) / 2 + Num(v) % 2 * 0x8000_0000
  {
    hide Num, Bit, Turn, IsSum, Half;
    NumStep(v);
    NumBound(v);
    if Bit(v) == 0 {
      TurnEven(v);
    } else {
      TurnOdd(v);
      LiteralNum(0x8000_0000);
      SumNum(Half(v), 0x8000_0000, Turn(v));
    }
  }

  function Rotated(w: nat, k: nat): int
    requires k <= 32
  {
    w / Pow2(k) + w % Pow2(k) * Pow2(32 - k)
  }

  lemma ShiftedIn(h: nat, b: nat, p: nat, q: nat)
    requires p > 0 && p * q == 0x8000_0000
    ensures (h + b * 0x8000_0000) / p == h / p + b * q && (h + b * 0x8000_0000) % p == h % p
  {
    assert b * q * p == b * 0x8000_0000;
    assert (h / p + b * q) * p == h / p * p + b * q * p;
    DivModUnique(h + b * 0x8000_0000, p, h / p + b * q, h % p);
  }

  lemma Regroup(r: nat, b: nat, q: nat)
    ensures (b + 2 * r) * q == b * q + r * (2 * q)
  {
  }

  lemma HalfProduct(k: nat)
    requires k < 32
    ensures Pow2(k) * Pow2(31 - k) == 0x8000_0000
  {
    hide Pow2;
    Pow2Add(k, 31 - k);
    Pow2Step(32);
    Pow2Values();
  }

  lemma RotatedStep(w: nat, k: nat)
    requires k < 32
    ensures Rotated(w / 2 + w % 2 * 0x8000_0000, k) == Rotated(w, k + 1)
  {
    hide Pow2;
    var h, b := w / 2, w % 2;
    var p, q := Pow2(k), Pow2(31 - k);
    HalfProduct(k);
    Pow2Step(k + 1);
    Pow2Step(32 - k);
    ModDouble(w, p);
    ShiftedIn(h, b, p, q);
    Regroup(h % p, b, q);
  }

  lemma TurnStep(v: bv32, k: nat)
    requires k < 32
    ensures Rotated(Num(Turn(v)), k) == Rotated(Num(v), k + 1)
  {
    hide Num, Turn, Rotated;
    TurnNum(v);
    RotatedStep(Num(v), k);
  }

  function Turn4(v: bv32): bv32 {
    (v >> 4) | (v << 28)
  }

  lemma FourTurns(v: bv32)
    ensures Turn(Turn(Turn(Turn(v)))) == Turn4(v)
  {
  }

  lemma Turn4Step(v: bv32, k: nat)
    requires k < 29
    ensures Rotated(Num(Turn4(v)), k) == Rotated(Num(v), k + 4)
  {
    hide Num, Turn, Turn4, Rotated;
    FourTurns(v);
    TurnStep(Turn(Turn(Turn(v))), k);
    TurnStep(Turn(Turn(v)), k + 1);
    TurnStep(Turn(v), k + 2);
    TurnStep(v, k + 3);
  }

  lemma NoTurns(w: nat)
    ensures Rotated(w, 0) == w
  {
  }

  lemma Turns7(v: bv32)
    ensures Turn(Turn(Turn(Turn4(v)))) == (v >> 7) | (v << 25)
  {
  }

  lemma Turns8(v: bv32)
    ensures Turn4(Turn4(v)) == (v >> 8) | (v << 24)
  {
  }

  lemma Turns12(v: bv32)
    ensures Turn4(Turn4(Turn4(v))) == (v >> 12) | (v << 20)
  {
  }

  lemma Turns16(v: bv32)
    ensures Turn4(Turn4(Turn4(Turn4(v)))) == (v >> 16) | (v << 16)
  {
  }

  lemma Rotate7(v: bv32)
    ensures Num((v >> 7) | (v << 25)) == Rotated(Num(v), 7)
  {
    hide Num, Turn, Turn4, Rotated;
    Turns7(v);
    NoTurns(Num(Turn(Turn(Turn(Turn4(v))))));
    TurnStep(Turn(Turn(Turn4(v))), 0);
    TurnStep(Turn(Turn4(v)), 1);
    TurnStep(Turn4(v), 2);
    Turn4Step(v, 3);
  }

  lemma Rotate8(v: bv32)
    ensures Num((v >> 8) | (v << 24)) == Rotated(Num(v), 8)
  {
    hide Num, Turn4, Rotated;
    Turns8(v);
    NoTurns(Num(Turn4(Turn4(v))));
    Turn4Step(Turn4(v), 0);
    Turn4Step(v, 4);
  }

  lemma Rotate12(v: bv32)
    ensures Num((v >> 12) | (v << 20)) == Rotated(Num(v), 12)
  {
    hide Num, Turn4, Rotated;
    Turns12(v);
    NoTurns(Num(Turn4(Turn4(Turn4(v)))));
    Turn4Step(Turn4(Turn4(v)), 0);
    Turn4Step(Turn4(v), 4);
    Turn4Step(v, 8);
  }

  lemma Rotate16(v: bv32)
    ensures Num((v >> 16) | (v << 16)) == Rotated(Num(v), 16)
  {
    hide Num, Turn4, Rotated;
    Turns16(v);
    NoTurns(Num(Turn4(Turn4(Turn4(Turn4(v))))));
    Turn4Step(Turn4(Turn4(Turn4(v))), 0);
    Turn4Step(Turn4(Turn4(v)), 4);
    Turn4Step(Turn4(v), 8);
    Turn4Step(v, 12);
  }

  /** Every word is the value of a machine word. */
  lemma {:induction false} Onto(w: Word) returns (v: bv32)
    ensures Num(v) == w
    decreases w
  {
    hide Num;
    if w == 0 {
      v := 0;
      NumZero();
    } else {
      v := Onto(w - 1);
      IncrementNum(v);
      v := v + 1;
    }
  }
}
