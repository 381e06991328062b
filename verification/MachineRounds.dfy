/** The compression function on machine words, and the answers it is known to give. */
module MachineRounds {
  import opened Bits
  import opened Words
  import opened Tree
  import opened Portable
  import opened Machine

  function AsWord(v: bv32): Word {
    NumBound(v);
    Num(v)
  }

  function Sum3(a: bv32, b: bv32, x: bv32): bv32 {
    a + b + x
  }

  function Sum2(a: bv32, b: bv32): bv32 {
    a + b
  }

  predicate Distance(c: nat) {
    c == 16 || c == 12 || c == 8 || c == 7
  }

  /** Rotation to the right by shifts. */
  function RotateRight(v: bv32, c: nat): bv32
    requires Distance(c)
  {
    if c == 16 then (v >> 16) | (v << 16)
    else if c == 12 then (v >> 12) | (v << 20)
    else if c == 8 then (v >> 8) | (v << 24)
    else (v >> 7) | (v << 25)
  }

  function Turned(d: bv32, a: bv32, c: nat): bv32
    requires Distance(c)
  {
    RotateRight(d ^ a, c)
  }

  lemma Sum2Word(a: bv32, b: bv32)
    ensures AsWord(Sum2(a, b)) == Add(AsWord(a), AsWord(b))
  {
    hide Num;
    SumNum(a, b, a + b);
  }

  lemma Sum3Word(a: bv32, b: bv32, x: bv32)
    ensures AsWord(Sum3(a, b, x)) == Add(Add(AsWord(a), AsWord(b)), AsWord(x))
  {
    hide Num, Add;
    Sum2Word(a, b);
    Sum2Word(a + b, x);
  }

  lemma RotrRotated(w: Word, c: nat)
    requires Distance(c)
    ensures Rotr(w, c) == Rotated(w, c)
  {
    hide Pow2;
    Pow2Values();
    Pow2Step(7 + 1);
    Pow2Add(4, 8);
    Pow2Add(8, 16);
    Pow2Add(4, 16);
    Pow2Step(24 + 1);
  }

  lemma RotateWord(v: bv32, c: nat)
    requires Distance(c)
    ensures AsWord(RotateRight(v, c)) == Rotr(AsWord(v), c)
  {
    hide Num, Rotr, Rotated;
    RotrRotated(AsWord(v), c);
    if c == 16 {
      Rotate16(v);
    } else if c == 12 {
      Rotate12(v);
    } else if c == 8 {
      Rotate8(v);
    } else {
      Rotate7(v);
    }
  }

  lemma TurnedWord(d: bv32, a: bv32, c: nat)
    requires Distance(c)
    ensures AsWord(Turned(d, a, c)) == Rotr(Xor(AsWord(d), AsWord(a)), c)
  {
    hide Num, Rotr, RotateRight, BitXor;
    XorNum(d, a);
    RotateWord(d ^ a, c);
  }

  // ----- the quarter round and the round

  function QuarterOf(q: Quad<bv32>, x: bv32, y: bv32): Quad<bv32> {
    var a := Sum3(q.a, q.b, x);
    var d := Turned(q.d, a, 16);
    var c := Sum2(q.c, d);
    var b := Turned(q.b, c, 12);
    var a' := Sum3(a, b, y);
    var d' := Turned(d, a', 8);
    var c' := Sum2(c, d');
    Quad(a', Turned(b, c', 7), c', d')
  }

  function AsQuad(q: Quad<bv32>): Quad<Word> {
    Quad(AsWord(q.a), AsWord(q.b), AsWord(q.c), AsWord(q.d))
  }

  lemma QuarterRound(q: Quad<bv32>, x: bv32, y: bv32)
    ensures Mix(AsQuad(q), AsWord(x), AsWord(y)) == AsQuad(QuarterOf(q, x, y))
  {
    hide AsWord, Sum2, Sum3, Turned, Add, Xor, Rotr;
    var a := Sum3(q.a, q.b, x);
    var d := Turned(q.d, a, 16);
    var c := Sum2(q.c, d);
    var b := Turned(q.b, c, 12);
    Sum3Word(q.a, q.b, x);
    TurnedWord(q.d, a, 16);
    Sum2Word(q.c, d);
    TurnedWord(q.b, c, 12);
    var a' := Sum3(a, b, y);
    var d' := Turned(d, a', 8);
    var c' := Sum2(c, d');
    Sum3Word(a, b, y);
    TurnedWord(d, a', 8);
    Sum2Word(c, d');
    TurnedWord(b, c', 7);
  }

  /** A round: the quarter round on the four columns, then on the four diagonals. The sixteen message
      words come in four groups of four. */
  function Round(v: Matrix<bv32>, m: Matrix<bv32>): Matrix<bv32> {
    var p, q := QuarterOf(v.p, m.p.a, m.p.b), QuarterOf(v.q, m.p.c, m.p.d);
    var r, t := QuarterOf(v.r, m.q.a, m.q.b), QuarterOf(v.t, m.q.c, m.q.d);
    var e := QuarterOf(Quad(p.a, q.b, r.c, t.d), m.r.a, m.r.b);
    var f := QuarterOf(Quad(q.a, r.b, t.c, p.d), m.r.c, m.r.d);
    var g := QuarterOf(Quad(r.a, t.b, p.c, q.d), m.t.a, m.t.b);
    var h := QuarterOf(Quad(t.a, p.b, q.c, r.d), m.t.c, m.t.d);
    Matrix(Quad(e.a, h.b, g.c, f.d), Quad(f.a, e.b, h.c, g.d), Quad(g.a, f.b, e.c, h.d), Quad(h.a, g.b, f.c, e.d))
  }

  function AsMatrix(v: Matrix<bv32>): Matrix<Word> {
    Matrix(AsQuad(v.p), AsQuad(v.q), AsQuad(v.r), AsQuad(v.t))
  }

  function AsWords(m: Matrix<bv32>): Words16 {
    [AsWord(m.p.a), AsWord(m.p.b), AsWord(m.p.c), AsWord(m.p.d),
     AsWord(m.q.a), AsWord(m.q.b), AsWord(m.q.c), AsWord(m.q.d),
     AsWord(m.r.a), AsWord(m.r.b), AsWord(m.r.c), AsWord(m.r.d),
     AsWord(m.t.a), AsWord(m.t.b), AsWord(m.t.c), AsWord(m.t.d)]
  }

  lemma OneRound(v: Matrix<bv32>, m: Matrix<bv32>)
    ensures RoundOf(AsMatrix(v), AsWords(m)) == AsMatrix(Round(v, m))
  {
    hide AsWord, QuarterOf, Mix;
    var p, q := QuarterOf(v.p, m.p.a, m.p.b), QuarterOf(v.q, m.p.c, m.p.d);
    var r, t := QuarterOf(v.r, m.q.a, m.q.b), QuarterOf(v.t, m.q.c, m.q.d);
    QuarterRound(v.p, m.p.a, m.p.b);
    QuarterRound(v.q, m.p.c, m.p.d);
    QuarterRound(v.r, m.q.a, m.q.b);
    QuarterRound(v.t, m.q.c, m.q.d);
    QuarterRound(Quad(p.a, q.b, r.c, t.d), m.r.a, m.r.b);
    QuarterRound(Quad(q.a, r.b, t.c, p.d), m.r.c, m.r.d);
    QuarterRound(Quad(r.a, t.b, p.c, q.d), m.t.a, m.t.b);
    QuarterRound(Quad(t.a, p.b, q.c, r.d), m.t.c, m.t.d);
  }

  function Shuffle(m: Matrix<bv32>): Matrix<bv32> {
    Matrix(Quad(m.p.c, m.q.c, m.p.d, m.r.c), Quad(m.q.d, m.p.a, m.q.a, m.t.b),
           Quad(m.p.b, m.r.d, m.t.a, m.q.b), Quad(m.r.b, m.t.c, m.t.d, m.r.a))
  }

  function Rounds(v: Matrix<bv32>, m: Matrix<bv32>, n: nat): Matrix<bv32>
    decreases n
  {
    if n == 0 then v else Rounds(Round(v, m), Shuffle(m), n - 1)
  }

  lemma ShuffleWords(m: Matrix<bv32>)
    ensures Permute(AsWords(m)) == AsWords(Shuffle(m))
  {
    hide AsWord;
  }

  lemma {:induction false} AllRounds(v: Matrix<bv32>, m: Matrix<bv32>, n: nat)
    ensures ReferenceRounds(AsMatrix(v), AsWords(m), n) == AsMatrix(Rounds(v, m, n))
    decreases n
  {
    hide AsWords, AsMatrix, Round, RoundOf, Shuffle, Permute, PermuteTimes;
    if n > 0 {
      OneRound(v, m);
      ShuffleWords(m);
      AllRounds(Round(v, m), Shuffle(m), n - 1);
      RoundsFromFront(AsMatrix(v), AsWords(m), n - 1);
    }
  }

  // The reference form with the first round taken off.
  lemma {:induction false} RoundsFromFront(s: Matrix<Word>, m: Words16, n: nat)
    ensures ReferenceRounds(s, m, n + 1) == ReferenceRounds(RoundOf(s, m), Permute(m), n)
    decreases n
  {
    hide RoundOf, Permute;
    if n == 0 {
      assert PermuteTimes(m, 0) == m;
      assert ReferenceRounds(s, m, 0) == s;
    } else {
      RoundsFromFront(s, m, n - 1);
      PermuteFromFront(m, n - 1);
    }
  }

  lemma {:induction false} PermuteFromFront(m: Words16, n: nat)
    ensures PermuteTimes(m, n + 1) == PermuteTimes(Permute(m), n)
    decreases n
  {
    hide Permute;
    if n == 0 {
      assert PermuteTimes(m, 0) == m;
    } else {
      PermuteFromFront(m, n - 1);
    }
  }

  // ----- the whole compression

  type Chain = c: seq<bv32> | |c| == 8 witness seq(8, _ => 0)

  /** The state before the first round: chaining value, constants, counter, block length, flags. */
  function Start(cv: Chain, low: bv32, high: bv32, len: bv32, flags: bv32): Matrix<bv32> {
    Matrix(Quad(cv[0], cv[4], 0x6A09E667, low), Quad(cv[1], cv[5], 0xBB67AE85, high),
           Quad(cv[2], cv[6], 0x3C6EF372, len), Quad(cv[3], cv[7], 0xA54FF53A, flags))
  }

  /** The new chaining value, and the second half of the extended output. */
  function Finish(v: Matrix<bv32>): Chain {
    [Exclusive(v.p.a, v.p.c), Exclusive(v.q.a, v.q.c), Exclusive(v.r.a, v.r.c), Exclusive(v.t.a, v.t.c),
     Exclusive(v.p.b, v.p.d), Exclusive(v.q.b, v.q.d), Exclusive(v.r.b, v.r.d), Exclusive(v.t.b, v.t.d)]
  }

  function Extend(v: Matrix<bv32>, cv: Chain): Chain {
    [Exclusive(v.p.c, cv[0]), Exclusive(v.q.c, cv[1]), Exclusive(v.r.c, cv[2]), Exclusive(v.t.c, cv[3]),
     Exclusive(v.p.d, cv[4]), Exclusive(v.q.d, cv[5]), Exclusive(v.r.d, cv[6]), Exclusive(v.t.d, cv[7])]
  }

  function AsChain(cv: Chain): Words8 {
    seq(8, i requires 0 <= i < 8 => AsWord(cv[i]))
  }

  lemma Constants()
    ensures AsWord(0x6A09E667) == IV[0] && AsWord(0xBB67AE85) == IV[1]
    ensures AsWord(0x3C6EF372) == IV[2] && AsWord(0xA54FF53A) == IV[3]
  {
    hide Num;
    LiteralNum(0x6A09E667);
    LiteralNum(0xBB67AE85);
    LiteralNum(0x3C6EF372);
    LiteralNum(0xA54FF53A);
  }

  lemma CounterWords(low: Word, high: Word)
    ensures CounterLow(low + 0x1_0000_0000 * high) == low
    ensures CounterHigh(low + 0x1_0000_0000 * high) == high
  {
  }

  lemma StartState(cv: Chain, low: bv32, high: bv32, len: bv32, flags: bv32)
    requires AsWord(len) < 0x100 && AsWord(flags) < 0x100
    ensures AsMatrix(Start(cv, low, high, len, flags))
         == InitialState(AsChain(cv), AsWord(low) + 0x1_0000_0000 * AsWord(high), AsWord(len), AsWord(flags))
  {
    hide AsWord, CounterLow, CounterHigh;
    CounterWords(AsWord(low), AsWord(high));
    Constants();
  }

  lemma XorWord(a: bv32, b: bv32)
    ensures AsWord(Exclusive(a, b)) == Xor(AsWord(a), AsWord(b))
  {
    hide Num, BitXor, Exclusive;
    XorNum(a, b);
  }

  lemma FinishWords(v: Matrix<bv32>)
    ensures AsChain(Finish(v)) == Fold8(AsMatrix(v))
  {
    hide AsWord, Xor, Exclusive;
    XorWord(v.p.a, v.p.c);
    XorWord(v.q.a, v.q.c);
    XorWord(v.r.a, v.r.c);
    XorWord(v.t.a, v.t.c);
    XorWord(v.p.b, v.p.d);
    XorWord(v.q.b, v.q.d);
    XorWord(v.r.b, v.r.d);
    XorWord(v.t.b, v.t.d);
  }

  lemma ExtendWords(v: Matrix<bv32>, cv: Chain)
    ensures AsChain(Extend(v, cv)) == Feed8(AsMatrix(v), AsChain(cv))
  {
    hide AsWord, Xor, Exclusive;
    XorWord(v.p.c, cv[0]);
    XorWord(v.q.c, cv[1]);
    XorWord(v.r.c, cv[2]);
    XorWord(v.t.c, cv[3]);
    XorWord(v.p.d, cv[4]);
    XorWord(v.q.d, cv[5]);
    XorWord(v.r.d, cv[6]);
    XorWord(v.t.d, cv[7]);
  }

  /** The compression function of the model is the machine's, for every chaining value, block,
      counter, block length and flags. */
  lemma Compression(cv: Chain, block: Block, m: Matrix<bv32>, low: bv32, high: bv32, len: bv32, flags: bv32)
    requires BlockWords(block) == AsWords(m)
    requires AsWord(len) < 0x100 && AsWord(flags) < 0x100
    ensures var v := Rounds(Start(cv, low, high, len, flags), m, 7);
            var c, n, f := AsWord(low) + 0x1_0000_0000 * AsWord(high), AsWord(len), AsWord(flags);
            && CompressWords(AsChain(cv), block, n, c, f) == AsChain(Finish(v))
            && XofBytes(AsChain(cv), block, n, c, f) == StoreWords(AsChain(Finish(v)) + AsChain(Extend(v, cv)))
  {
    hide *;
    FinalRounds(cv, block, m, low, high, len, flags);
    var v := Rounds(Start(cv, low, high, len, flags), m, 7);
    FinishWords(v);
    ExtendWords(v, cv);
    OfFinalState(AsChain(cv), block, AsWord(len), AsWord(low) + 0x1_0000_0000 * AsWord(high), AsWord(flags));
  }

  lemma FinalRounds(cv: Chain, block: Block, m: Matrix<bv32>, low: bv32, high: bv32, len: bv32, flags: bv32)
    requires BlockWords(block) == AsWords(m)
    requires AsWord(len) < 0x100 && AsWord(flags) < 0x100
    ensures FinalState(AsChain(cv), block, AsWord(len), AsWord(low) + 0x1_0000_0000 * AsWord(high), AsWord(flags))
            == AsMatrix(Rounds(Start(cv, low, high, len, flags), m, 7))
  {
    hide AsWord, AsChain, AsWords, AsMatrix, BlockWords, Start, Rounds, InitialState, ReferenceRounds;
    StartState(cv, low, high, len, flags);
    AllRounds(Start(cv, low, high, len, flags), m, 7);
  }

  lemma OfFinalState(cv: Words8, block: Block, len: nat, counter: nat, flags: nat)
    ensures var s := FinalState(cv, block, len, counter, flags);
            && CompressWords(cv, block, len, counter, flags) == Fold8(s)
            && XofBytes(cv, block, len, counter, flags) == StoreWords(Fold8(s) + Feed8(s, cv))
  {
    hide FinalState, Fold8, Feed8, StoreWords;
  }

  // ----- which covers all inputs

  lemma OntoWord(w: Word) returns (v: bv32)
    ensures AsWord(v) == w
  {
    v := Onto(w);
  }

  lemma OntoQuad(w: seq<Word>) returns (q: Quad<bv32>)
    requires |w| == 4
    ensures AsWord(q.a) == w[0] && AsWord(q.b) == w[1] && AsWord(q.c) == w[2] && AsWord(q.d) == w[3]
  {
    hide AsWord;
    var a := OntoWord(w[0]);
    var b := OntoWord(w[1]);
    var c := OntoWord(w[2]);
    var d := OntoWord(w[3]);
    q := Quad(a, b, c, d);
  }

  lemma OntoMessage(w: Words16) returns (m: Matrix<bv32>)
    ensures AsWords(m) == w
  {
    hide AsWord;
    var p := OntoQuad(w[0..4]);
    var q := OntoQuad(w[4..8]);
    var r := OntoQuad(w[8..12]);
    var t := OntoQuad(w[12..16]);
    m := Matrix(p, q, r, t);
  }

  lemma OntoChain(w: Words8) returns (cv: Chain)
    ensures AsChain(cv) == w
  {
    hide AsWord;
    var p := OntoQuad(w[0..4]);
    var q := OntoQuad(w[4..8]);
    cv := [p.a, p.b, p.c, p.d, q.a, q.b, q.c, q.d];
  }

  /** Every compression of the model is one of the machine. */
  lemma EveryCompression(cv: Words8, block: Block, len: nat, counter: nat, flags: nat)
    returns (chain: Chain, m: Matrix<bv32>, low: bv32, high: bv32, n: bv32, f: bv32)
    requires len < 0x100 && flags < 0x100 && counter < TWO_64
    ensures AsChain(chain) == cv && AsWords(m) == BlockWords(block) && AsWord(n) == len && AsWord(f) == flags
    ensures counter == AsWord(low) + 0x1_0000_0000 * AsWord(high)
    ensures var v := Rounds(Start(chain, low, high, n, f), m, 7);
            && CompressWords(cv, block, len, counter, flags) == AsChain(Finish(v))
            && XofBytes(cv, block, len, counter, flags) == StoreWords(AsChain(Finish(v)) + AsChain(Extend(v, chain)))
  {
    hide AsWord, AsChain, AsWords, BlockWords, CompressWords, XofBytes, Rounds, Start, Finish, Extend, StoreWords;
    chain := OntoChain(cv);
    m := OntoMessage(BlockWords(block));
    low := OntoWord(counter % 0x1_0000_0000);
    high := OntoWord(counter / 0x1_0000_0000);
    n := OntoWord(len);
    f := OntoWord(flags);
    Compression(chain, block, m, low, high, n, f);
  }
}
