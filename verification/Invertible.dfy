/** The rounds of the compression function are a permutation of the state for every message, so that
    the extended output determines the state the rounds began with. */
module Invertible {
  import opened Bits
  import opened Words
  import opened Tree
  import opened Portable

  // ----- the word operations undone

  function Sub(a: Word, b: Word): Word {
    (a + 0x1_0000_0000 - b) % 0x1_0000_0000
  }

  function Rotl(w: Word, c: nat): Word
    requires c == 16 || c == 12 || c == 8 || c == 7
  {
    if c == 16 then w % 0x1_0000 * 0x1_0000 + w / 0x1_0000
    else if c == 12 then w % 0x10_0000 * 0x1000 + w / 0x10_0000
    else if c == 8 then w % 0x100_0000 * 0x100 + w / 0x100_0000
    else w % 0x200_0000 * 0x80 + w / 0x200_0000
  }

  lemma SubAdd(a: Word, b: Word)
    ensures Sub(Add(a, b), b) == a && Add(Sub(a, b), b) == a
  {
    assert Add(a, b) == if a + b < 0x1_0000_0000 then a + b else a + b - 0x1_0000_0000;
    assert Sub(a, b) == if b <= a then a - b else a + 0x1_0000_0000 - b;
  }

  /** A quotient and a remainder that change places. */
  lemma Swapped(w: Word, p: nat, q: nat)
    requires p > 0 && q > 0 && p * q == 0x1_0000_0000
    ensures var r := w / p + w % p * q; r % q == w / p && r / q == w % p
  {
    assert w / p < q by { QuotientBound(w, p, q); }
    DivModUnique(w / p + w % p * q, q, w % p, w / p);
  }

  lemma QuotientBound(w: nat, p: nat, q: nat)
    requires p > 0 && w < p * q
    ensures w / p < q
  {
    if w / p >= q {
      MulAtMost(q, w / p, p);
    }
  }

  lemma MulAtMost(a: nat, b: nat, p: nat)
    requires a <= b
    ensures a * p <= b * p
  {
  }

  function TurnBy(w: nat, p: nat, q: nat): int
    requires p > 0
  {
    w / p + w % p * q
  }

  lemma TurnBack(w: Word, p: nat, q: nat)
    requires p > 0 && q > 0 && p * q == 0x1_0000_0000
    ensures TurnBy(w, p, q) >= 0 && TurnBy(TurnBy(w, p, q), q, p) == w
  {
    Swapped(w, p, q);
  }

  lemma AsTurns(w: Word, c: nat)
    requires c == 16 || c == 12 || c == 8 || c == 7
    ensures Rotr(w, c) == if c == 16 then TurnBy(w, 0x1_0000, 0x1_0000)
                          else if c == 12 then TurnBy(w, 0x1000, 0x10_0000)
                          else if c == 8 then TurnBy(w, 0x100, 0x100_0000) else TurnBy(w, 0x80, 0x200_0000)
    ensures Rotl(w, c) == if c == 16 then TurnBy(w, 0x1_0000, 0x1_0000)
                          else if c == 12 then TurnBy(w, 0x10_0000, 0x1000)
                          else if c == 8 then TurnBy(w, 0x100_0000, 0x100) else TurnBy(w, 0x200_0000, 0x80)
  {
  }

  lemma RotlRotr(w: Word, c: nat)
    requires c == 16 || c == 12 || c == 8 || c == 7
    ensures Rotl(Rotr(w, c), c) == w && Rotr(Rotl(w, c), c) == w
  {
    hide Rotr, Rotl, TurnBy;
    AsTurns(w, c);
    AsTurns(Rotr(w, c), c);
    AsTurns(Rotl(w, c), c);
    if c == 16 {
      TurnBack(w, 0x1_0000, 0x1_0000);
    } else if c == 12 {
      TurnBack(w, 0x1000, 0x10_0000);
      TurnBack(w, 0x10_0000, 0x1000);
    } else if c == 8 {
      TurnBack(w, 0x100, 0x100_0000);
      TurnBack(w, 0x100_0000, 0x100);
    } else {
      TurnBack(w, 0x80, 0x200_0000);
      TurnBack(w, 0x200_0000, 0x80);
    }
  }

  lemma XorTwice(a: Word, b: Word)
    ensures Xor(Xor(a, b), b) == a
  {
    hide BitXor;
    XorCancel(a, b);
  }

  // ----- the quarter round

  function UnmixHalf(q: Quad<Word>, x: Word, r: nat, t: nat): Quad<Word>
    requires (r == 16 && t == 12) || (r == 8 && t == 7)
  {
    hide Sub, Xor, Rotl;
    var b := Xor(Rotl(q.b, t), q.c);
    Quad(Sub(Sub(q.a, x), b), b, Sub(q.c, q.d), Xor(Rotl(q.d, r), q.a))
  }

  function Unmix(q: Quad<Word>, x: Word, y: Word): Quad<Word> {
    UnmixHalf(UnmixHalf(q, y, 8, 7), x, 16, 12)
  }

  lemma UnmixMixHalf(q: Quad<Word>, x: Word, r: nat, t: nat)
    requires (r == 16 && t == 12) || (r == 8 && t == 7)
    ensures UnmixHalf(MixHalf(q, x, r, t), x, r, t) == q
  {
    hide Add, Sub, Xor, Rotr, Rotl;
    var a := Add(Add(q.a, q.b), x);
    var d := Rotr(Xor(q.d, a), r);
    var c := Add(q.c, d);
    RotlRotr(Xor(q.b, c), t);
    XorTwice(q.b, c);
    SubAdd(q.c, d);
    RotlRotr(Xor(q.d, a), r);
    XorTwice(q.d, a);
    SubAdd(Add(q.a, q.b), x);
    SubAdd(q.a, q.b);
  }

  lemma MixUnmixHalf(q: Quad<Word>, x: Word, r: nat, t: nat)
    requires (r == 16 && t == 12) || (r == 8 && t == 7)
    ensures MixHalf(UnmixHalf(q, x, r, t), x, r, t) == q
  {
    hide Add, Sub, Xor, Rotr, Rotl;
    var b := Xor(Rotl(q.b, t), q.c);
    SubAdd(Sub(q.a, x), b);
    SubAdd(q.a, x);
    XorTwice(Rotl(q.d, r), q.a);
    RotlRotr(q.d, r);
    SubAdd(q.c, q.d);
    XorTwice(Rotl(q.b, t), q.c);
    RotlRotr(q.b, t);
  }

  /** The quarter round is a permutation of four words, for all message words. */
  lemma UnmixMix(q: Quad<Word>, x: Word, y: Word)
    ensures Unmix(Mix(q, x, y), x, y) == q && Mix(Unmix(q, x, y), x, y) == q
  {
    hide MixHalf, UnmixHalf;
    UnmixMixHalf(MixHalf(q, x, 16, 12), y, 8, 7);
    UnmixMixHalf(q, x, 16, 12);
    MixUnmixHalf(UnmixHalf(q, y, 8, 7), x, 16, 12);
    MixUnmixHalf(q, y, 8, 7);
  }

  // ----- the rounds

  function UnmixColumns(m: Matrix<Word>, w: Words16, i: nat): Matrix<Word>
    requires i <= 8
  {
    hide Unmix;
    Matrix(Unmix(m.p, w[i], w[i + 1]), Unmix(m.q, w[i + 2], w[i + 3]), Unmix(m.r, w[i + 4], w[i + 5]),
           Unmix(m.t, w[i + 6], w[i + 7]))
  }

  lemma UnmixMixColumns(m: Matrix<Word>, w: Words16, i: nat)
    requires i <= 8
    ensures UnmixColumns(MixColumns(m, w, i), w, i) == m && MixColumns(UnmixColumns(m, w, i), w, i) == m
  {
    hide Mix, Unmix;
    UnmixMix(m.p, w[i], w[i + 1]);
    UnmixMix(m.q, w[i + 2], w[i + 3]);
    UnmixMix(m.r, w[i + 4], w[i + 5]);
    UnmixMix(m.t, w[i + 6], w[i + 7]);
  }

  function Unround(m: Matrix<Word>, w: Words16): Matrix<Word> {
    hide UnmixColumns;
    UnmixColumns(Undiagonals(UnmixColumns(Diagonals(m), w, 8)), w, 0)
  }

  lemma UndiagonalsDiagonals<T>(m: Matrix<T>)
    ensures Undiagonals(Diagonals(m)) == m && Diagonals(Undiagonals(m)) == m
  {
  }

  lemma UnroundRound(m: Matrix<Word>, w: Words16)
    ensures Unround(RoundOf(m, w), w) == m && RoundOf(Unround(m, w), w) == m
  {
    hide MixColumns, UnmixColumns, Diagonals, Undiagonals;
    var c := MixColumns(m, w, 0);
    UndiagonalsDiagonals(MixColumns(Diagonals(c), w, 8));
    UnmixMixColumns(Diagonals(c), w, 8);
    UndiagonalsDiagonals(c);
    UnmixMixColumns(m, w, 0);
    var d := UnmixColumns(Diagonals(m), w, 8);
    UnmixMixColumns(Undiagonals(d), w, 0);
    UndiagonalsDiagonals(d);
    UnmixMixColumns(Diagonals(m), w, 8);
    UndiagonalsDiagonals(m);
  }

  /** The rounds taken back, the last one first. */
  function Unrounds(s: Matrix<Word>, m: Words16, n: nat): Matrix<Word>
    decreases n
  {
    hide Unround, PermuteTimes;
    if n == 0 then s else Unrounds(Unround(s, PermuteTimes(m, n - 1)), m, n - 1)
  }

  /** Any number of rounds is a permutation of the states, for every message. */
  lemma {:induction false} UnroundsRounds(s: Matrix<Word>, m: Words16, n: nat)
    ensures Unrounds(ReferenceRounds(s, m, n), m, n) == s
    ensures ReferenceRounds(Unrounds(s, m, n), m, n) == s
    decreases n
  {
    hide RoundOf, Unround, PermuteTimes;
    if n > 0 {
      var w := PermuteTimes(m, n - 1);
      UnroundsRounds(s, m, n - 1);
      UnroundRound(ReferenceRounds(s, m, n - 1), w);
      UnroundsRounds(Unround(s, w), m, n - 1);
      UnroundRound(s, w);
    }
  }

  // ----- what the extended output determines

  /** One word of the final state, of its upper and its lower half, from the two halves of the output. */
  lemma HalvesDetermine(upper: Word, lower: Word, upper': Word, lower': Word, cv: Word)
    requires Xor(upper, lower) == Xor(upper', lower') && Xor(lower, cv) == Xor(lower', cv)
    ensures upper == upper' && lower == lower'
  {
    hide Xor;
    XorTwice(lower, cv);
    XorTwice(lower', cv);
    XorTwice(upper, lower);
    XorTwice(upper', lower');
  }

  lemma OutputDeterminesState(s: Matrix<Word>, s': Matrix<Word>, cv: Words8)
    requires Fold8(s) == Fold8(s') && Feed8(s, cv) == Feed8(s', cv)
    ensures s == s'
  {
    hide Xor;
    HalvesDetermine(s.p.a, s.p.c, s'.p.a, s'.p.c, cv[0]);
    HalvesDetermine(s.q.a, s.q.c, s'.q.a, s'.q.c, cv[1]);
    HalvesDetermine(s.r.a, s.r.c, s'.r.a, s'.r.c, cv[2]);
    HalvesDetermine(s.t.a, s.t.c, s'.t.a, s'.t.c, cv[3]);
    HalvesDetermine(s.p.b, s.p.d, s'.p.b, s'.p.d, cv[4]);
    HalvesDetermine(s.q.b, s.q.d, s'.q.b, s'.q.d, cv[5]);
    HalvesDetermine(s.r.b, s.r.d, s'.r.b, s'.r.d, cv[6]);
    HalvesDetermine(s.t.b, s.t.d, s'.t.b, s'.t.d, cv[7]);
  }

  lemma StoredWordsDetermine(a: seq<Word>, b: seq<Word>)
    requires StoreWords(a) == StoreWords(b)
    ensures a == b
  {
    LoadStoreWords(a);
    LoadStoreWords(b);
  }

  /** For a given chaining value and block, different counters, block lengths or flags give different
      outputs. */
  lemma ExtendedOutputIsInjective(cv: Words8, block: Block, n: nat, c: nat, f: nat, n': nat, c': nat, f': nat)
    requires c < TWO_64 && c' < TWO_64 && n < 0x100 && n' < 0x100 && f < 0x100 && f' < 0x100
    requires XofBytes(cv, block, n, c, f) == XofBytes(cv, block, n', c', f')
    ensures n == n' && c == c' && f == f'
  {
    hide StoreWords, Fold8, Feed8, ReferenceRounds, InitialState;
    var s, s' := FinalState(cv, block, n, c, f), FinalState(cv, block, n', c', f');
    SameHalves(s, s', cv);
    OutputDeterminesState(s, s', cv);
    var w := BlockWords(block);
    UnroundsRounds(InitialState(cv, c, n, f), w, 7);
    UnroundsRounds(InitialState(cv, c', n', f'), w, 7);
    StartDetermines(cv, n, c, f, n', c', f');
  }

  lemma SameHalves(s: Matrix<Word>, s': Matrix<Word>, cv: Words8)
    requires StoreWords(Fold8(s) + Feed8(s, cv)) == StoreWords(Fold8(s') + Feed8(s', cv))
    ensures Fold8(s) == Fold8(s') && Feed8(s, cv) == Feed8(s', cv)
  {
    hide StoreWords, Fold8, Feed8;
    StoredWordsDetermine(Fold8(s) + Feed8(s, cv), Fold8(s') + Feed8(s', cv));
    assert Fold8(s) == (Fold8(s) + Feed8(s, cv))[..8] && Fold8(s') == (Fold8(s') + Feed8(s', cv))[..8];
    assert Feed8(s, cv) == (Fold8(s) + Feed8(s, cv))[8..] && Feed8(s', cv) == (Fold8(s') + Feed8(s', cv))[8..];
  }

  lemma StartDetermines(cv: Words8, n: nat, c: nat, f: nat, n': nat, c': nat, f': nat)
    requires c < TWO_64 && c' < TWO_64 && n < 0x100 && n' < 0x100 && f < 0x100 && f' < 0x100
    requires InitialState(cv, c, n, f) == InitialState(cv, c', n', f')
    ensures n == n' && c == c' && f == f'
  {
    assert CounterLow(c) == CounterLow(c') && CounterHigh(c) == CounterHigh(c');
    CounterDetermined(c);
    CounterDetermined(c');
  }

  lemma CounterDetermined(c: nat)
    requires c < TWO_64
    ensures c == CounterLow(c) + 0x1_0000_0000 * CounterHigh(c)
  {
    assert c / 0x1_0000_0000 < 0x1_0000_0000;
  }

  lemma OutputFits(m: Mode, message: seq<Byte>)
    requires m.flags < 0x100
    ensures var o := TreeOutput(m, message, 0); o.blockLen <= 64 && BitOr(o.flags, ROOT) < 0x100
  {
    hide BitOr, ChainBlocks, TreeCV;
    Pow2Values();
    OrBound(m.flags, CHUNK_START, 8);
    OrBound(m.flags, CHUNK_END, 8);
    OrBound(BitOr(m.flags, CHUNK_START), CHUNK_END, 8);
    OrBound(m.flags, PARENT, 8);
    OrBound(TreeOutput(m, message, 0).flags, ROOT, 8);
  }

  /** The blocks of the extended output of a message are pairwise different. */
  lemma OutputBlocksDiffer(key: Words8, flags: nat, message: seq<Byte>, i: nat, j: nat)
    requires flags < 0x100 && i < j < TWO_64
    ensures Hash(PortableMode(key, flags), message, 64 * i, 64) != Hash(PortableMode(key, flags), message, 64 * j, 64)
  {
    hide TreeOutput, XofBytes, CompressWords, BitOr;
    var m := PortableMode(key, flags);
    var o := TreeOutput(m, message, 0);
    OutputFits(m, message);
    WholeBlock(m, message, i);
    WholeBlock(m, message, j);
    if RootBlock(m, o, i) == RootBlock(m, o, j) {
      var f := BitOr(o.flags, ROOT);
      ExtendedOutputIsInjective(o.inputCV, o.block, o.blockLen, i, f, o.blockLen, j, f);
    }
  }
}
