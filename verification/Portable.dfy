/** The portable compression function (blake3_portable.c), against the reference form of section
    2.2 of the BLAKE3 paper, which permutes the message between rounds instead of using a table. */
module Portable {
  import opened Bits
  import opened Words
  import opened Tree

  type Words16 = w: seq<Word> | |w| == 16 witness seq(16, _ => 0)

  const IV: Words8 := [0x6A09E667, 0xBB67AE85, 0x3C6EF372, 0xA54FF53A, 0x510E527F, 0x9B05688C, 0x1F83D9AB, 0x5BE0CD19]

  /** The square root of `n` has this whole part, and a fraction that begins with these 32 bits. */
  predicate ScaledRoot(whole: nat, fraction: nat, n: nat) {
    var r := whole * 0x1_0000_0000 + fraction;
    r * r <= n * 0x1_0000_0000_0000_0000 < (r + 1) * (r + 1)
  }

  /** The constants are the fractional parts of the square roots of the first eight primes. */
  lemma ConstantsAreRoots()
    ensures ScaledRoot(1, IV[0], 2) && ScaledRoot(1, IV[1], 3)
    ensures ScaledRoot(2, IV[2], 5) && ScaledRoot(2, IV[3], 7)
    ensures ScaledRoot(3, IV[4], 11) && ScaledRoot(3, IV[5], 13)
    ensures ScaledRoot(4, IV[6], 17) && ScaledRoot(4, IV[7], 19)
  {
  }

  type Row = s: seq<nat> | |s| == 16 && forall i | 0 <= i < 16 :: s[i] < 16 witness seq(16, _ => 0)

  // The rows of MSG_SCHEDULE.
  const ROW_0: Row := [0, 1, 2, 3, 4, 5, 6, 7, 8, 9, 10, 11, 12, 13, 14, 15]
  const ROW_1: Row := [2, 6, 3, 10, 7, 0, 4, 13, 1, 11, 12, 5, 9, 14, 15, 8]
  const ROW_2: Row := [3, 4, 10, 12, 13, 2, 7, 14, 6, 5, 9, 0, 11, 15, 8, 1]
  const ROW_3: Row := [10, 7, 12, 9, 14, 3, 13, 15, 4, 0, 11, 2, 5, 8, 1, 6]
  const ROW_4: Row := [12, 13, 9, 11, 15, 10, 14, 8, 7, 2, 5, 3, 0, 1, 6, 4]
  const ROW_5: Row := [9, 14, 11, 5, 8, 12, 15, 1, 13, 3, 0, 10, 2, 6, 4, 7]
  const ROW_6: Row := [11, 15, 5, 0, 1, 9, 8, 6, 14, 10, 2, 12, 3, 4, 7, 13]

  /** MSG_SCHEDULE */
  function Schedule(round: nat): Row
    requires round < 7
  {
    if round == 0 then ROW_0
    else if round == 1 then ROW_1
    else if round == 2 then ROW_2
    else if round == 3 then ROW_3
    else if round == 4 then ROW_4
    else if round == 5 then ROW_5
    else ROW_6
  }

  /** Addition modulo 2^32. */
  function Add(a: Word, b: Word): Word {
    (a + b) % 0x1_0000_0000
  }

  function Xor(a: Word, b: Word): Word {
    Pow2Values();
    XorBound(a, b, 32);
    BitXor(a, b)
  }

  /** rotr32, for the four distances that are used: the bits shifted out below enter above. */
  function Rotr(w: Word, c: nat): Word
    requires c == 16 || c == 12 || c == 8 || c == 7
  {
    if c == 16 then w / 0x1_0000 + w % 0x1_0000 * 0x1_0000
    else if c == 12 then w / 0x1000 + w % 0x1000 * 0x10_0000
    else if c == 8 then w / 0x100 + w % 0x100 * 0x100_0000
    else w / 0x80 + w % 0x80 * 0x200_0000
  }

  /** One column, or one diagonal, of the state. */
  datatype Quad<T> = Quad(a: T, b: T, c: T, d: T)

  /** The state as a four by four matrix, column by column: word `4 * i + j` is row `i` of column `j`. */
  datatype Matrix<T> = Matrix(p: Quad<T>, q: Quad<T>, r: Quad<T>, t: Quad<T>)

  /** The quarter round on four words. */
  function Mix(q: Quad<Word>, x: Word, y: Word): Quad<Word> {
    MixHalf(MixHalf(q, x, 16, 12), y, 8, 7)
  }

  function MixHalf(q: Quad<Word>, x: Word, r: nat, t: nat): Quad<Word>
    requires (r == 16 && t == 12) || (r == 8 && t == 7)
  {
    hide Add, Xor, Rotr;
    var a := Add(Add(q.a, q.b), x);
    var d := Rotr(Xor(q.d, a), r);
    var c := Add(q.c, d);
    Quad(a, Rotr(Xor(q.b, c), t), c, d)
  }

  /** The diagonals of the matrix, as columns of another, and back. */
  function Diagonals<T>(m: Matrix<T>): Matrix<T> {
    Matrix(Quad(m.p.a, m.q.b, m.r.c, m.t.d), Quad(m.q.a, m.r.b, m.t.c, m.p.d),
           Quad(m.r.a, m.t.b, m.p.c, m.q.d), Quad(m.t.a, m.p.b, m.q.c, m.r.d))
  }

  function Undiagonals<T>(m: Matrix<T>): Matrix<T> {
    Matrix(Quad(m.p.a, m.t.b, m.r.c, m.q.d), Quad(m.q.a, m.p.b, m.t.c, m.r.d),
           Quad(m.r.a, m.q.b, m.p.c, m.t.d), Quad(m.t.a, m.r.b, m.q.c, m.p.d))
  }

  /** The quarter round on all four columns, with eight message words from `i` on. */
  function MixColumns(m: Matrix<Word>, w: Words16, i: nat): Matrix<Word>
    requires i <= 8
  {
    hide Mix;
    Matrix(Mix(m.p, w[i], w[i + 1]), Mix(m.q, w[i + 2], w[i + 3]), Mix(m.r, w[i + 4], w[i + 5]),
           Mix(m.t, w[i + 6], w[i + 7]))
  }

  /** One round, with the message words in the order they are given: columns, then diagonals. */
  function RoundOf(m: Matrix<Word>, w: Words16): Matrix<Word> {
    hide MixColumns;
    Undiagonals(MixColumns(Diagonals(MixColumns(m, w, 0)), w, 8))
  }

  function Select<T>(m: seq<T>, row: Row): (r: seq<T>)
    requires |m| == 16
    ensures |r| == 16
  {
    seq(16, i requires 0 <= i < 16 => m[row[i]])
  }

  // ----- the reference form

  /** The message permutation applied after every round. */
  function Permute(m: Words16): Words16 {
    [m[2], m[6], m[3], m[10], m[7], m[0], m[4], m[13], m[1], m[11], m[12], m[5], m[9], m[14], m[15], m[8]]
  }

  function PermuteTimes(m: Words16, n: nat): Words16 {
    if n == 0 then m else Permute(PermuteTimes(m, n - 1))
  }

  /** The first `n` rounds of the reference form. */
  function ReferenceRounds(s: Matrix<Word>, m: Words16, n: nat): Matrix<Word> {
    hide RoundOf, PermuteTimes;
    if n == 0 then s else RoundOf(ReferenceRounds(s, m, n - 1), PermuteTimes(m, n - 1))
  }

  function InitialState(cv: Words8, counter: nat, blockLen: nat, flags: nat): Matrix<Word> {
    Matrix(Quad(cv[0], cv[4], IV[0], CounterLow(counter)), Quad(cv[1], cv[5], IV[1], CounterHigh(counter)),
           Quad(cv[2], cv[6], IV[2], ByteWord(blockLen)), Quad(cv[3], cv[7], IV[3], ByteWord(flags)))
  }

  function CounterLow(counter: nat): Word {
    counter % 0x1_0000_0000
  }

  function CounterHigh(counter: nat): Word {
    counter / 0x1_0000_0000 % 0x1_0000_0000
  }

  /** A byte-sized argument as a state word. */
  function ByteWord(b: nat): Word {
    b % 0x100
  }

  function BlockWords(block: Block): Words16 {
    LoadWords(block)
  }

  /** The state after all seven rounds. */
  function FinalState(cv: Words8, block: Block, blockLen: nat, counter: nat, flags: nat): Matrix<Word> {
    hide ReferenceRounds, InitialState, BlockWords;
    ReferenceRounds(InitialState(cv, counter, blockLen, flags), BlockWords(block), 7)
  }

  /** The upper half of the matrix combined with the lower half. */
  function Fold8(m: Matrix<Word>): Words8 {
    hide Xor;
    [Xor(m.p.a, m.p.c), Xor(m.q.a, m.q.c), Xor(m.r.a, m.r.c), Xor(m.t.a, m.t.c),
     Xor(m.p.b, m.p.d), Xor(m.q.b, m.q.d), Xor(m.r.b, m.r.d), Xor(m.t.b, m.t.d)]
  }

  /** The lower half of the matrix combined with the input chaining value. */
  function Feed8(m: Matrix<Word>, cv: Words8): Words8 {
    hide Xor;
    [Xor(m.p.c, cv[0]), Xor(m.q.c, cv[1]), Xor(m.r.c, cv[2]), Xor(m.t.c, cv[3]),
     Xor(m.p.d, cv[4]), Xor(m.q.d, cv[5]), Xor(m.r.d, cv[6]), Xor(m.t.d, cv[7])]
  }

  /** The output chaining value. */
  function CompressWords(cv: Words8, block: Block, blockLen: nat, counter: nat, flags: nat): Words8 {
    hide FinalState, Fold8;
    Fold8(FinalState(cv, block, blockLen, counter, flags))
  }

  /** The full 64-byte output. */
  function XofBytes(cv: Words8, block: Block, blockLen: nat, counter: nat, flags: nat): Block {
    hide FinalState, Fold8, Feed8;
    var s := FinalState(cv, block, blockLen, counter, flags);
    var low: seq<Word>, high: seq<Word> := Fold8(s), Feed8(s, cv);
    StoreWords(low + high)
  }

  /** The hashing mode with this compression function. */
  function PortableMode(key: Words8, flags: nat): Mode {
    Mode(key, flags, CompressWords, XofBytes)
  }

  /** The first half of the extended output is the chaining value of the same compression. */
  lemma XofStartsWithCV(cv: Words8, block: Block, blockLen: nat, counter: nat, flags: nat)
    ensures XofBytes(cv, block, blockLen, counter, flags)[..32]
            == StoreWords(CompressWords(cv, block, blockLen, counter, flags))
  {
    hide FinalState, Fold8, Feed8;
    var s := FinalState(cv, block, blockLen, counter, flags);
    StoreWordsConcat(Fold8(s), Feed8(s, cv));
  }

  // ----- the schedule table

  /** The permutation applied to a row of the table. */
  function PermuteRow(r: Row): Row {
    [r[2], r[6], r[3], r[10], r[7], r[0], r[4], r[13], r[1], r[11], r[12], r[5], r[9], r[14], r[15], r[8]]
  }

  lemma Row1()
    ensures ROW_1 == PermuteRow(ROW_0)
  {
  }

  lemma Row2()
    ensures ROW_2 == PermuteRow(ROW_1)
  {
  }

  lemma Row3()
    ensures ROW_3 == PermuteRow(ROW_2)
  {
  }

  lemma Row4()
    ensures ROW_4 == PermuteRow(ROW_3)
  {
  }

  lemma Row5()
    ensures ROW_5 == PermuteRow(ROW_4)
  {
  }

  lemma Row6()
    ensures ROW_6 == PermuteRow(ROW_5)
  {
  }

  /** Each row of the table is the row before it, permuted once more. */
  lemma ScheduleStep(round: nat)
    requires round < 6
    ensures Schedule(round + 1) == PermuteRow(Schedule(round))
  {
    hide PermuteRow;
    Row1();
    Row2();
    Row3();
    Row4();
    Row5();
    Row6();
  }

  lemma SelectPermuted(m: Words16, r: Row)
    ensures Select(m, PermuteRow(r)) == Permute(Select(m, r))
  {
  }

  /** Row `n` of the table picks the message words that the reference form has after `n` permutations. */
  lemma {:induction false} ScheduleIsPermute(m: Words16, n: nat)
    requires n < 7
    ensures Select(m, Schedule(n)) == PermuteTimes(m, n)
  {
    if n == 0 {
      SelectIdentity(m);
    } else {
      hide Schedule, Select, Permute, PermuteRow;
      ScheduleIsPermute(m, n - 1);
      ScheduleStep(n - 1);
      SelectPermuted(m, Schedule(n - 1));
    }
  }

  lemma SelectIdentity(m: Words16)
    ensures Select(m, ROW_0) == m
  {
    assert forall i | 0 <= i < 16 :: ROW_0[i] == i;
  }

  // ----- the code

  function ToMatrix(s: seq<Word>): Matrix<Word>
    requires |s| == 16
  {
    Matrix(Quad(s[0], s[4], s[8], s[12]), Quad(s[1], s[5], s[9], s[13]),
           Quad(s[2], s[6], s[10], s[14]), Quad(s[3], s[7], s[11], s[15]))
  }

  /** The state `after` is `before` with the four named words replaced. */
  ghost predicate Replaced(before: seq<Word>, after: seq<Word>, a: nat, b: nat, c: nat, d: nat, q: Quad<Word>)
    requires |before| == |after| == 16 && a < 16 && b < 16 && c < 16 && d < 16
  {
    && after[a] == q.a && after[b] == q.b && after[c] == q.c && after[d] == q.d
    && forall i | 0 <= i < 16 && i != a && i != b && i != c && i != d :: after[i] == before[i]
  }

  /** The first, or the last, four lines of g. */
  method GHalf(state: array<Word>, a: nat, b: nat, c: nat, d: nat, x: Word, r: nat, t: nat)
    requires state.Length == 16 && a < 16 && b < 16 && c < 16 && d < 16 && ((r == 16 && t == 12) || (r == 8 && t == 7))
    requires a != b && a != c && a != d && b != c && b != d && c != d
    modifies state
    ensures var s := old(state[..]); Replaced(s, state[..], a, b, c, d, MixHalf(Quad(s[a], s[b], s[c], s[d]), x, r, t))
  {
    hide Add, Xor, Rotr;
    state[a] := Add(Add(state[a], state[b]), x);
    state[d] := Rotr(Xor(state[d], state[a]), r);
    state[c] := Add(state[c], state[d]);
    state[b] := Rotr(Xor(state[b], state[c]), t);
  }

  /** g */
  method G(state: array<Word>, a: nat, b: nat, c: nat, d: nat, x: Word, y: Word)
    requires state.Length == 16 && a < 16 && b < 16 && c < 16 && d < 16
    requires a != b && a != c && a != d && b != c && b != d && c != d
    modifies state
    ensures var s := old(state[..]); Replaced(s, state[..], a, b, c, d, Mix(Quad(s[a], s[b], s[c], s[d]), x, y))
  {
    hide MixHalf;
    GHalf(state, a, b, c, d, x, 16, 12);
    GHalf(state, a, b, c, d, y, 8, 7);
  }

  /** round_fn, first half: the columns. */
  method RoundFnColumns(state: array<Word>, w: Words16)
    requires state.Length == 16
    modifies state
    ensures ToMatrix(state[..]) == MixColumns(ToMatrix(old(state[..])), w, 0)
  {
    hide Mix;
    G(state, 0, 4, 8, 12, w[0], w[1]);
    G(state, 1, 5, 9, 13, w[2], w[3]);
    G(state, 2, 6, 10, 14, w[4], w[5]);
    G(state, 3, 7, 11, 15, w[6], w[7]);
  }

  /** round_fn, second half: the diagonals. */
  method RoundFnDiagonals(state: array<Word>, w: Words16)
    requires state.Length == 16
    modifies state
    ensures ToMatrix(state[..]) == Undiagonals(MixColumns(Diagonals(ToMatrix(old(state[..]))), w, 8))
  {
    hide Mix;
    G(state, 0, 5, 10, 15, w[8], w[9]);
    G(state, 1, 6, 11, 12, w[10], w[11]);
    G(state, 2, 7, 8, 13, w[12], w[13]);
    G(state, 3, 4, 9, 14, w[14], w[15]);
  }

  /** round_fn: the words of the message are picked through the schedule table. */
  method RoundFn(state: array<Word>, msg: Words16, round: nat)
    requires state.Length == 16 && round < 7
    modifies state
    ensures ToMatrix(state[..]) == RoundOf(ToMatrix(old(state[..])), PermuteTimes(msg, round))
  {
    hide MixColumns, PermuteTimes, Schedule, ToMatrix, Diagonals, Undiagonals;
    ScheduleIsPermute(msg, round);
    var w := Select(msg, Schedule(round));
    RoundFnColumns(state, w);
    RoundFnDiagonals(state, w);
  }

  /** compress_pre; its seven calls of round_fn are the loop below. */
  method CompressPre(cv: Words8, block: Block, blockLen: nat, counter: nat, flags: nat) returns (state: array<Word>)
    ensures fresh(state) && state.Length == 16
    ensures ToMatrix(state[..]) == FinalState(cv, block, blockLen, counter, flags)
  {
    var blockWords := BlockWords(block);
    state := new Word[16];
    LoadState(state, cv, counter, blockLen, flags);
    hide RoundOf, PermuteTimes, InitialState, BlockWords, ToMatrix;
    ghost var initial := InitialState(cv, counter, blockLen, flags);
    var round := 0;
    while round < 7
      invariant 0 <= round <= 7 && ToMatrix(state[..]) == ReferenceRounds(initial, blockWords, round)
    {
      RoundFn(state, blockWords, round);
      round := round + 1;
    }
  }

  /** The assignments of compress_pre to the sixteen state words. */
  method LoadState(state: array<Word>, cv: Words8, counter: nat, blockLen: nat, flags: nat)
    requires state.Length == 16
    modifies state
    ensures ToMatrix(state[..]) == InitialState(cv, counter, blockLen, flags)
  {
    hide CounterLow, CounterHigh, ByteWord;
    forall i | 0 <= i < 8 {
      state[i] := cv[i];
    }
    forall i | 0 <= i < 4 {
      state[i + 8] := IV[i];
    }
    state[12] := CounterLow(counter);
    state[13] := CounterHigh(counter);
    state[14] := ByteWord(blockLen);
    state[15] := ByteWord(flags);
  }

  /** blake3_compress_in_place_portable */
  method CompressInPlace(cv: array<Word>, block: Block, blockLen: nat, counter: nat, flags: nat)
    requires cv.Length == 8
    modifies cv
    ensures cv[..] == CompressWords(old(cv[..]), block, blockLen, counter, flags)
  {
    hide FinalState, Xor;
    var s := CompressPre(cv[..], block, blockLen, counter, flags);
    cv[0], cv[1], cv[2], cv[3] := Xor(s[0], s[8]), Xor(s[1], s[9]), Xor(s[2], s[10]), Xor(s[3], s[11]);
    cv[4], cv[5], cv[6], cv[7] := Xor(s[4], s[12]), Xor(s[5], s[13]), Xor(s[6], s[14]), Xor(s[7], s[15]);
  }

  /** blake3_compress_xof_portable */
  method CompressXof(cv: Words8, block: Block, blockLen: nat, counter: nat, flags: nat) returns (out: Block)
    ensures out == XofBytes(cv, block, blockLen, counter, flags)
  {
    hide FinalState, Xor;
    var s := CompressPre(cv, block, blockLen, counter, flags);
    var low := [Xor(s[0], s[8]), Xor(s[1], s[9]), Xor(s[2], s[10]), Xor(s[3], s[11]),
                Xor(s[4], s[12]), Xor(s[5], s[13]), Xor(s[6], s[14]), Xor(s[7], s[15])];
    var high := [Xor(s[8], cv[0]), Xor(s[9], cv[1]), Xor(s[10], cv[2]), Xor(s[11], cv[3]),
                 Xor(s[12], cv[4]), Xor(s[13], cv[5]), Xor(s[14], cv[6]), Xor(s[15], cv[7])];
    out := StoreWords(low + high);
  }
}
