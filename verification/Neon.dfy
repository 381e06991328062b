/** Four-lane hashing (blake3_neon.c): four inputs side by side in 128-bit vectors, one input per
    lane, give the same bytes as the portable one-at-a-time loop. */
module Neon {
  import opened Bits
  import opened Words
  import opened Tree
  import opened HashMany
  import opened Portable

  /** A vector of four 32-bit lanes. */
  datatype V4 = V4(x0: Word, x1: Word, x2: Word, x3: Word)

  type Vecs16 = s: seq<V4> | |s| == 16 witness seq(16, _ => V4(0, 0, 0, 0))
  type Vecs8 = s: seq<V4> | |s| == 8 witness seq(8, _ => V4(0, 0, 0, 0))
  type LaneIndex = l: nat | l < 4

  function Lane(v: V4, l: LaneIndex): Word {
    if l == 0 then v.x0 else if l == 1 then v.x1 else if l == 2 then v.x2 else v.x3
  }

  function LaneOf(vs: seq<V4>, l: LaneIndex): (r: seq<Word>)
    ensures |r| == |vs|
  {
    seq(|vs|, i requires 0 <= i < |vs| => Lane(vs[i], l))
  }

  // ----- vector operations

  function Add128(a: V4, b: V4): V4 {
    V4(Add(a.x0, b.x0), Add(a.x1, b.x1), Add(a.x2, b.x2), Add(a.x3, b.x3))
  }

  function Xor128(a: V4, b: V4): V4 {
    V4(Xor(a.x0, b.x0), Xor(a.x1, b.x1), Xor(a.x2, b.x2), Xor(a.x3, b.x3))
  }

  /** set1_128 */
  function Set1(x: Word): V4 {
    V4(x, x, x, x)
  }

  /** vrev32q_u16 on one lane: exchange the two 16-bit halves. */
  function SwapHalves(w: Word): Word {
    var low, high := w % 0x1_0000, w / 0x1_0000;
    high + 0x1_0000 * low
  }

  /** The byte shuffle 1, 2, 3, 0 on one lane. */
  function ShuffleBytes(w: Word): Word {
    var b := Store32(w);
    Load32(b[1], b[2], b[3], b[0])
  }

  /** vshlq_n_u32 by 20 and vsriq_n_u32 by 12 on one lane: the upper 12 bits of the shifted value stay,
      the lower 20 are the upper bits of `w`. */
  function Insert12(w: Word): Word {
    var shifted := w * 0x10_0000 % 0x1_0000_0000;
    shifted / 0x10_0000 * 0x10_0000 + w / 0x1000
  }

  /** The same by 25 and 7. */
  function Insert7(w: Word): Word {
    var shifted := w * 0x200_0000 % 0x1_0000_0000;
    shifted / 0x200_0000 * 0x200_0000 + w / 0x80
  }

  function Rot16(v: V4): V4 {
    V4(SwapHalves(v.x0), SwapHalves(v.x1), SwapHalves(v.x2), SwapHalves(v.x3))
  }

  function Rot12(v: V4): V4 {
    V4(Insert12(v.x0), Insert12(v.x1), Insert12(v.x2), Insert12(v.x3))
  }

  function Rot8(v: V4): V4 {
    V4(ShuffleBytes(v.x0), ShuffleBytes(v.x1), ShuffleBytes(v.x2), ShuffleBytes(v.x3))
  }

  function Rot7(v: V4): V4 {
    V4(Insert7(v.x0), Insert7(v.x1), Insert7(v.x2), Insert7(v.x3))
  }

  /** The three ways of rotating a lane are rotations. */
  lemma SwapIsRotate(w: Word)
    ensures SwapHalves(w) == Rotr(w, 16)
  {
  }

  lemma ShuffleIsRotate(w: Word)
    ensures ShuffleBytes(w) == Rotr(w, 8)
  {
    var q := w / 0x100;
    assert w / 0x1_0000 == q / 0x100 && w / 0x100_0000 == q / 0x1_0000;
    assert q == q % 0x100 + 0x100 * (q / 0x100 % 0x100) + 0x1_0000 * (q / 0x1_0000);
  }

  lemma InsertIsRotate12(w: Word)
    ensures Insert12(w) == Rotr(w, 12)
  {
    assert w == w / 0x1000 * 0x1000 + w % 0x1000;
    assert w * 0x10_0000 % 0x1_0000_0000 == w % 0x1000 * 0x10_0000;
  }

  lemma InsertIsRotate7(w: Word)
    ensures Insert7(w) == Rotr(w, 7)
  {
    assert w == w / 0x80 * 0x80 + w % 0x80;
    assert w * 0x200_0000 % 0x1_0000_0000 == w % 0x80 * 0x200_0000;
  }

  lemma LaneRot(v: V4, l: LaneIndex)
    ensures Lane(Rot16(v), l) == Rotr(Lane(v, l), 16) && Lane(Rot12(v), l) == Rotr(Lane(v, l), 12)
    ensures Lane(Rot8(v), l) == Rotr(Lane(v, l), 8) && Lane(Rot7(v), l) == Rotr(Lane(v, l), 7)
  {
    hide Rotr, SwapHalves, ShuffleBytes, Insert12, Insert7;
    var w := Lane(v, l);
    SwapIsRotate(w);
    ShuffleIsRotate(w);
    InsertIsRotate12(w);
    InsertIsRotate7(w);
  }

  // ----- one round

  /** The quarter round of round_fn4 on one column: the message word is added first. */
  function Mix4(q: Quad<V4>, x: V4, y: V4): Quad<V4> {
    hide Add128, Xor128, Rot16, Rot12, Rot8, Rot7;
    var a1 := Add128(Add128(q.a, x), q.b);
    var d1 := Rot16(Xor128(q.d, a1));
    var c1 := Add128(q.c, d1);
    var b1 := Rot12(Xor128(q.b, c1));
    var a2 := Add128(Add128(a1, y), b1);
    var d2 := Rot8(Xor128(d1, a2));
    var c2 := Add128(c1, d2);
    Quad(a2, Rot7(Xor128(b1, c2)), c2, d2)
  }

  function LaneQuad(q: Quad<V4>, l: LaneIndex): Quad<Word> {
    Quad(Lane(q.a, l), Lane(q.b, l), Lane(q.c, l), Lane(q.d, l))
  }

  function LaneMatrix(m: Matrix<V4>, l: LaneIndex): Matrix<Word> {
    Matrix(LaneQuad(m.p, l), LaneQuad(m.q, l), LaneQuad(m.r, l), LaneQuad(m.t, l))
  }

  lemma AddOrder(a: Word, b: Word, x: Word)
    ensures Add(Add(a, x), b) == Add(Add(a, b), x)
  {
    var m := 0x1_0000_0000;
    var u, v := Add(a, x), Add(a, b);
    assert u == (if a + x < m then a + x else a + x - m) && v == (if a + b < m then a + b else a + b - m);
  }

  lemma LaneOps(a: V4, b: V4, l: LaneIndex)
    ensures Lane(Add128(a, b), l) == Add(Lane(a, l), Lane(b, l))
    ensures Lane(Xor128(a, b), l) == Xor(Lane(a, l), Lane(b, l))
  {
    hide Add, Xor;
  }

  lemma LaneAdd3(a: V4, b: V4, x: V4, l: LaneIndex)
    ensures Lane(Add128(Add128(a, x), b), l) == Add(Add(Lane(a, l), Lane(b, l)), Lane(x, l))
  {
    hide Add, Xor, Add128, Lane;
    LaneOps(a, x, l);
    LaneOps(Add128(a, x), b, l);
    AddOrder(Lane(a, l), Lane(b, l), Lane(x, l));
  }

  /** Each lane of the vector quarter round is the scalar quarter round. */
  lemma LaneMix(q: Quad<V4>, x: V4, y: V4, l: LaneIndex)
    ensures LaneQuad(Mix4(q, x, y), l) == Mix(LaneQuad(q, l), Lane(x, l), Lane(y, l))
  {
    hide Add, Xor, Rotr, Add128, Xor128, Rot16, Rot12, Rot8, Rot7, Lane;
    var a1 := Add128(Add128(q.a, x), q.b);
    var d1 := Rot16(Xor128(q.d, a1));
    var c1 := Add128(q.c, d1);
    var b1 := Rot12(Xor128(q.b, c1));
    var a2 := Add128(Add128(a1, y), b1);
    var d2 := Rot8(Xor128(d1, a2));
    var c2 := Add128(c1, d2);
    LaneAdd3(q.a, q.b, x, l);
    LaneOps(q.d, a1, l);
    LaneRot(Xor128(q.d, a1), l);
    LaneOps(q.c, d1, l);
    LaneOps(q.b, c1, l);
    LaneRot(Xor128(q.b, c1), l);
    LaneAdd3(a1, b1, y, l);
    LaneOps(d1, a2, l);
    LaneRot(Xor128(d1, a2), l);
    LaneOps(c1, d2, l);
    LaneOps(b1, c2, l);
    LaneRot(Xor128(b1, c2), l);
  }

  /** The quarter round on all four columns of a vector state. */
  function MixColumns4(m: Matrix<V4>, w: Vecs16, i: nat): Matrix<V4>
    requires i <= 8
  {
    hide Mix4;
    Matrix(Mix4(m.p, w[i], w[i + 1]), Mix4(m.q, w[i + 2], w[i + 3]), Mix4(m.r, w[i + 4], w[i + 5]),
           Mix4(m.t, w[i + 6], w[i + 7]))
  }

  lemma LaneMixColumns(m: Matrix<V4>, w: Vecs16, i: nat, l: LaneIndex)
    requires i <= 8
    ensures LaneMatrix(MixColumns4(m, w, i), l) == MixColumns(LaneMatrix(m, l), LaneOf(w, l), i)
  {
    hide Mix4, Mix, Lane, LaneQuad;
    LaneMix(m.p, w[i], w[i + 1], l);
    LaneMix(m.q, w[i + 2], w[i + 3], l);
    LaneMix(m.r, w[i + 4], w[i + 5], l);
    LaneMix(m.t, w[i + 6], w[i + 7], l);
  }

  lemma LaneDiagonals(m: Matrix<V4>, l: LaneIndex)
    ensures LaneMatrix(Diagonals(m), l) == Diagonals(LaneMatrix(m, l))
    ensures LaneMatrix(Undiagonals(m), l) == Undiagonals(LaneMatrix(m, l))
  {
    hide Lane;
  }

  /** round_fn4, first half: the columns, interleaved. The vectors v[0] to v[15] are local variables. */
  method RoundFn4Columns(m: Matrix<V4>, w: Vecs16) returns (r: Matrix<V4>)
    ensures r == MixColumns4(m, w, 0)
  {
    hide Add128, Xor128, Rot16, Rot12, Rot8, Rot7;
    var v0, v4, v8, v12 := m.p.a, m.p.b, m.p.c, m.p.d;
    var v1, v5, v9, v13 := m.q.a, m.q.b, m.q.c, m.q.d;
    var v2, v6, v10, v14 := m.r.a, m.r.b, m.r.c, m.r.d;
    var v3, v7, v11, v15 := m.t.a, m.t.b, m.t.c, m.t.d;
    v0 := Add128(v0, w[0]); v1 := Add128(v1, w[2]); v2 := Add128(v2, w[4]); v3 := Add128(v3, w[6]);
    v0 := Add128(v0, v4); v1 := Add128(v1, v5); v2 := Add128(v2, v6); v3 := Add128(v3, v7);
    v12 := Xor128(v12, v0); v13 := Xor128(v13, v1); v14 := Xor128(v14, v2); v15 := Xor128(v15, v3);
    v12 := Rot16(v12); v13 := Rot16(v13); v14 := Rot16(v14); v15 := Rot16(v15);
    v8 := Add128(v8, v12); v9 := Add128(v9, v13); v10 := Add128(v10, v14); v11 := Add128(v11, v15);
    v4 := Xor128(v4, v8); v5 := Xor128(v5, v9); v6 := Xor128(v6, v10); v7 := Xor128(v7, v11);
    v4 := Rot12(v4); v5 := Rot12(v5); v6 := Rot12(v6); v7 := Rot12(v7);
    v0 := Add128(v0, w[1]); v1 := Add128(v1, w[3]); v2 := Add128(v2, w[5]); v3 := Add128(v3, w[7]);
    v0 := Add128(v0, v4); v1 := Add128(v1, v5); v2 := Add128(v2, v6); v3 := Add128(v3, v7);
    v12 := Xor128(v12, v0); v13 := Xor128(v13, v1); v14 := Xor128(v14, v2); v15 := Xor128(v15, v3);
    v12 := Rot8(v12); v13 := Rot8(v13); v14 := Rot8(v14); v15 := Rot8(v15);
    v8 := Add128(v8, v12); v9 := Add128(v9, v13); v10 := Add128(v10, v14); v11 := Add128(v11, v15);
    v4 := Xor128(v4, v8); v5 := Xor128(v5, v9); v6 := Xor128(v6, v10); v7 := Xor128(v7, v11);
    v4 := Rot7(v4); v5 := Rot7(v5); v6 := Rot7(v6); v7 := Rot7(v7);
    r := Matrix(Quad(v0, v4, v8, v12), Quad(v1, v5, v9, v13), Quad(v2, v6, v10, v14), Quad(v3, v7, v11, v15));
  }

  /** round_fn4, second half: the diagonals, interleaved. */
  method RoundFn4Diagonals(m: Matrix<V4>, w: Vecs16) returns (r: Matrix<V4>)
    ensures r == Undiagonals(MixColumns4(Diagonals(m), w, 8))
  {
    hide Add128, Xor128, Rot16, Rot12, Rot8, Rot7;
    var v0, v4, v8, v12 := m.p.a, m.p.b, m.p.c, m.p.d;
    var v1, v5, v9, v13 := m.q.a, m.q.b, m.q.c, m.q.d;
    var v2, v6, v10, v14 := m.r.a, m.r.b, m.r.c, m.r.d;
    var v3, v7, v11, v15 := m.t.a, m.t.b, m.t.c, m.t.d;
    v0 := Add128(v0, w[8]); v1 := Add128(v1, w[10]); v2 := Add128(v2, w[12]); v3 := Add128(v3, w[14]);
    v0 := Add128(v0, v5); v1 := Add128(v1, v6); v2 := Add128(v2, v7); v3 := Add128(v3, v4);
    v15 := Xor128(v15, v0); v12 := Xor128(v12, v1); v13 := Xor128(v13, v2); v14 := Xor128(v14, v3);
    v15 := Rot16(v15); v12 := Rot16(v12); v13 := Rot16(v13); v14 := Rot16(v14);
    v10 := Add128(v10, v15); v11 := Add128(v11, v12); v8 := Add128(v8, v13); v9 := Add128(v9, v14);
    v5 := Xor128(v5, v10); v6 := Xor128(v6, v11); v7 := Xor128(v7, v8); v4 := Xor128(v4, v9);
    v5 := Rot12(v5); v6 := Rot12(v6); v7 := Rot12(v7); v4 := Rot12(v4);
    v0 := Add128(v0, w[9]); v1 := Add128(v1, w[11]); v2 := Add128(v2, w[13]); v3 := Add128(v3, w[15]);
    v0 := Add128(v0, v5); v1 := Add128(v1, v6); v2 := Add128(v2, v7); v3 := Add128(v3, v4);
    v15 := Xor128(v15, v0); v12 := Xor128(v12, v1); v13 := Xor128(v13, v2); v14 := Xor128(v14, v3);
    v15 := Rot8(v15); v12 := Rot8(v12); v13 := Rot8(v13); v14 := Rot8(v14);
    v10 := Add128(v10, v15); v11 := Add128(v11, v12); v8 := Add128(v8, v13); v9 := Add128(v9, v14);
    v5 := Xor128(v5, v10); v6 := Xor128(v6, v11); v7 := Xor128(v7, v8); v4 := Xor128(v4, v9);
    v5 := Rot7(v5); v6 := Rot7(v6); v7 := Rot7(v7); v4 := Rot7(v4);
    r := Matrix(Quad(v0, v4, v8, v12), Quad(v1, v5, v9, v13), Quad(v2, v6, v10, v14), Quad(v3, v7, v11, v15));
  }

  /** round_fn4: every lane goes through the scalar round. */
  method RoundFn4(v: Matrix<V4>, m: Vecs16, round: nat) returns (r: Matrix<V4>)
    requires round < 7
    ensures forall l: LaneIndex :: LaneMatrix(r, l) == RoundOf(LaneMatrix(v, l), PermuteTimes(LaneOf(m, l), round))
  {
    hide MixColumns, MixColumns4, PermuteTimes, Schedule, Diagonals, Undiagonals, LaneMatrix, Select;
    var w := Select(m, Schedule(round));
    var c := RoundFn4Columns(v, w);
    r := RoundFn4Diagonals(c, w);
    forall l: LaneIndex ensures LaneMatrix(r, l) == RoundOf(LaneMatrix(v, l), PermuteTimes(LaneOf(m, l), round)) {
      LaneRound(v, m, round, w, l);
    }
  }

  lemma LaneRound(v: Matrix<V4>, m: Vecs16, round: nat, w: Vecs16, l: LaneIndex)
    requires round < 7 && w == Select(m, Schedule(round))
    ensures LaneMatrix(Undiagonals(MixColumns4(Diagonals(MixColumns4(v, w, 0)), w, 8)), l)
            == RoundOf(LaneMatrix(v, l), PermuteTimes(LaneOf(m, l), round))
  {
    hide MixColumns, MixColumns4, PermuteTimes, Schedule, Diagonals, Undiagonals, LaneMatrix, Select;
    LaneSelect(m, Schedule(round), l);
    ScheduleIsPermute(LaneOf(m, l), round);
    var c := MixColumns4(v, w, 0);
    LaneMixColumns(v, w, 0, l);
    LaneDiagonals(c, l);
    LaneMixColumns(Diagonals(c), w, 8, l);
    LaneDiagonals(MixColumns4(Diagonals(c), w, 8), l);
  }

  lemma LaneSelect(m: Vecs16, row: Row, l: LaneIndex)
    ensures LaneOf(Select(m, row), l) == Select(LaneOf(m, l), row)
  {
    hide Lane;
  }

  // ----- moving between inputs and lanes

  /** The `l`-th of four vectors. */
  function Nth(q: Quad<V4>, l: LaneIndex): V4 {
    if l == 0 then q.a else if l == 1 then q.b else if l == 2 then q.c else q.d
  }

  /** vtrnq_u32, first and second result. */
  function Trn0(a: V4, b: V4): V4 {
    V4(a.x0, b.x0, a.x2, b.x2)
  }

  function Trn1(a: V4, b: V4): V4 {
    V4(a.x1, b.x1, a.x3, b.x3)
  }

  /** vcombine_u32 of the low, or of the high, halves. */
  function CombineLow(a: V4, b: V4): V4 {
    V4(a.x0, a.x1, b.x0, b.x1)
  }

  function CombineHigh(a: V4, b: V4): V4 {
    V4(a.x2, a.x3, b.x2, b.x3)
  }

  /** transpose_vecs_128 */
  function TransposeVecs(q: Quad<V4>): Quad<V4> {
    var rows01 := (Trn0(q.a, q.b), Trn1(q.a, q.b));
    var rows23 := (Trn0(q.c, q.d), Trn1(q.c, q.d));
    Quad(CombineLow(rows01.0, rows23.0), CombineLow(rows01.1, rows23.1),
         CombineHigh(rows01.0, rows23.0), CombineHigh(rows01.1, rows23.1))
  }

  /** Two rounds of exchanges transpose the whole matrix. */
  lemma TransposeIsTranspose(q: Quad<V4>, i: LaneIndex, l: LaneIndex)
    ensures Lane(Nth(TransposeVecs(q), i), l) == Lane(Nth(q, l), i)
  {
  }

  /** loadu_128 */
  function LoadVec(b: seq<Byte>, off: nat): V4
    requires off + 16 <= |b|
  {
    V4(Load32(b[off], b[off + 1], b[off + 2], b[off + 3]),
       Load32(b[off + 4], b[off + 5], b[off + 6], b[off + 7]),
       Load32(b[off + 8], b[off + 9], b[off + 10], b[off + 11]),
       Load32(b[off + 12], b[off + 13], b[off + 14], b[off + 15]))
  }

  /** Four inputs of at least `len` bytes each. */
  ghost predicate FourInputs(inputs: seq<seq<Byte>>, len: nat) {
    |inputs| == 4 && forall i | 0 <= i < 4 :: len <= |inputs[i]|
  }

  /** Words `4 * k` to `4 * k + 3` of a block of each input, one input per lane. */
  function MsgGroup(inputs: seq<seq<Byte>>, off: nat, k: nat): Quad<V4>
    requires FourInputs(inputs, off + 64) && k < 4
  {
    TransposeVecs(Quad(LoadVec(inputs[0], off + 16 * k), LoadVec(inputs[1], off + 16 * k),
                       LoadVec(inputs[2], off + 16 * k), LoadVec(inputs[3], off + 16 * k)))
  }

  /** transpose_msg_vecs4 */
  function MsgVecs(inputs: seq<seq<Byte>>, off: nat): Vecs16
    requires FourInputs(inputs, off + 64)
  {
    hide MsgGroup;
    seq(16, i requires 0 <= i < 16 => Nth(MsgGroup(inputs, off, i / 4), i % 4))
  }

  /** Lane `r` of the vector loaded for group `k` is word `4 * k + r` of the block. */
  lemma LoadedWord(b: seq<Byte>, off: nat, k: nat, r: LaneIndex)
    requires off + 64 <= |b| && k < 4
    ensures Lane(LoadVec(b, off + 16 * k), r) == LoadWords(b[off..off + 64])[4 * k + r]
  {
    hide Load32, LoadWords;
    var block := b[off..off + 64];
    LoadWordsAt(block, 4 * k + r);
    var p := 4 * (4 * k + r);
    assert block[p] == b[off + p] && block[p + 1] == b[off + p + 1];
    assert block[p + 2] == b[off + p + 2] && block[p + 3] == b[off + p + 3];
  }

  lemma MsgLaneAt(inputs: seq<seq<Byte>>, off: nat, l: LaneIndex, i: nat)
    requires FourInputs(inputs, off + 64) && i < 16
    ensures Lane(MsgVecs(inputs, off)[i], l) == LoadWords(inputs[l][off..off + 64])[i]
  {
    hide TransposeVecs, LoadVec, LoadWords;
    var k := i / 4;
    var q := Quad(LoadVec(inputs[0], off + 16 * k), LoadVec(inputs[1], off + 16 * k),
                  LoadVec(inputs[2], off + 16 * k), LoadVec(inputs[3], off + 16 * k));
    TransposeIsTranspose(q, i % 4, l);
    assert Nth(q, l) == LoadVec(inputs[l], off + 16 * k);
    LoadedWord(inputs[l], off, k, i % 4);
  }

  /** Each lane of the transposed message holds the block words of its own input. */
  lemma MsgLane(inputs: seq<seq<Byte>>, off: nat, l: LaneIndex)
    requires FourInputs(inputs, off + 64)
    ensures LaneOf(MsgVecs(inputs, off), l) == BlockWords(inputs[l][off..off + 64])
  {
    hide MsgVecs, Lane;
    forall i | 0 <= i < 16 ensures LaneOf(MsgVecs(inputs, off), l)[i] == LoadWords(inputs[l][off..off + 64])[i] {
      MsgLaneAt(inputs, off, l, i);
    }
  }

  // ----- four compressions at once

  /** The vectors that the rounds of one block start from. */
  function InitialVecs(h: Vecs8, low: V4, high: V4, flags: nat): Matrix<V4> {
    Matrix(Quad(h[0], h[4], Set1(IV[0]), low), Quad(h[1], h[5], Set1(IV[1]), high),
           Quad(h[2], h[6], Set1(IV[2]), Set1(ByteWord(64))), Quad(h[3], h[7], Set1(IV[3]), Set1(ByteWord(flags))))
  }

  lemma LaneInitial(h: Vecs8, low: V4, high: V4, flags: nat, l: LaneIndex, counter: nat)
    requires Lane(low, l) == CounterLow(counter) && Lane(high, l) == CounterHigh(counter)
    ensures LaneMatrix(InitialVecs(h, low, high, flags), l) == InitialState(LaneOf(h, l), counter, 64, flags)
  {
    hide CounterLow, CounterHigh, ByteWord;
  }

  /** The eight xor_128 at the end of a block. */
  function FoldVecs(m: Matrix<V4>): Vecs8 {
    hide Xor128;
    [Xor128(m.p.a, m.p.c), Xor128(m.q.a, m.q.c), Xor128(m.r.a, m.r.c), Xor128(m.t.a, m.t.c),
     Xor128(m.p.b, m.p.d), Xor128(m.q.b, m.q.d), Xor128(m.r.b, m.r.d), Xor128(m.t.b, m.t.d)]
  }

  lemma LaneFold(m: Matrix<V4>, l: LaneIndex)
    ensures LaneOf(FoldVecs(m), l) == Fold8(LaneMatrix(m, l))
  {
    hide Xor128, Xor, Lane;
    LaneOps(m.p.a, m.p.c, l);
    LaneOps(m.q.a, m.q.c, l);
    LaneOps(m.r.a, m.r.c, l);
    LaneOps(m.t.a, m.t.c, l);
    LaneOps(m.p.b, m.p.d, l);
    LaneOps(m.q.b, m.q.d, l);
    LaneOps(m.r.b, m.r.d, l);
    LaneOps(m.t.b, m.t.d, l);
  }

  /** The seven rounds of one block, in all lanes. */
  method Rounds4(initial: Matrix<V4>, msg: Vecs16) returns (v: Matrix<V4>)
    ensures forall l: LaneIndex :: LaneMatrix(v, l) == ReferenceRounds(LaneMatrix(initial, l), LaneOf(msg, l), 7)
  {
    hide RoundOf, PermuteTimes, LaneMatrix, LaneOf;
    v := initial;
    var round := 0;
    while round < 7
      invariant 0 <= round <= 7
      invariant forall l: LaneIndex ::
                  LaneMatrix(v, l) == ReferenceRounds(LaneMatrix(initial, l), LaneOf(msg, l), round)
    {
      v := RoundFn4(v, msg, round);
      round := round + 1;
    }
  }

  /** What blake3_hash4_neon is given: four inputs, hashed with the portable compression function. */
  ghost predicate FourJobs(j: Job, inputs: seq<seq<Byte>>) {
    j.compress == CompressWords && FourInputs(inputs, 64 * j.blocks)
  }

  /** Every lane is at the chain of its own input after `n` blocks. */
  ghost predicate LanesAt(j: Job, inputs: seq<seq<Byte>>, counter: nat, increment: bool, n: nat, h: Vecs8)
    requires FourJobs(j, inputs) && n <= j.blocks
  {
    forall l: LaneIndex :: LaneOf(h, l) == HashChain(j, inputs[l], CounterAt(counter, increment, l), n)
  }

  /** The mask of load_counters4: all ones or all zeros. */
  function Mask(increment: bool): nat {
    if increment then TWO_64 - 1 else 0
  }

  /** The 64-bit counter of lane `i`, as load_counters4 computes it. */
  function MaskedCounter(counter: nat, increment: bool, i: nat): nat {
    (counter + BitAnd(Mask(increment), i)) % TWO_64
  }

  /** load_counters4 */
  function CounterVec(part: nat -> Word, counter: nat, increment: bool): V4 {
    V4(part(MaskedCounter(counter, increment, 0)), part(MaskedCounter(counter, increment, 1)),
       part(MaskedCounter(counter, increment, 2)), part(MaskedCounter(counter, increment, 3)))
  }

  /** The mask adds the index of the lane, or nothing. */
  lemma MaskedIsCounter(counter: nat, increment: bool, i: nat)
    requires i < 4
    ensures MaskedCounter(counter, increment, i) == CounterAt(counter, increment, i)
  {
    hide BitAnd, Pow2;
    Pow2Values();
    MaskIsMod(i, 64);
    MaskZero(i);
    ModSmall(i, TWO_64);
  }

  lemma LaneCounter(part: nat -> Word, counter: nat, increment: bool, l: LaneIndex)
    ensures Lane(CounterVec(part, counter, increment), l) == part(CounterAt(counter, increment, l))
  {
    hide CounterAt, MaskedCounter;
    MaskedIsCounter(counter, increment, l);
  }

  /** One lane of one turn of the block loop is one compression. */
  lemma LaneCompress(j: Job, inputs: seq<seq<Byte>>, counter: nat, increment: bool, n: nat,
                     h: Vecs8, low: V4, high: V4, v: Matrix<V4>, l: LaneIndex)
    requires FourJobs(j, inputs) && n < j.blocks
    requires LanesAt(j, inputs, counter, increment, n, h)
    requires low == CounterVec(CounterLow, counter, increment) && high == CounterVec(CounterHigh, counter, increment)
    requires LaneMatrix(v, l)
             == ReferenceRounds(LaneMatrix(InitialVecs(h, low, high, FlagsAt(j, n)), l),
                                LaneOf(MsgVecs(inputs, 64 * n), l), 7)
    ensures LaneOf(FoldVecs(v), l) == HashChain(j, inputs[l], CounterAt(counter, increment, l), n + 1)
  {
    hide CounterAt, CounterVec, CounterLow, CounterHigh, InitialVecs, InitialState, MsgVecs, FoldVecs, Fold8,
         ReferenceRounds, LaneMatrix, LaneOf, Lane, FlagsAt, BlockWords;
    var c := CounterAt(counter, increment, l);
    LaneCounter(CounterLow, counter, increment, l);
    LaneCounter(CounterHigh, counter, increment, l);
    LaneInitial(h, low, high, FlagsAt(j, n), l, c);
    MsgLane(inputs, 64 * n, l);
    LaneFold(v, l);
    assert inputs[l][64 * n..64 * n + 64] == inputs[l][64 * ((n + 1) - 1)..64 * (n + 1)];
  }

  /** The block loop of blake3_hash4_neon. */
  method HashBlocks4(j: Job, inputs: seq<seq<Byte>>, counter: nat, increment: bool) returns (h: Vecs8)
    requires FourJobs(j, inputs)
    ensures LanesAt(j, inputs, counter, increment, j.blocks, h)
  {
    hide ReferenceRounds, LaneMatrix, LaneOf, InitialVecs, MsgVecs, FoldVecs, CounterVec, CounterAt, HashChain,
        KeyVecs, BitOr;
    h := KeyVecs(j.key);
    KeyLanes(j, inputs, counter, increment, h);
    hide LanesAt;
    var low, high := CounterVec(CounterLow, counter, increment), CounterVec(CounterHigh, counter, increment);
    var blockFlags, block := BitOr(j.flags, j.flagsStart), 0;
    while block < j.blocks
      invariant 0 <= block <= j.blocks && LanesAt(j, inputs, counter, increment, block, h)
      invariant blockFlags == if block == 0 then BitOr(j.flags, j.flagsStart) else j.flags
    {
      if block + 1 == j.blocks {
        blockFlags := BitOr(blockFlags, j.flagsEnd);
      }
      assert blockFlags == FlagsAt(j, block);
      var v := Rounds4(InitialVecs(h, low, high, blockFlags), MsgVecs(inputs, 64 * block));
      LanesStep(j, inputs, counter, increment, block, h, low, high, v);
      h := FoldVecs(v);
      blockFlags := j.flags;
      block := block + 1;
    }
  }

  function KeyVecs(key: Words8): Vecs8 {
    [Set1(key[0]), Set1(key[1]), Set1(key[2]), Set1(key[3]), Set1(key[4]), Set1(key[5]), Set1(key[6]), Set1(key[7])]
  }

  lemma KeyLanes(j: Job, inputs: seq<seq<Byte>>, counter: nat, increment: bool, h: Vecs8)
    requires FourJobs(j, inputs) && h == KeyVecs(j.key)
    ensures LanesAt(j, inputs, counter, increment, 0, h)
  {
    hide CounterAt;
    forall l: LaneIndex ensures LaneOf(h, l) == HashChain(j, inputs[l], CounterAt(counter, increment, l), 0) {
      assert LaneOf(h, l) == j.key;
    }
  }

  lemma LanesStep(j: Job, inputs: seq<seq<Byte>>, counter: nat, increment: bool, n: nat,
                  h: Vecs8, low: V4, high: V4, v: Matrix<V4>)
    requires FourJobs(j, inputs) && n < j.blocks
    requires LanesAt(j, inputs, counter, increment, n, h)
    requires low == CounterVec(CounterLow, counter, increment) && high == CounterVec(CounterHigh, counter, increment)
    requires var initial := InitialVecs(h, low, high, FlagsAt(j, n));
             forall l: LaneIndex ::
               LaneMatrix(v, l) == ReferenceRounds(LaneMatrix(initial, l), LaneOf(MsgVecs(inputs, 64 * n), l), 7)
    ensures LanesAt(j, inputs, counter, increment, n + 1, FoldVecs(v))
  {
    hide ReferenceRounds, LaneMatrix, LaneOf, InitialVecs, MsgVecs, FoldVecs, CounterVec, CounterAt, HashChain;
    forall l: LaneIndex
      ensures LaneOf(FoldVecs(v), l) == HashChain(j, inputs[l], CounterAt(counter, increment, l), n + 1)
    {
      LaneCompress(j, inputs, counter, increment, n, h, low, high, v, l);
    }
  }

  // ----- writing the results

  /** storeu_128 */
  function StoreVec(v: V4): (b: seq<Byte>)
    ensures |b| == 16
  {
    StoreWords([v.x0, v.x1, v.x2, v.x3])
  }

  /** After the last transposition, vectors `l` and `l + 4` hold the output of lane `l`. */
  lemma StoredLane(h: Vecs8, l: LaneIndex)
    ensures StoreVec(Nth(TransposeVecs(Quad(h[0], h[1], h[2], h[3])), l))
            + StoreVec(Nth(TransposeVecs(Quad(h[4], h[5], h[6], h[7])), l))
            == StoreWords(LaneOf(h, l))
  {
    var a := Nth(TransposeVecs(Quad(h[0], h[1], h[2], h[3])), l);
    var b := Nth(TransposeVecs(Quad(h[4], h[5], h[6], h[7])), l);
    hide StoreWords;
    StoreWordsConcat([a.x0, a.x1, a.x2, a.x3], [b.x0, b.x1, b.x2, b.x3]);
    assert [a.x0, a.x1, a.x2, a.x3] + [b.x0, b.x1, b.x2, b.x3] == LaneOf(h, l);
  }

  /** The 32 bytes written for lane `l`. */
  function LaneBytes(h: Vecs8, l: LaneIndex): (b: seq<Byte>)
    ensures |b| == 32
  {
    StoreVec(Nth(TransposeVecs(Quad(h[0], h[1], h[2], h[3])), l)) +
    StoreVec(Nth(TransposeVecs(Quad(h[4], h[5], h[6], h[7])), l))
  }

  lemma LaneResult(j: Job, inputs: seq<seq<Byte>>, counter: nat, increment: bool, h: Vecs8, l: LaneIndex)
    requires FourJobs(j, inputs) && LanesAt(j, inputs, counter, increment, j.blocks, h)
    ensures LaneBytes(h, l) == HashOneCV(j, inputs[l], CounterAt(counter, increment, l))
  {
    hide CounterAt, HashChain, StoreWords, LaneOf, StoreVec, TransposeVecs, Nth;
    StoredLane(h, l);
  }

  /** blake3_hash4_neon */
  method Hash4(j: Job, inputs: seq<seq<Byte>>, counter: nat, increment: bool, out: array<Byte>, at: nat)
    requires FourJobs(j, inputs) && at + 128 <= out.Length
    modifies out
    ensures BatchFrom(j, inputs, counter, increment, 0, CVsAt(out[..], at, 4))
    ensures out[..at] == old(out[..at]) && out[at + 128..] == old(out[at + 128..])
  {
    hide LanesAt, LaneBytes, CVsAt, HashOneCV, CounterAt;
    var h := HashBlocks4(j, inputs, counter, increment);
    LaneResult(j, inputs, counter, increment, h, 0);
    LaneResult(j, inputs, counter, increment, h, 1);
    LaneResult(j, inputs, counter, increment, h, 2);
    LaneResult(j, inputs, counter, increment, h, 3);
    WriteBytes(out, at, LaneBytes(h, 0) + LaneBytes(h, 1) + LaneBytes(h, 2) + LaneBytes(h, 3));
    FourCVs(out[..], at, LaneBytes(h, 0), LaneBytes(h, 1), LaneBytes(h, 2), LaneBytes(h, 3));
  }

  lemma FourCVs(bytes: seq<Byte>, at: nat, r0: seq<Byte>, r1: seq<Byte>, r2: seq<Byte>, r3: seq<Byte>)
    requires |r0| == |r1| == |r2| == |r3| == 32 && at + 128 <= |bytes|
    requires bytes[at..at + 128] == r0 + r1 + r2 + r3
    ensures CVsAt(bytes, at, 4) == [r0, r1, r2, r3]
  {
    var all := r0 + r1 + r2 + r3;
    assert all[0..32] == r0 && all[32..64] == r1 && all[64..96] == r2 && all[96..128] == r3;
    SliceSlice(bytes, at, at + 128, 0, 32);
    SliceSlice(bytes, at, at + 128, 32, 64);
    SliceSlice(bytes, at, at + 128, 64, 96);
    SliceSlice(bytes, at, at + 128, 96, 128);
  }

  /** blake3_hash_many_neon: the same values, in the same places, as blake3_hash_many_portable. */
  method HashManyNeon(j: Job, inputs: seq<seq<Byte>>, counter: nat, increment: bool, out: array<Byte>, at: nat)
    requires j.compress == CompressWords
    requires forall i | 0 <= i < |inputs| :: 64 * j.blocks <= |inputs[i]|
    requires counter < TWO_64 && at + 32 * |inputs| <= out.Length
    modifies out
    ensures CVsAt(out[..], at, |inputs|) == HashManyCVs(j, inputs, counter, increment)
    ensures out[..at] == old(out[..at]) && out[at + 32 * |inputs|..] == old(out[at + 32 * |inputs|..])
  {
    hide Written, CVsAt, HashManyCVs, BatchFrom;
    ghost var initial := out[..];
    WrittenStart(j, inputs, counter, increment, initial, at);
    var n, c := 0, counter;
    while |inputs| - n >= 4
      invariant 0 <= n <= |inputs| && c == CounterAt(counter, increment, n)
      invariant Written(j, inputs, counter, increment, out[..], initial, at, n)
    {
      ghost var before := out[..];
      Hash4(j, inputs[n..n + 4], c, increment, out, at + 32 * n);
      ShiftBatch(j, inputs, counter, increment, n, c, CVsAt(out[..], at + 32 * n, 4));
      WrittenStep(j, inputs, counter, increment, before, out[..], initial, at, n, 4);
      if increment {
        CounterStep(counter, n, 4);
        c := (c + 4) % TWO_64;
      }
      n := n + 4;
    }
    HashRest(j, inputs, counter, increment, c, out, initial, at, n);
    WrittenEnd(j, inputs, counter, increment, out[..], initial, at);
  }

  /** Four inputs hashed from the stepped counter are the next four of the whole batch. */
  lemma ShiftBatch(j: Job, inputs: seq<seq<Byte>>, counter: nat, increment: bool, n: nat, c: nat, cvs: seq<CV>)
    requires forall i | 0 <= i < |inputs| :: 64 * j.blocks <= |inputs[i]|
    requires n + 4 <= |inputs| && |cvs| == 4 && c == CounterAt(counter, increment, n)
    requires BatchFrom(j, inputs[n..n + 4], c, increment, 0, cvs)
    ensures BatchFrom(j, inputs, counter, increment, n, cvs)
  {
    hide HashOneCV;
    forall i | 0 <= i < 4 ensures cvs[i] == HashOneCV(j, inputs[n + i], CounterAt(counter, increment, n + i)) {
      assert inputs[n..n + 4][i] == inputs[n + i];
      if increment {
        CounterStep(counter, n, i);
      }
    }
  }
}
