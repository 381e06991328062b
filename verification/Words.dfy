/** Bytes and 32-bit words, and little-endian conversion between them (blake3_impl.h). */
module Words {
  type Byte = b: nat | b < 0x100
  type Word = w: nat | w < 0x1_0000_0000

  /** load32 */
  function Load32(b0: Byte, b1: Byte, b2: Byte, b3: Byte): Word {
    b0 + 0x100 * b1 + 0x1_0000 * b2 + 0x100_0000 * b3
  }

  /** store32 */
  function Store32(w: Word): (b: seq<Byte>)
    ensures |b| == 4
  {
    [w % 0x100, w / 0x100 % 0x100, w / 0x1_0000 % 0x100, w / 0x100_0000]
  }

  function StoreWords(ws: seq<Word>): (b: seq<Byte>)
    ensures |b| == 4 * |ws|
  {
    if ws == [] then [] else Store32(ws[0]) + StoreWords(ws[1..])
  }

  function LoadWords(b: seq<Byte>): (ws: seq<Word>)
    requires |b| % 4 == 0
    ensures |ws| == |b| / 4
  {
    if b == [] then [] else [Load32(b[0], b[1], b[2], b[3])] + LoadWords(b[4..])
  }

  lemma {:induction false} LoadWordsAt(b: seq<Byte>, i: nat)
    requires |b| % 4 == 0 && 4 * i < |b|
    ensures LoadWords(b)[i] == Load32(b[4 * i], b[4 * i + 1], b[4 * i + 2], b[4 * i + 3])
  {
    if i > 0 {
      LoadWordsAt(b[4..], i - 1);
    }
  }

  lemma LoadStore32(w: Word)
    ensures var b := Store32(w); Load32(b[0], b[1], b[2], b[3]) == w
  {
    var q := w / 0x100;
    assert w / 0x1_0000 == q / 0x100 && w / 0x100_0000 == q / 0x1_0000;
    assert q == q % 0x100 + 0x100 * (q / 0x100 % 0x100) + 0x1_0000 * (q / 0x1_0000);
  }

  lemma LowByte(b: Byte, q: nat)
    ensures (b + 0x100 * q) % 0x100 == b && (b + 0x100 * q) / 0x100 == q
  {
  }

  lemma Shifts(w: nat)
    ensures w / 0x1_0000 == w / 0x100 / 0x100 && w / 0x100_0000 == w / 0x1_0000 / 0x100
  {
  }

  /** The bytes of a word are its digits in base 256, the lowest first. */
  lemma StoreLoad32(b0: Byte, b1: Byte, b2: Byte, b3: Byte)
    ensures Store32(Load32(b0, b1, b2, b3)) == [b0, b1, b2, b3]
  {
    Shifts(Load32(b0, b1, b2, b3));
    LowByte(b0, b1 + 0x100 * b2 + 0x1_0000 * b3);
    LowByte(b1, b2 + 0x100 * b3);
    LowByte(b2, b3);
  }

  /** Storing words and loading them back is the identity. */
  lemma {:induction false} LoadStoreWords(ws: seq<Word>)
    ensures LoadWords(StoreWords(ws)) == ws
  {
    if ws != [] {
      hide Store32, Load32;
      var b, first := StoreWords(ws), Store32(ws[0]);
      LoadStore32(ws[0]);
      assert b[4..] == StoreWords(ws[1..]);
      assert b[0] == first[0] && b[1] == first[1] && b[2] == first[2] && b[3] == first[3];
      LoadStoreWords(ws[1..]);
    }
  }

  /** Storing is a homomorphism, so a word array may be stored piecewise. */
  lemma {:induction false} StoreWordsConcat(a: seq<Word>, b: seq<Word>)
    ensures StoreWords(a + b) == StoreWords(a) + StoreWords(b)
  {
    if a == [] {
      assert a + b == b;
    } else {
      assert (a + b)[1..] == a[1..] + b;
      StoreWordsConcat(a[1..], b);
    }
  }

  lemma {:induction false} StoreWordsAt(ws: seq<Word>, i: nat, k: nat)
    requires i < |ws| && k < 4
    ensures StoreWords(ws)[4 * i + k] == Store32(ws[i])[k]
  {
    hide Store32;
    if i > 0 {
      StoreWordsAt(ws[1..], i - 1, k);
    }
  }

  lemma SliceSlice<T>(s: seq<T>, lo: nat, hi: nat, i: nat, j: nat)
    requires lo <= hi <= |s| && i <= j <= hi - lo
    ensures s[lo..hi][i..j] == s[lo + i..lo + j]
  {
    forall k | 0 <= k < j - i ensures s[lo..hi][i..j][k] == s[lo + i..lo + j][k] {
      assert s[lo..hi][i..j][k] == s[lo..hi][i + k];
    }
  }
}
