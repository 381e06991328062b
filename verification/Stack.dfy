/** The chaining value stack as a value: complete subtrees of `2^e` chunks, side by side. */
module Stack {
  import opened Bits
  import opened Words
  import opened Balanced
  import opened Tree

  /** Chunks covered by subtrees of `2^e` chunks each. */
  ghost function Chunks(es: seq<nat>): nat {
    if es == [] then 0 else Chunks(es[..|es| - 1]) + Pow2(es[|es| - 1])
  }

  /** Every subtree is smaller than the one below it: nothing is left to merge. */
  ghost predicate Strict(es: seq<nat>) {
    forall i | 0 < i < |es| :: es[i - 1] > es[i]
  }

  /** The same, except that the top two may be equal: at most one merge is pending. */
  ghost predicate Lazy(es: seq<nat>) {
    forall i | 0 < i < |es| :: if i + 1 < |es| then es[i - 1] > es[i] else es[i - 1] >= es[i]
  }

  ghost predicate TopTwoEqual(es: seq<nat>) {
    |es| >= 2 && es[|es| - 2] == es[|es| - 1]
  }

  /** The stack after the top two subtrees are joined. */
  ghost function Joined(es: seq<nat>): seq<nat>
    requires |es| >= 2
  {
    es[..|es| - 2] + [es[|es| - 1] + 1]
  }

  lemma {:induction false} ChunksDivisible(es: seq<nat>, k: nat)
    requires Lazy(es) && (es != [] ==> k <= es[|es| - 1])
    ensures Chunks(es) % Pow2(k) == 0
  {
    if es != [] {
      var front, last := es[..|es| - 1], es[|es| - 1];
      ChunksDivisible(front, k);
      Pow2Divides(k, last);
      ModSum(Chunks(front), Pow2(last), Pow2(k));
    } else {
      ModSmall(0, Pow2(k));
    }
  }

  /** A fully merged stack has one entry for each set bit of the chunk count ... */
  lemma {:induction false} StrictPopCount(es: seq<nat>)
    requires Strict(es)
    ensures PopCount(Chunks(es)) == |es|
  {
    if es != [] {
      var front, last := es[..|es| - 1], es[|es| - 1];
      StrictPopCount(front);
      ChunksDivisible(front, last + 1);
      PopCountAdd(Chunks(front), last);
    }
  }

  lemma JoinedKeepsChunks(es: seq<nat>)
    requires Lazy(es) && TopTwoEqual(es)
    ensures Lazy(Joined(es)) && Chunks(Joined(es)) == Chunks(es)
  {
    var n := |es|;
    var front, j := es[..n - 1], Joined(es);
    assert front[..n - 2] == es[..n - 2] == j[..n - 2];
    assert front[n - 2] == es[n - 1];
    assert Chunks(es) == Chunks(es[..n - 2]) + Pow2(es[n - 1]) + Pow2(es[n - 1]);
  }

  /** ... and a lazy stack has more entries than set bits exactly when its top two are equal. This
      is what the popcount test of hasher_merge_cv_stack relies on. */
  lemma {:induction false} LazyPopCount(es: seq<nat>)
    requires Lazy(es)
    ensures |es| > PopCount(Chunks(es)) <==> TopTwoEqual(es)
    ensures |es| > PopCount(Chunks(es)) <==> !Strict(es)
    ensures |es| >= PopCount(Chunks(es))
    decreases |es|
  {
    if TopTwoEqual(es) {
      JoinedKeepsChunks(es);
      LazyPopCount(Joined(es));
      assert es[(|es| - 1) - 1] == es[|es| - 1];
    } else {
      assert Strict(es);
      StrictPopCount(es);
    }
  }

  /** An aligned subtree is no larger than the top of a fully merged stack, so it may be pushed. */
  lemma PushIsLazy(es: seq<nat>, k: nat)
    requires Strict(es) && Chunks(es) % Pow2(k) == 0
    ensures Lazy(es + [k]) && Chunks(es + [k]) == Chunks(es) + Pow2(k)
  {
    assert (es + [k])[..|es|] == es;
    if es != [] {
      var front, last := es[..|es| - 1], es[|es| - 1];
      if last < k {
        ChunksDivisible(front, last + 1);
        ModSmaller(Chunks(es), last + 1, k);
        ModSum(Chunks(front), Pow2(last), Pow2(last + 1));
        ModSmall(Pow2(last), Pow2(last + 1));
      }
    }
  }

  /** What lies above entry `i` is no larger than it, and smaller in a fully merged stack. */
  lemma {:induction false} AboveIsSmaller(es: seq<nat>, i: nat)
    requires Lazy(es) && i < |es|
    ensures Chunks(es[..i + 1]) == Chunks(es[..i]) + Pow2(es[i])
    ensures Chunks(es[..i + 1]) <= Chunks(es) <= Chunks(es[..i + 1]) + Pow2(es[i])
    ensures Strict(es) ==> Chunks(es) < Chunks(es[..i + 1]) + Pow2(es[i])
    decreases |es| - i
  {
    assert es[..i + 1][..i] == es[..i];
    if i + 1 == |es| {
      assert es[..i + 1] == es;
    } else {
      AboveIsSmaller(es, i + 1);
      assert es[(i + 1) - 1] >= es[i + 1];
      Pow2Monotonic(es[i + 1], es[i]);
      if i + 2 == |es| {
        assert es[..i + 2] == es;
      }
    }
  }

  /** Fewer than `2^54` chunks never need a fifty-fifth entry, even while a merge is pending. */
  lemma StackBound(es: seq<nat>, k: nat)
    requires Strict(es) && Chunks(es) + Pow2(k) < Pow2(54)
    ensures |es + [k]| <= 54
  {
    StrictPopCount(es);
    PopCountBound(Chunks(es), 54);
  }

  /** Every entry starts at a multiple of its own size. */
  lemma EntryIsAligned(es: seq<nat>, i: nat)
    requires Lazy(es) && i < |es|
    ensures Chunks(es[..i]) % Pow2(es[i]) == 0
  {
    var below := es[..i];
    assert forall j | 0 <= j < i :: below[j] == es[j];
    if i > 0 {
      assert es[i - 1] >= es[i];
    }
    ChunksDivisible(below, es[i]);
  }

  /** An entry is smaller than the whole stack, unless it is alone. */
  lemma EntryIsPart(es: seq<nat>, i: nat)
    requires Lazy(es) && i < |es| && |es| >= 2
    ensures Pow2(es[i]) < Chunks(es)
  {
    AboveIsSmaller(es, i);
    AboveIsSmaller(es, if i == 0 then 1 else i - 1);
  }

  // ----- what the entries hold

  /** Entry `i` is the chaining value of the `i`-th subtree of `data`. */
  ghost predicate Pieces(m: Mode, data: seq<Byte>, es: seq<nat>, cvs: seq<CV>) {
    && |cvs| == |es|
    && 1024 * Chunks(es) <= |data|
    && forall i | 0 <= i < |es| :: PieceAt(m, data, es, cvs[i], i)
  }

  ghost predicate PieceAt(m: Mode, data: seq<Byte>, es: seq<nat>, cv: CV, i: nat)
    requires i < |es|
  {
    var lo, hi := 1024 * Chunks(es[..i]), 1024 * Chunks(es[..i + 1]);
    lo <= hi <= |data| && cv == TreeCV(m, data[lo..hi], Chunks(es[..i]))
  }

  /** More data does not change what the entries hold. */
  lemma PiecesMoreData(m: Mode, data: seq<Byte>, more: seq<Byte>, es: seq<nat>, cvs: seq<CV>)
    requires Pieces(m, data, es, cvs)
    ensures Pieces(m, data + more, es, cvs)
  {
    hide TreeCV, Chunks;
    forall i | 0 <= i < |es| ensures PieceAt(m, data + more, es, cvs[i], i) {
      assert PieceAt(m, data, es, cvs[i], i);
      var lo, hi := 1024 * Chunks(es[..i]), 1024 * Chunks(es[..i + 1]);
      assert (data + more)[lo..hi] == data[lo..hi];
    }
  }

  lemma PieceAtPrefix(m: Mode, data: seq<Byte>, es: seq<nat>, es': seq<nat>, cv: CV, i: nat)
    requires i < |es| && i < |es'| && es[..i + 1] == es'[..i + 1] && PieceAt(m, data, es, cv, i)
    ensures PieceAt(m, data, es', cv, i)
  {
    assert es[..i] == es[..i + 1][..i] && es'[..i] == es'[..i + 1][..i];
  }

  /** Pushing the value of the next subtree. */
  lemma PiecesPush(m: Mode, data: seq<Byte>, es: seq<nat>, cvs: seq<CV>, k: nat, cv: CV)
    requires Pieces(m, data, es, cvs)
    requires 1024 * (Chunks(es) + Pow2(k)) <= |data|
    requires cv == TreeCV(m, data[1024 * Chunks(es)..1024 * (Chunks(es) + Pow2(k))], Chunks(es))
    ensures Pieces(m, data, es + [k], cvs + [cv])
  {
    hide TreeCV;
    var es', cvs' := es + [k], cvs + [cv];
    assert es'[..|es|] == es && es'[..|es| + 1] == es';
    forall i | 0 <= i < |es'| ensures PieceAt(m, data, es', cvs'[i], i) {
      if i < |es| {
        assert PieceAt(m, data, es, cvs[i], i);
        assert es'[..i + 1] == es[..i + 1];
        PieceAtPrefix(m, data, es, es', cvs[i], i);
      }
    }
  }

  /** Replacing the top two values by their parent: the parent covers both subtrees. */
  lemma PiecesJoin(m: Mode, data: seq<Byte>, es: seq<nat>, cvs: seq<CV>)
    requires Pieces(m, data, es, cvs) && Lazy(es) && TopTwoEqual(es)
    ensures Pieces(m, data, Joined(es), cvs[..|es| - 2] + [ParentCV(m, cvs[|es| - 2], cvs[|es| - 1])])
  {
    hide TreeCV, ParentCV;
    var n := |es|;
    var j := Joined(es);
    var cvs' := cvs[..n - 2] + [ParentCV(m, cvs[n - 2], cvs[n - 1])];
    JoinedKeepsChunks(es);
    forall i | 0 <= i < n - 1 ensures PieceAt(m, data, j, cvs'[i], i) {
      if i < n - 2 {
        assert PieceAt(m, data, es, cvs[i], i);
        assert j[..i + 1] == es[..i + 1];
        PieceAtPrefix(m, data, es, j, cvs[i], i);
      } else {
        JoinTop(m, data, es, cvs);
      }
    }
  }

  lemma JoinTop(m: Mode, data: seq<Byte>, es: seq<nat>, cvs: seq<CV>)
    requires Pieces(m, data, es, cvs) && Lazy(es) && TopTwoEqual(es)
    ensures PieceAt(m, data, Joined(es), ParentCV(m, cvs[|es| - 2], cvs[|es| - 1]), |es| - 2)
  {
    hide TreeCV, ParentCV, Pow2;
    var n := |es|;
    var j, k := Joined(es), es[n - 1];
    assert PieceAt(m, data, es, cvs[n - 2], n - 2) && PieceAt(m, data, es, cvs[n - 1], n - 1);
    JoinedKeepsChunks(es);
    assert j[..n - 2] == es[..n - 2] && j[..n - 1] == j && es[..n] == es && es[..n - 1][..n - 2] == es[..n - 2];
    var lo, mid, hi := Chunks(es[..n - 2]), Chunks(es[..n - 1]), Chunks(es);
    assert mid == lo + Pow2(k) && hi == mid + Pow2(k);
    JoinTwo(m, data, lo, mid, hi, k);
  }

  /** Two adjacent subtrees of `2^k` chunks, under their parent, are one of `2^(k + 1)`. */
  lemma JoinTwo(m: Mode, data: seq<Byte>, lo: nat, mid: nat, hi: nat, k: nat)
    requires 1024 * hi <= |data| && mid == lo + Pow2(k) && hi == mid + Pow2(k)
    ensures ParentCV(m, TreeCV(m, data[1024 * lo..1024 * mid], lo), TreeCV(m, data[1024 * mid..1024 * hi], mid))
            == TreeCV(m, data[1024 * lo..1024 * hi], lo)
  {
    hide TreeCV, ParentCV, Pow2;
    var a, b, c := 1024 * lo, 1024 * mid, 1024 * hi;
    JoinCV(m, data[a..c], lo, k, b - a);
    SliceSlice(data, a, c, 0, b - a);
    SliceSlice(data, a, c, b - a, c - a);
    assert data[a..c][..b - a] == data[a..b] && data[a..c][b - a..] == data[b..c];
  }
}
