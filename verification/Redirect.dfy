/** Redirection of the standard descriptors in the child process (spawn_stubs.c), over the descriptor
    operations of section 2.14 of POSIX.1-2017 System Interfaces. */
module Redirect {

  /** An open descriptor: the open file description it refers to, and its close-on-exec flag. */
  datatype Descriptor = Descriptor(target: nat, cloexec: bool)

  type Table = map<int, Descriptor>

  /** The lowest unused descriptor from `from` up to the limit, or -1. */
  function LowestFree(table: Table, limit: int, from: int): int
    decreases limit - from
  {
    if from >= limit then -1 else if from !in table then from else LowestFree(table, limit, from + 1)
  }

  /** How many descriptors from `from` up to the limit are unused. */
  ghost function FreeCount(table: Table, limit: int, from: int): nat
    decreases limit - from
  {
    if from >= limit then 0 else (if from in table then 0 else 1) + FreeCount(table, limit, from + 1)
  }

  lemma {:induction false} LowestFreeIsFree(table: Table, limit: int, from: int)
    requires from >= 0
    ensures var r := LowestFree(table, limit, from);
            && (r == -1 <==> FreeCount(table, limit, from) == 0)
            && (r != -1 ==> from <= r < limit && r !in table)
            && forall x | from <= x < (if r == -1 then limit else r) :: x in table
    decreases limit - from
  {
    if from < limit {
      LowestFreeIsFree(table, limit, from + 1);
    }
  }

  /** The count is the size of the set of unused descriptors. */
  lemma {:induction false} FreeCountIsSize(table: Table, limit: int, from: int)
    ensures FreeCount(table, limit, from) == |set x | from <= x < limit && x !in table|
    decreases limit - from
  {
    var free := set x | from <= x < limit && x !in table;
    if from >= limit {
      assert free == {};
    } else {
      var rest := set x | from + 1 <= x < limit && x !in table;
      FreeCountIsSize(table, limit, from + 1);
      assert free == if from in table then rest else rest + {from};
    }
  }

  /** Opening a descriptor outside the range changes neither. */
  lemma {:induction false} OpenOutside(table: Table, limit: int, from: int, fd: int, d: Descriptor)
    requires fd < from || fd in table
    ensures LowestFree(table[fd := d], limit, from) == LowestFree(table, limit, from)
    ensures FreeCount(table[fd := d], limit, from) == FreeCount(table, limit, from)
    decreases limit - from
  {
    if from < limit {
      OpenOutside(table, limit, from + 1, fd, d);
    }
  }

  lemma {:induction false} OpenInside(table: Table, limit: int, from: int, fd: int, d: Descriptor)
    requires from <= fd < limit && fd !in table
    ensures FreeCount(table[fd := d], limit, from) + 1 == FreeCount(table, limit, from)
    decreases limit - from
  {
    if from == fd {
      OpenOutside(table, limit, from + 1, fd, d);
    } else {
      OpenInside(table, limit, from + 1, fd, d);
    }
  }

  /** The first `n` unused descriptors from `from` up to the limit, or as many as there are. */
  function FirstFree(table: Table, limit: int, from: int, n: nat): seq<int>
    decreases limit - from
  {
    if from >= limit || n == 0 then []
    else if from in table then FirstFree(table, limit, from + 1, n)
    else [from] + FirstFree(table, limit, from + 1, n - 1)
  }

  /** Once the first `n` are taken, the lowest unused descriptor is the next one. */
  lemma {:induction false} NextFree(before: Table, now: Table, limit: int, from: int, n: nat)
    requires from >= 0
    requires forall x | x >= from :: x in now <==> x in before || x in FirstFree(before, limit, from, n)
    ensures var r := LowestFree(now, limit, from);
            FirstFree(before, limit, from, n + 1) == FirstFree(before, limit, from, n) + if r == -1 then [] else [r]
    decreases limit - from
  {
    if from < limit {
      FirstFreeBounds(before, limit, from + 1, n);
      if from in before {
        assert from in now;
        NextFree(before, now, limit, from + 1, n);
      } else if n > 0 {
        var rest := FirstFree(before, limit, from + 1, n - 1);
        assert FirstFree(before, limit, from, n) == [from] + rest;
        assert from in now;
        NextFree(before, now, limit, from + 1, n - 1);
      } else {
        assert from !in now;
      }
    }
  }

  lemma {:induction false} FirstFreeBounds(table: Table, limit: int, from: int, n: nat)
    ensures forall x | x in FirstFree(table, limit, from, n) :: from <= x < limit && x !in table
    decreases limit - from
  {
    if from < limit && n > 0 {
      FirstFreeBounds(table, limit, from + 1, if from in table then n else n - 1);
    }
  }

  /** They are in increasing order ... */
  lemma {:induction false} FirstFreeAscends(table: Table, limit: int, from: int, n: nat, i: nat, j: nat)
    requires i < j < |FirstFree(table, limit, from, n)|
    ensures var s := FirstFree(table, limit, from, n); s[i] < s[j]
    decreases limit - from
  {
    if from in table {
      FirstFreeAscends(table, limit, from + 1, n, i, j);
    } else {
      var rest := FirstFree(table, limit, from + 1, n - 1);
      FirstFreeBounds(table, limit, from + 1, n - 1);
      assert rest[j - 1] in rest;
      if i > 0 {
        FirstFreeAscends(table, limit, from + 1, n - 1, i - 1, j - 1);
      }
    }
  }

  /** ... with every unused descriptor below one of them among them ... */
  lemma {:induction false} FirstFreeIsLowest(table: Table, limit: int, from: int, n: nat, y: int, x: int)
    requires y in FirstFree(table, limit, from, n) && from <= x < y && x !in table
    ensures x in FirstFree(table, limit, from, n)
    decreases limit - from
  {
    if from in table {
      FirstFreeIsLowest(table, limit, from + 1, n, y, x);
    } else if x != from {
      FirstFreeIsLowest(table, limit, from + 1, n - 1, y, x);
    }
  }

  /** ... and fewer than `n` only if these are all. */
  lemma {:induction false} FirstFreeSize(table: Table, limit: int, from: int, n: nat)
    ensures var c := FreeCount(table, limit, from); |FirstFree(table, limit, from, n)| == if c < n then c else n
    decreases limit - from
  {
    if from < limit && n > 0 {
      FirstFreeSize(table, limit, from + 1, if from in table then n else n - 1);
    }
  }

  /** Descriptor `k` can be copied: it is open, or one of the earlier copies gets its number. */
  ghost predicate CanCopy(table: Table, limit: int, std: seq<int>, k: nat)
    requires k < |std|
  {
    std[k] in table || std[k] in FirstFree(table, limit, 3, k)
  }

  /** A descriptor that is not open can pass the copying loop: here 3 is not open, but it is the number that the
      copy of 0 gets. */
  lemma ClosedCanPass()
    ensures var d := Descriptor(7, false); var table, std := map[0 := d, 1 := d, 2 := d], [0, 3, 1];
            && std[1] !in table && FreeCount(table, 9, 3) >= 3 && forall k | 0 <= k < 3 :: CanCopy(table, 9, std, k)
  {
    var d := Descriptor(7, false);
    var table, std := map[0 := d, 1 := d, 2 := d], [0, 3, 1];
    assert FirstFree(table, 9, 3, 1) == [3] + FirstFree(table, 9, 4, 0);
    assert FreeCount(table, 9, 3) == 1 + FreeCount(table, 9, 4) && FreeCount(table, 9, 4) == 1 + FreeCount(table, 9, 5)
      && FreeCount(table, 9, 5) == 1 + FreeCount(table, 9, 6);
  }

  /** The result of `safe_dup`, and the table it leaves. */
  function SafeDupResult(table: Table, limit: int, fd: int): int {
    if fd in table then LowestFree(table, limit, 3) else -1
  }

  function WithDup(table: Table, fd: int, copy: int): Table {
    if copy == -1 || fd !in table then table else table[copy := Target(table, fd)]
  }

  /** `copy` has become a descriptor for the same open file description as `fd`, not closed by exec, and
      nothing else has changed. */
  ghost predicate IsCopy(before: Table, after: Table, fd: int, copy: int) {
    && fd in before && copy in after
    && after[copy].target == before[fd].target && !after[copy].cloexec
    && forall x | x != copy :: (x in after <==> x in before) && (x in before ==> after[x] == before[x])
  }

  /** A copy of an open descriptor, with close-on-exec cleared. */
  function Target(table: Table, fd: int): Descriptor
    requires fd in table
  {
    Descriptor(table[fd].target, false)
  }

  /** The table in which 0, 1 and 2 refer to what the three given descriptors referred to, all at
      once: the given descriptors are closed, every other descriptor is kept. */
  function Redirected(table: Table, std: seq<int>): Table
    requires |std| == 3 && AllOpen(table, std)
  {
    (map fd | fd in table && !(0 <= fd < 3) && fd !in std :: table[fd])
    [0 := Target(table, std[0])][1 := Target(table, std[1])][2 := Target(table, std[2])]
  }

  /** 0, 1 and 2 are open on what the three given descriptors were open on and stay open over exec; of the
      others exactly the given ones are closed, and the rest are as they were. */
  ghost predicate Replaced(before: Table, after: Table, std: seq<int>)
    requires |std| == 3
  {
    && (forall k | 0 <= k < 3 ::
          && std[k] in before && k in after
          && after[k].target == before[std[k]].target && !after[k].cloexec)
    && (forall fd | fd < 0 || fd >= 3 :: fd in after <==> fd in before && fd !in std)
    && (forall fd | fd in after && fd >= 3 :: fd in before && after[fd] == before[fd])
  }

  lemma RedirectedReplaces(table: Table, std: seq<int>)
    requires |std| == 3 && AllOpen(table, std)
    ensures Replaced(table, Redirected(table, std), std)
  {
  }

  /** The descriptors of the child. */
  class Process {
    const limit: int
    var table: Table

    ghost predicate Valid()
      reads this
    {
      forall fd | fd in table :: 0 <= fd < limit
    }

    constructor (limit: int, table: Table)
      requires forall fd | fd in table :: 0 <= fd < limit
      ensures Valid() && this.limit == limit && this.table == table
    {
      this.limit := limit;
      this.table := table;
    }

    /** dup: a new descriptor with close-on-exec cleared, or -1. */
    method Dup(fd: int) returns (r: int)
      requires Valid()
      modifies this
      ensures Valid() && r == (if fd in old(table) then LowestFree(old(table), limit, 0) else -1)
      ensures table == WithDup(old(table), fd, r)
      ensures r != -1 ==> IsCopy(old(table), table, fd, r) && r !in old(table)
      ensures r != -1 ==> forall x | 0 <= x < r :: x in old(table)
    {
      LowestFreeIsFree(table, limit, 0);
      r := if fd in table then LowestFree(table, limit, 0) else -1;
      if r != -1 {
        table := table[r := Target(table, fd)];
      }
    }

    /** close; the error for a descriptor that is not open is ignored by the callers. */
    method Close(fd: int)
      requires Valid()
      modifies this
      ensures Valid() && table == old(table) - {fd}
    {
      table := table - {fd};
    }

    /** dup2: equal descriptors are left alone, otherwise the copy has close-on-exec cleared. */
    method Dup2(fd: int, copy: int) returns (r: int)
      requires Valid()
      modifies this
      ensures Valid() && r == (if fd in old(table) && 0 <= copy < limit then copy else -1)
      ensures table == if r == -1 || fd == copy then old(table) else old(table)[copy := Target(old(table), fd)]
      ensures r != -1 && fd != copy ==> IsCopy(old(table), table, fd, copy)
    {
      if fd in table && 0 <= copy < limit {
        r := copy;
        if fd != copy {
          table := table[copy := Target(table, fd)];
        }
      } else {
        r := -1;
      }
    }

    /** safe_dup: the temporary low descriptors that the recursion holds are all closed again. */
    method SafeDup(fd: int) returns (r: int)
      requires Valid()
      modifies this
      ensures Valid() && r == SafeDupResult(old(table), limit, fd)
      ensures table == WithDup(old(table), fd, r)
      ensures r != -1 ==> r >= 3 && IsCopy(old(table), table, fd, r) && r !in old(table)
      ensures r != -1 ==> forall x | 3 <= x < r :: x in old(table)
      decreases FreeCount(table, 3, 0)
    {
      ghost var before := table;
      LowestFreeIsFree(table, limit, 0);
      LowestFreeIsFree(table, limit, 3);
      var copy := Dup(fd);
      if copy == -1 || copy >= 3 {
        if fd in before {
          SkipLow(before, limit, 0);
        }
        return copy;
      }
      OpenOutside(before, limit, 3, copy, table[copy]);
      OpenInside(before, 3, 0, copy, table[copy]);
      r := SafeDup(fd);
      Close(copy);
    }

    /** The first loop: a copy above 2 of each given descriptor. It succeeds exactly when three numbers above 2 are
        free and each given descriptor is open or the number of an earlier copy; the copies get the first three free
        numbers. */
    method DupAll(std: seq<int>) returns (ok: bool, tmp: seq<int>)
      requires Valid() && |std| == 3
      modifies this
      ensures Valid()
      ensures ok <==>
              FreeCount(old(table), limit, 3) >= 3 && forall k | 0 <= k < 3 :: CanCopy(old(table), limit, std, k)
      ensures ok ==> |tmp| == 3 && tmp == FirstFree(old(table), limit, 3, 3) && Copies(old(table), table, std, tmp)
    {
      hide Copies, FirstFree, CanCopy, FreeCount, WithDup, SafeDupResult;
      ok, tmp := true, [];
      ghost var before := table;
      ProgressStart(before, limit, std);
      while |tmp| < 3
        invariant |tmp| <= 3 && Valid() && Progress(before, table, limit, std, tmp)
      {
        ProgressStep(before, table, limit, std, tmp);
        var copy := SafeDup(std[|tmp|]);
        if copy == -1 {
          return false, tmp;
        }
        tmp := tmp + [copy];
      }
    }

    /** The second loop: the given descriptors are closed. */
    method CloseAll(std: seq<int>)
      requires Valid() && |std| == 3
      modifies this
      ensures Valid() && table == old(table) - {std[0], std[1], std[2]}
    {
      var fd := 0;
      while fd < 3
        invariant 0 <= fd <= 3 && Valid()
        invariant table == old(table) - (set k | 0 <= k < fd :: std[k])
      {
        Close(std[fd]);
        fd := fd + 1;
      }
    }

    /** The last loop: each copy is moved to its place and closed. It fails if a copy is gone. */
    method MoveAll(tmp: seq<int>) returns (ok: bool)
      requires Valid() && |tmp| == 3 && limit >= 3
      requires forall k | 0 <= k < 3 :: tmp[k] >= 3
      requires forall j, k | 0 <= j < k < 3 :: tmp[j] != tmp[k]
      modifies this
      ensures Valid()
      ensures ok <==> forall k | 0 <= k < 3 :: tmp[k] in old(table)
      ensures ok ==> table == Moved(old(table), tmp, 3)
    {
      ghost var before := table;
      var fd := 0;
      while fd < 3
        invariant 0 <= fd <= 3 && Valid()
        invariant forall k | 0 <= k < fd :: tmp[k] in before
        invariant table == Moved(before, tmp, fd)
      {
        MovedKeeps(before, tmp, fd, fd);
        var r := Dup2(tmp[fd], fd);
        if r == -1 {
          return false;
        }
        Close(tmp[fd]);
        fd := fd + 1;
      }
      ok := true;
    }

    /** The redirection part of subprocess. It fails exactly when a given descriptor is not open or
        fewer than three descriptors above 2 are free. */
    method RedirectStd(std: seq<int>) returns (ok: bool)
      requires Valid() && |std| == 3
      modifies this
      ensures Valid()
      ensures ok <==> AllOpen(old(table), std) && FreeCount(old(table), limit, 3) >= 3
      ensures ok ==> table == Redirected(old(table), std)
      ensures ok ==> Replaced(old(table), table, std)
    {
      ghost var before := table;
      var tmp;
      ok, tmp := DupAll(std);
      if !ok {
        return;
      }
      ghost var copied := table;
      CloseAll(std);
      ok := MoveAll(tmp);
      if AllOpen(before, std) {
        MovedIsRedirected(before, copied, table, std, tmp);
        RedirectedReplaces(before, std);
      }
    }
  }

  ghost predicate AllOpen(table: Table, std: seq<int>)
    requires |std| == 3
  {
    std[0] in table && std[1] in table && std[2] in table
  }

  /** The first `n` copies moved to 0, 1, 2 and closed. */
  ghost function Moved(table: Table, tmp: seq<int>, n: nat): Table
    requires n <= |tmp|
  {
    if n == 0 then table
    else if tmp[n - 1] !in table then Moved(table, tmp, n - 1)
    else Moved(table, tmp, n - 1)[n - 1 := Target(table, tmp[n - 1])] - {tmp[n - 1]}
  }

  /** Moving the earlier copies does not touch the later ones. */
  lemma {:induction false} MovedKeeps(table: Table, tmp: seq<int>, n: nat, k: nat)
    requires n <= k < |tmp| == 3
    requires forall k | 0 <= k < 3 :: tmp[k] >= 3
    requires forall j, k | 0 <= j < k < 3 :: tmp[j] != tmp[k]
    ensures tmp[k] in Moved(table, tmp, n) <==> tmp[k] in table
    ensures tmp[k] in table ==> Moved(table, tmp, n)[tmp[k]] == table[tmp[k]]
  {
    if n > 0 {
      MovedKeeps(table, tmp, n - 1, k);
    }
  }

  lemma MovedShape(before: Table, copied: Table, std: seq<int>, tmp: seq<int>)
    requires |std| == 3 && AllOpen(before, std) && |tmp| == 3 && Copies(before, copied, std, tmp)
    ensures var closed := copied - {std[0], std[1], std[2]};
            Moved(closed, tmp, 3)
            == ((closed[0 := Target(before, std[0])] - {tmp[0]})
                [1 := Target(before, std[1])] - {tmp[1]})
               [2 := Target(before, std[2])] - {tmp[2]}
  {
    var closed := copied - {std[0], std[1], std[2]};
    assert closed[tmp[0]] == Target(before, std[0]) && closed[tmp[1]] == Target(before, std[1]);
    assert closed[tmp[2]] == Target(before, std[2]);
    assert Moved(closed, tmp, 1) == closed[0 := Target(before, std[0])] - {tmp[0]};
    assert Moved(closed, tmp, 2)
           == (closed[0 := Target(before, std[0])] - {tmp[0]})[1 := Target(before, std[1])] - {tmp[1]};
  }

  lemma InTriple(s: seq<int>, x: int)
    requires |s| == 3
    ensures x in s <==> x == s[0] || x == s[1] || x == s[2]
  {
  }

  lemma MovedIsRedirected(before: Table, copied: Table, moved: Table, std: seq<int>, tmp: seq<int>)
    requires |std| == 3 && AllOpen(before, std) && |tmp| == 3 && Copies(before, copied, std, tmp)
    requires moved == Moved(copied - {std[0], std[1], std[2]}, tmp, 3)
    ensures moved == Redirected(before, std)
  {
    MovedShape(before, copied, std, tmp);
    hide Moved;
    var r := Redirected(before, std);
    forall x ensures x in moved <==> x in r {
      InTriple(std, x);
      InTriple(tmp, x);
    }
    forall x | x in moved ensures moved[x] == r[x] {
      InTriple(std, x);
      InTriple(tmp, x);
    }
  }

  /** With 0, 1 and 2 taken, the lowest free descriptor is the lowest free one above them. */
  lemma {:induction false} SkipLow(table: Table, limit: int, from: int)
    requires 0 <= from <= 3 && (LowestFree(table, limit, from) == -1 || LowestFree(table, limit, from) >= 3)
    ensures LowestFree(table, limit, 3) == LowestFree(table, limit, from)
    decreases 3 - from
  {
    if from < 3 {
      SkipLow(table, limit, from + 1);
    }
  }

  /** `table` is `before` with fresh copies `tmp` of the first given descriptors. */
  ghost predicate Copies(before: Table, table: Table, std: seq<int>, tmp: seq<int>)
    requires |tmp| <= |std|
  {
    && FreshNumbers(before, std, tmp)
    && Extends(before, table, tmp)
    && (forall k | 0 <= k < |tmp| && std[k] in before :: table[tmp[k]] == Target(before, std[k]))
  }

  ghost predicate Extends(before: Table, table: Table, tmp: seq<int>) {
    && (forall x :: x in table <==> x in before || x in tmp)
    && (forall x | x in before :: table[x] == before[x])
  }

  lemma ExtendsStep(before: Table, now: Table, tmp: seq<int>, copy: int, d: Descriptor)
    requires Extends(before, now, tmp) && copy !in now
    ensures Extends(before, now[copy := d], tmp + [copy])
  {
    assert forall x :: x in tmp + [copy] <==> x in tmp || x == copy;
  }

  ghost predicate FreshNumbers(before: Table, std: seq<int>, tmp: seq<int>)
    requires |tmp| <= |std|
  {
    && (forall k | 0 <= k < |tmp| :: tmp[k] >= 3 && tmp[k] !in before && (std[k] in before || std[k] in tmp))
    && (forall j, k | 0 <= j < k < |tmp| :: tmp[j] != tmp[k])
  }

  lemma FreshStep(before: Table, std: seq<int>, tmp: seq<int>, copy: int)
    requires |tmp| < |std| && FreshNumbers(before, std, tmp)
    requires copy >= 3 && copy !in before && copy !in tmp && (std[|tmp|] in before || std[|tmp|] in tmp)
    ensures FreshNumbers(before, std, tmp + [copy])
  {
    var tmp' := tmp + [copy];
    forall k | 0 <= k < |tmp'|
      ensures tmp'[k] >= 3 && tmp'[k] !in before && (std[k] in before || std[k] in tmp')
    {
      FreshAt(before, std, tmp, copy, k);
    }
    forall j, k | 0 <= j < k < |tmp'|
      ensures tmp'[j] != tmp'[k]
    {
      if k == |tmp| {
        assert tmp[j] in tmp;
      }
    }
  }

  lemma FreshAt(before: Table, std: seq<int>, tmp: seq<int>, copy: int, k: nat)
    requires |tmp| < |std| && FreshNumbers(before, std, tmp) && k <= |tmp|
    requires copy >= 3 && copy !in before && (std[|tmp|] in before || std[|tmp|] in tmp)
    ensures var tmp' := tmp + [copy];
            tmp'[k] >= 3 && tmp'[k] !in before && (std[k] in before || std[k] in tmp')
  {
    InAppend(tmp, copy, std[k]);
    if k < |tmp| {
      assert tmp[k] >= 3;
    }
  }

  lemma InAppend(s: seq<int>, x: int, y: int)
    ensures y in s + [x] <==> y in s || y == x
  {
  }

  lemma OpenNow(before: Table, now: Table, std: seq<int>, tmp: seq<int>, fd: int)
    requires |tmp| <= |std| && Copies(before, now, std, tmp)
    ensures fd in now <==> fd in before || fd in tmp
  {
  }

  lemma CopiesStep(before: Table, now: Table, std: seq<int>, tmp: seq<int>, copy: int)
    requires |tmp| < |std| && Copies(before, now, std, tmp)
    requires std[|tmp|] in now && copy >= 3 && copy !in now
    ensures Copies(before, now[copy := Target(now, std[|tmp|])], std, tmp + [copy])
  {
    assert copy !in now && (copy in now <==> copy in before || copy in tmp);
    var next := std[|tmp|];
    OpenNow(before, now, std, tmp, next);
    FreshStep(before, std, tmp, copy);
    ExtendsStep(before, now, tmp, copy, Target(now, next));
    TargetsStep(before, now, std, tmp, copy);
  }

  /** The first `|tmp|` given descriptors have been copied, to the first free numbers above 2. */
  ghost predicate Progress(before: Table, table: Table, limit: int, std: seq<int>, tmp: seq<int>)
    requires |tmp| <= |std|
  {
    && Copies(before, table, std, tmp)
    && FreeCount(table, limit, 3) + |tmp| == FreeCount(before, limit, 3)
    && tmp == FirstFree(before, limit, 3, |tmp|)
    && forall k | 0 <= k < |tmp| :: CanCopy(before, limit, std, k)
  }

  lemma ProgressStart(before: Table, limit: int, std: seq<int>)
    ensures Progress(before, before, limit, std, [])
  {
  }

  /** One turn of the copying loop, as a fact about values. */
  lemma ProgressStep(before: Table, now: Table, limit: int, std: seq<int>, tmp: seq<int>)
    requires |tmp| < |std| && Progress(before, now, limit, std, tmp)
    ensures var fd := std[|tmp|]; var r := SafeDupResult(now, limit, fd);
            && (r != -1 <==> CanCopy(before, limit, std, |tmp|) && FreeCount(before, limit, 3) > |tmp|)
            && (r != -1 ==> Progress(before, WithDup(now, fd, r), limit, std, tmp + [r]))
  {
    hide FirstFree, FreeCount, LowestFree, Copies;
    var fd := std[|tmp|];
    var r := SafeDupResult(now, limit, fd);
    LowestFreeIsFree(now, limit, 3);
    OpenNow(before, now, std, tmp, fd);
    if r != -1 {
      NumbersStep(before, now, limit, std, tmp, r);
      CopiesStep(before, now, std, tmp, r);
      OpenInside(now, limit, 3, r, Target(now, fd));
    }
  }

  lemma NumbersStep(before: Table, now: Table, limit: int, std: seq<int>, tmp: seq<int>, r: int)
    requires |tmp| < |std| && Copies(before, now, std, tmp) && tmp == FirstFree(before, limit, 3, |tmp|)
    requires r == LowestFree(now, limit, 3) != -1
    ensures tmp + [r] == FirstFree(before, limit, 3, |tmp| + 1)
  {
    NextFree(before, now, limit, 3, |tmp|);
  }

  lemma TargetsStep(before: Table, now: Table, std: seq<int>, tmp: seq<int>, copy: int)
    requires |tmp| < |std| && Copies(before, now, std, tmp)
    requires std[|tmp|] in now && copy !in now
    ensures var tmp', table := tmp + [copy], now[copy := Target(now, std[|tmp|])];
            forall k | 0 <= k < |tmp'| && std[k] in before ::
              tmp'[k] in table && table[tmp'[k]] == Target(before, std[k])
  {
    var n, tmp', table := |tmp|, tmp + [copy], now[copy := Target(now, std[|tmp|])];
    forall k | 0 <= k < |tmp'| && std[k] in before
      ensures tmp'[k] in table && table[tmp'[k]] == Target(before, std[k])
    {
      if k < n {
        OpenNow(before, now, std, tmp, tmp[k]);
      } else {
        assert std[k] in before && now[std[k]] == before[std[k]];
      }
    }
  }
}
