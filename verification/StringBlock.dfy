/** Packing strings behind an array of pointers in one allocated block of bytes (spawn_stubs.c). A pointer takes
    eight bytes, lowest first; the null pointer is 0. */
module StringBlock {
  import Bits

  type Byte = b: nat | b < 0x100
  type Bytes = seq<Byte>

  const EQUALS: Byte := 0x3d

  /** The strings one after another, each with its terminating zero. */
  function Packed(strings: seq<Bytes>): Bytes {
    if strings == [] then [] else Packed(strings[..|strings| - 1]) + strings[|strings| - 1] + [0]
  }

  /** Where string `i` starts in the packed bytes. */
  function Offset(strings: seq<Bytes>, i: nat): nat
    requires i <= |strings|
  {
    |Packed(strings[..i])|
  }

  /** What a C reader sees at `p`: the bytes up to the next zero. */
  function CString(bytes: Bytes, p: nat): Bytes
    requires p <= |bytes|
    decreases |bytes| - p
  {
    if p == |bytes| || bytes[p] == 0 then [] else [bytes[p]] + CString(bytes, p + 1)
  }

  predicate NulFree(s: Bytes) {
    forall i | 0 <= i < |s| :: s[i] != 0
  }

  /** The part of a string before its first zero. */
  function BeforeNul(s: Bytes): Bytes {
    if s == [] || s[0] == 0 then [] else [s[0]] + BeforeNul(s[1..])
  }

  lemma {:induction false} BeforeNulIsAll(s: Bytes)
    ensures |BeforeNul(s)| <= |s| && (BeforeNul(s) == s <==> NulFree(s))
  {
    if s != [] && s[0] != 0 {
      BeforeNulIsAll(s[1..]);
      assert s == [s[0]] + s[1..];
      if NulFree(s[1..]) {
        assert forall i | 0 <= i < |s| :: i > 0 ==> s[i] == s[1..][i - 1];
      } else {
        assert exists i | 0 <= i < |s[1..]| :: s[1..][i] == 0 && s[i + 1] == 0;
      }
    }
  }

  /** That is what lies between `p` and the first zero behind it. */
  lemma {:induction false} CStringEndsAtZero(bytes: Bytes, p: nat)
    requires p <= |bytes|
    ensures var r := CString(bytes, p);
            && p + |r| <= |bytes| && r == bytes[p..p + |r|] && NulFree(r)
            && (p + |r| == |bytes| || bytes[p + |r|] == 0)
    decreases |bytes| - p
  {
    if p < |bytes| && bytes[p] != 0 {
      CStringEndsAtZero(bytes, p + 1);
    }
  }

  /** Reading at the start of a terminated string. */
  lemma {:induction false} ReadAt(bytes: Bytes, p: nat, s: Bytes)
    requires p + |s| < |bytes| && bytes[p..p + |s|] == s && bytes[p + |s|] == 0
    ensures CString(bytes, p) == BeforeNul(s)
    decreases |s|
  {
    if s != [] {
      assert bytes[p] == s[0];
      if s[0] != 0 {
        assert bytes[p + 1..p + |s|] == s[1..];
        ReadAt(bytes, p + 1, s[1..]);
      }
    }
  }

  /** The strings lie side by side in order, so they neither overlap nor leave gaps. */
  lemma {:induction false} PackedAt(strings: seq<Bytes>, i: nat)
    requires i < |strings|
    ensures Offset(strings, i + 1) == Offset(strings, i) + |strings[i]| + 1 <= |Packed(strings)|
    ensures Packed(strings)[Offset(strings, i)..Offset(strings, i) + |strings[i]|] == strings[i]
    ensures Packed(strings)[Offset(strings, i) + |strings[i]|] == 0
    decreases |strings|
  {
    var n := |strings|;
    var front := strings[..n - 1];
    assert strings[..i + 1][..i] == strings[..i];
    if i == n - 1 {
      assert strings[..i] == front && strings[..i + 1] == strings;
    } else {
      PackedAt(front, i);
      assert front[..i] == strings[..i] && front[..i + 1] == strings[..i + 1];
      var lo, hi := Offset(strings, i), Offset(strings, i) + |strings[i]|;
      assert Packed(strings)[lo..hi] == Packed(front)[lo..hi];
    }
  }

  // ----- pointers as bytes

  /** The lowest `n` bytes of a number, lowest first. */
  function Digits(v: nat, n: nat): (r: Bytes)
    ensures |r| == n
  {
    if n == 0 then [] else [v % 0x100] + Digits(v / 0x100, n - 1)
  }

  function Number(bytes: Bytes): nat {
    if bytes == [] then 0 else bytes[0] + 0x100 * Number(bytes[1..])
  }

  /** How many numbers fit `n` bytes. */
  function Limit(n: nat): nat {
    if n == 0 then 1 else 0x100 * Limit(n - 1)
  }

  lemma {:induction false} NumberOfDigits(v: nat, n: nat)
    requires v < Limit(n)
    ensures Number(Digits(v, n)) == v
  {
    if n > 0 {
      NumberOfDigits(v / 0x100, n - 1);
      assert Digits(v, n)[1..] == Digits(v / 0x100, n - 1);
    }
  }

  /** Byte `i` has the weight 256^i. */
  lemma {:induction false} DigitAt(v: nat, n: nat, i: nat)
    requires i < n
    ensures Limit(i) > 0 && Digits(v, n)[i] == v / Limit(i) % 0x100
    decreases i
  {
    if i > 0 {
      DigitAt(v / 0x100, n - 1, i - 1);
      DivideTwice(v, Limit(i - 1));
      assert Digits(v, n)[i] == Digits(v / 0x100, n - 1)[i - 1];
    }
  }

  lemma DivideTwice(v: nat, d: nat)
    requires d > 0
    ensures v / 0x100 / d == v / (0x100 * d)
  {
    var q, r := v / 0x100 / d, v / 0x100 % d;
    assert v == 0x100 * (q * d + r) + v % 0x100;
    assert 0x100 * (q * d) == q * (0x100 * d);
    Bits.DivModUnique(v, 0x100 * d, q, 0x100 * r + v % 0x100);
  }

  /** Pointer `i` at the start of a block. */
  function PointerAt(mem: Bytes, i: nat): nat
    requires 8 * i + 8 <= |mem|
  {
    Number(mem[8 * i..8 * i + 8])
  }

  /** The first `n` pointers are the addresses of the first `n` strings. */
  ghost predicate PointersSet(strings: seq<Bytes>, mem: Bytes, first: nat, n: nat)
    requires n <= |strings|
  {
    8 * n <= |mem| &&
    forall i | 0 <= i < n :: mem[8 * i..8 * i + 8] == Digits(first + Offset(strings, i), 8)
  }

  /** The block is laid out right, and full: pointers to consecutive strings, a null pointer, then the strings. The
      block is at address `addr`. */
  ghost predicate LaidOut(strings: seq<Bytes>, mem: Bytes, addr: nat) {
    var base := 8 * (|strings| + 1);
    && |mem| == base + |Packed(strings)|
    && PointersSet(strings, mem, addr + base, |strings|)
    && mem[base - 8..base] == Digits(0, 8)
    && mem[base..] == Packed(strings)
  }

  /** Round trip: pointer `i` is not null and points into the block, and following it to the next zero gives back
      string `i` exactly when that string contains no zero. The pointer behind the last one is null. */
  lemma ReadBack(strings: seq<Bytes>, mem: Bytes, addr: nat, i: nat)
    requires LaidOut(strings, mem, addr) && 0 < addr && addr + |mem| < Limit(8) && i < |strings|
    ensures addr <= PointerAt(mem, i) <= addr + |mem|
    ensures CString(mem, PointerAt(mem, i) - addr) == strings[i] <==> NulFree(strings[i])
    ensures PointerAt(mem, |strings|) == 0
  {
    hide CString, Digits, Number, Limit, Packed, Offset, BeforeNul;
    var base := 8 * (|strings| + 1);
    StringInBlock(strings, mem, base, i);
    NumberOfDigits(addr + base + Offset(strings, i), 8);
    NumberOfDigits(0, 8);
    ReadAt(mem, base + Offset(strings, i), strings[i]);
    BeforeNulIsAll(strings[i]);
  }

  lemma StringInBlock(strings: seq<Bytes>, mem: Bytes, base: nat, i: nat)
    requires i < |strings| && base <= |mem| && mem[base..] == Packed(strings)
    ensures var p := base + Offset(strings, i);
            p + |strings[i]| < |mem| && mem[p..p + |strings[i]|] == strings[i] && mem[p + |strings[i]|] == 0
  {
    PackedAt(strings, i);
    hide Packed, Offset;
    var o, n := Offset(strings, i), |strings[i]|;
    assert mem[base + o..base + o + n] == mem[base..][o..o + n];
    assert mem[base + o + n] == mem[base..][o + n];
  }

  /** Every string keeps to its own stretch of the block, behind all the pointers. */
  lemma {:induction false} OffsetsIncrease(strings: seq<Bytes>, i: nat, j: nat)
    requires i < j <= |strings|
    ensures Offset(strings, i) + |strings[i]| + 1 <= Offset(strings, j) <= |Packed(strings)|
    decreases j
  {
    PackedAt(strings, j - 1);
    if i < j - 1 {
      OffsetsIncrease(strings, i, j - 1);
    }
  }

  // ----- filling the block

  /** memcpy */
  method WriteAt(mem: array<Byte>, at: nat, data: Bytes)
    requires at + |data| <= mem.Length
    modifies mem
    ensures mem[..] == old(mem[..at]) + data + old(mem[at + |data|..])
  {
    forall k | 0 <= k < |data| {
      mem[at + k] := data[k];
    }
  }

  /** Bytes written behind the pointers leave them as they are. */
  lemma WriteBehind(strings: seq<Bytes>, before: Bytes, after: Bytes, first: nat, n: nat, at: nat, data: Bytes)
    requires n <= |strings| && PointersSet(strings, before, first, n) && 8 * n <= at && at + |data| <= |before|
    requires after == before[..at] + data + before[at + |data|..]
    ensures PointersSet(strings, after, first, n)
  {
    hide Digits, Offset;
    forall i | 0 <= i < n
      ensures after[8 * i..8 * i + 8] == before[8 * i..8 * i + 8]
    {
    }
  }

  /** What lies behind the written bytes, or before them, is as it was. */
  lemma WriteKeeps(before: Bytes, after: Bytes, at: nat, data: Bytes, lo: nat, hi: nat)
    requires at + |data| <= |before| && lo <= hi <= |before| && (hi <= at || at + |data| <= lo)
    requires after == before[..at] + data + before[at + |data|..]
    ensures |after| == |before| && after[lo..hi] == before[lo..hi] && after[at..at + |data|] == data
  {
  }

  /** The block being filled: its address, its bytes, and the moving pointer as an offset. */
  class PointerBlock {
    const addr: nat
    const count: nat
    const mem: array<Byte>
    var used: nat
    /** The strings stored so far, and the bytes of one that is not finished. */
    ghost var strings: seq<Bytes>
    ghost var partial: Bytes

    /** Offset of the first string byte. */
    function Base(): nat {
      8 * (count + 1)
    }

    /** The pointers and the strings stored so far are in place. */
    ghost predicate Valid()
      reads this, mem
    {
      && |strings| <= count && Base() <= used <= mem.Length
      && PointersSet(strings, mem[..], addr + Base(), |strings|)
      && mem[Base()..used] == Packed(strings) + partial
    }

    /** malloc of the computed size. */
    constructor (addr: nat, count: nat, fullSize: nat)
      requires fullSize >= 8 * (count + 1)
      ensures Valid() && strings == [] && partial == [] && fresh(mem) && used == Base()
      ensures this.addr == addr && this.count == count && mem.Length == fullSize
    {
      this.addr := addr;
      this.count := count;
      mem := new Byte[fullSize];
      used := 8 * (count + 1);
      strings := [];
      partial := [];
    }

    /** `result[i] = ptr` */
    method SetPointer(i: nat)
      requires Valid() && partial == [] && i == |strings| < count
      modifies mem
      ensures Valid() && mem[8 * i..8 * i + 8] == Digits(addr + Base() + |Packed(strings)|, 8)
    {
      hide Digits, Packed, Offset, PointersSet;
      ghost var before, digits := mem[..], Digits(addr + used, 8);
      assert |before[Base()..used]| == used - Base();
      WriteAt(mem, 8 * i, Digits(addr + used, 8));
      WriteBehind(strings, before, mem[..], addr + Base(), |strings|, 8 * i, digits);
      WriteKeeps(before, mem[..], 8 * i, digits, Base(), used);
    }

    /** memcpy to the moving pointer, which then advances. Pointers that are set stay. */
    method Append(s: Bytes, ghost i: nat)
      requires Valid() && used + |s| <= mem.Length && i <= count
      modifies this`used, this`partial, mem
      ensures Valid() && partial == old(partial) + s && used == old(used) + |s|
      ensures mem[8 * i..8 * i + 8] == old(mem[8 * i..8 * i + 8])
    {
      hide Digits, Packed, Offset, PointersSet;
      ghost var before, from := mem[..], used;
      WriteAt(mem, used, s);
      WriteBehind(strings, before, mem[..], addr + Base(), |strings|, used, s);
      WriteKeeps(before, mem[..], used, s, Base(), used);
      WriteKeeps(before, mem[..], used, s, 8 * i, 8 * i + 8);
      used := used + |s|;
      partial := partial + s;
      assert mem[Base()..used] == mem[..][Base()..from] + mem[..][from..used];
    }

    /** The terminating zero completes a string. */
    method Terminate(ghost i: nat)
      requires Valid() && used < mem.Length && i == |strings| < count
      requires mem[8 * i..8 * i + 8] == Digits(addr + Base() + |Packed(strings)|, 8)
      modifies this`used, this`partial, this`strings, mem
      ensures Valid() && strings == old(strings) + [old(partial)] && partial == [] && used == old(used) + 1
    {
      hide Digits, Packed, Offset, PointersSet;
      ghost var s := partial;
      Append([0], i);
      PackedAppend(strings, s);
      PointersStep(strings, mem[..], addr + Base(), s);
      strings := strings + [s];
      partial := [];
    }

    /** One turn of the filling loop of alloc_string_array and copy_c_string_array. */
    method Store(i: nat, s: Bytes)
      requires Valid() && partial == [] && i == |strings| < count && used + |s| + 1 <= mem.Length
      modifies this`used, this`partial, this`strings, mem
      ensures Valid() && strings == old(strings) + [s] && partial == [] && used == old(used) + |s| + 1
    {
      hide Packed, Offset, Digits, PointersSet;
      SetPointer(i);
      Append(s, i);
      assert [] + s == s;
      Terminate(i);
    }

    /** One turn of the filling loop of alloc_env_list. */
    method StoreBinding(i: nat, variable: Bytes, value: Bytes)
      requires Valid() && partial == [] && i == |strings| < count
      requires used + |EnvString((variable, value))| + 1 <= mem.Length
      modifies this`used, this`partial, this`strings, mem
      ensures Valid() && strings == old(strings) + [EnvString((variable, value))] && partial == []
      ensures used == old(used) + |EnvString((variable, value))| + 1
    {
      hide Packed, Offset, Digits, PointersSet;
      SetPointer(i);
      Append(variable, i);
      Append([EQUALS], i);
      Append(value, i);
      assert [] + variable + [EQUALS] + value == EnvString((variable, value));
      Terminate(i);
    }

    /** The null pointer behind the last string. */
    method Finish()
      requires Valid() && partial == [] && count == |strings| && used == mem.Length
      modifies mem
      ensures LaidOut(strings, mem[..], addr)
    {
      hide Digits, Packed, Offset, PointersSet;
      ghost var before := mem[..];
      WriteAt(mem, 8 * count, Digits(0, 8));
      WriteBehind(strings, before, mem[..], addr + Base(), count, 8 * count, Digits(0, 8));
      WriteKeeps(before, mem[..], 8 * count, Digits(0, 8), Base(), used);
      assert mem[..][Base()..] == mem[Base()..used];
    }
  }

  /** One more string with its pointer. */
  lemma PointersStep(strings: seq<Bytes>, mem: Bytes, first: nat, s: Bytes)
    requires PointersSet(strings, mem, first, |strings|) && 8 * |strings| + 8 <= |mem|
    requires mem[8 * |strings|..8 * |strings| + 8] == Digits(first + |Packed(strings)|, 8)
    ensures PointersSet(strings + [s], mem, first, |strings| + 1)
  {
    PackedAppend(strings, s);
    assert strings[..|strings|] == strings;
    hide Digits, Packed;
  }

  // ----- the three callers

  lemma PackedAppend(strings: seq<Bytes>, s: Bytes)
    ensures Packed(strings + [s]) == Packed(strings) + s + [0]
    ensures forall i | 0 <= i <= |strings| :: Offset(strings + [s], i) == Offset(strings, i)
  {
    assert (strings + [s])[..|strings|] == strings;
    forall i | 0 <= i <= |strings| ensures Offset(strings + [s], i) == Offset(strings, i) {
      assert (strings + [s])[..i] == strings[..i];
    }
  }

  lemma PackedPrefix(strings: seq<Bytes>, i: nat)
    requires i < |strings|
    ensures |Packed(strings[..i])| + |strings[i]| + 1 <= |Packed(strings)|
    ensures strings[..i + 1] == strings[..i] + [strings[i]]
  {
    PackedAt(strings, i);
  }

  /** alloc_string_array and copy_c_string_array: the size is added up in a first pass, and the second
      pass fills the block, which malloc puts at `addr`, to its last byte. */
  method PackStrings(strings: seq<Bytes>, addr: nat) returns (block: PointerBlock)
    ensures fresh(block) && fresh(block.mem) && block.addr == addr && LaidOut(strings, block.mem[..], addr)
  {
    hide Packed, Offset, Digits, PointersSet;
    var fullSize := TotalSize(strings);
    block := new PointerBlock(addr, |strings|, fullSize);
    assert strings[..0] == [];
    var i := 0;
    while i < |strings|
      invariant 0 <= i <= |strings| && fresh(block) && fresh(block.mem) && block.addr == addr
      invariant block.Valid() && block.strings == strings[..i] && block.partial == [] && block.count == |strings|
      invariant block.mem.Length == block.Base() + |Packed(strings)|
    {
      PackedPrefix(strings, i);
      BytesUsed(block);
      block.Store(i, strings[i]);
      i := i + 1;
    }
    assert strings[..i] == strings;
    BytesUsed(block);
    block.Finish();
  }

  /** The moving pointer is behind the strings stored so far. */
  lemma BytesUsed(block: PointerBlock)
    requires block.Valid() && block.partial == []
    ensures block.used == block.Base() + |Packed(block.strings)|
  {
    assert |block.mem[block.Base()..block.used]| == block.used - block.Base();
  }

  /** alloc_env_list: the same for `variable=value` entries, built in place from their two parts. */
  method PackEnv(env: seq<(Bytes, Bytes)>, addr: nat) returns (block: PointerBlock)
    ensures fresh(block) && fresh(block.mem) && block.addr == addr && LaidOut(EnvStrings(env), block.mem[..], addr)
  {
    hide Packed, Offset, Digits, PointersSet, EnvString;
    ghost var strings := EnvStrings(env);
    var fullSize := TotalEnvSize(env);
    block := new PointerBlock(addr, |env|, fullSize);
    assert strings[..0] == [];
    var i := 0;
    while i < |env|
      invariant 0 <= i <= |env| && fresh(block) && fresh(block.mem) && block.addr == addr
      invariant block.Valid() && block.strings == strings[..i] && block.partial == [] && block.count == |env|
      invariant block.mem.Length == block.Base() + |Packed(strings)|
    {
      PackedPrefix(strings, i);
      BytesUsed(block);
      block.StoreBinding(i, env[i].0, env[i].1);
      i := i + 1;
    }
    assert strings[..i] == strings;
    BytesUsed(block);
    block.Finish();
  }

  lemma SizeStep(strings: seq<Bytes>, i: nat)
    requires i < |strings|
    ensures |Packed(strings[..i + 1])| == |Packed(strings[..i])| + |strings[i]| + 1
  {
    PackedPrefix(strings, i);
    PackedAppend(strings[..i], strings[i]);
  }

  /** The size pass of alloc_env_list. */
  method TotalEnvSize(env: seq<(Bytes, Bytes)>) returns (fullSize: nat)
    ensures fullSize == 8 * (|env| + 1) + |Packed(EnvStrings(env))|
  {
    ghost var strings := EnvStrings(env);
    fullSize := 8;
    assert strings[..0] == [];
    var i := 0;
    while i < |env|
      invariant 0 <= i <= |env| && fullSize == 8 * (i + 1) + |Packed(strings[..i])|
    {
      SizeStep(strings, i);
      fullSize := fullSize + (8 + |env[i].0| + |env[i].1| + 2);
      i := i + 1;
    }
    assert strings[..i] == strings;
  }

  /** The size pass of alloc_string_array and copy_c_string_array. */
  method TotalSize(strings: seq<Bytes>) returns (fullSize: nat)
    ensures fullSize == 8 * (|strings| + 1) + |Packed(strings)|
  {
    fullSize := 8;
    var i := 0;
    while i < |strings|
      invariant 0 <= i <= |strings| && fullSize == 8 * (i + 1) + |Packed(strings[..i])|
    {
      SizeStep(strings, i);
      fullSize := fullSize + 8 + |strings[i]| + 1;
      i := i + 1;
    }
    assert strings[..i] == strings;
  }

  /** The environment entry of a binding. */
  function EnvString(binding: (Bytes, Bytes)): Bytes {
    binding.0 + [EQUALS] + binding.1
  }

  function EnvStrings(env: seq<(Bytes, Bytes)>): (r: seq<Bytes>)
    ensures |r| == |env|
  {
    seq(|env|, i requires 0 <= i < |env| => EnvString(env[i]))
  }

  // ----- reading the environment back

  /** The length of the name in an environment entry: what stands before the first equals sign. */
  function NameLength(entry: Bytes): (n: nat)
    ensures n <= |entry| && (EQUALS in entry ==> n < |entry|)
  {
    if entry == [] || entry[0] == EQUALS then 0 else 1 + NameLength(entry[1..])
  }

  /** The binding that getenv finds in an entry. */
  function BindingIn(entry: Bytes): (Bytes, Bytes)
    requires EQUALS in entry
  {
    (entry[..NameLength(entry)], entry[NameLength(entry) + 1..])
  }

  /** An entry is the variable, the byte 0x3d and the value ... */
  lemma EntryParts(binding: (Bytes, Bytes))
    ensures var s, n := EnvString(binding), |binding.0|;
            |s| == n + 1 + |binding.1| && s[..n] == binding.0 && s[n] == 0x3d && s[n + 1..] == binding.1
  {
  }

  lemma {:induction false} NameEnds(name: Bytes, rest: Bytes)
    ensures NameLength(name + [EQUALS] + rest) <= |name|
    ensures NameLength(name + [EQUALS] + rest) == |name| <==> EQUALS !in name
  {
    var entry := name + [EQUALS] + rest;
    if name != [] && name[0] != EQUALS {
      assert entry[1..] == name[1..] + [EQUALS] + rest;
      NameEnds(name[1..], rest);
    }
  }

  /** ... from which the binding is found again exactly when the variable has no equals sign in it. */
  lemma EntryRoundTrip(binding: (Bytes, Bytes))
    ensures EQUALS in EnvString(binding)
    ensures BindingIn(EnvString(binding)) == binding <==> EQUALS !in binding.0
  {
    var s := EnvString(binding);
    EntryParts(binding);
    assert s[|binding.0|] == EQUALS;
    NameEnds(binding.0, binding.1);
    if NameLength(s) != |binding.0| {
      assert |BindingIn(s).0| != |binding.0|;
    }
  }

  /** The environment block read back through its pointers. */
  lemma EnvReadBack(env: seq<(Bytes, Bytes)>, mem: Bytes, addr: nat, i: nat)
    requires LaidOut(EnvStrings(env), mem, addr) && 0 < addr && addr + |mem| < Limit(8) && i < |env|
    requires NulFree(env[i].0) && NulFree(env[i].1)
    ensures addr <= PointerAt(mem, i) <= addr + |mem|
    ensures var s, n := CString(mem, PointerAt(mem, i) - addr), |env[i].0|;
            && |s| == n + 1 + |env[i].1| && s[..n] == env[i].0 && s[n] == 0x3d && s[n + 1..] == env[i].1
            && (EQUALS !in env[i].0 ==> EQUALS in s && BindingIn(s) == env[i])
  {
    hide CString, LaidOut, PointerAt, Limit;
    ReadBack(EnvStrings(env), mem, addr, i);
    EntryParts(env[i]);
    EntryRoundTrip(env[i]);
  }
}
