/** The multi-word bitset: 32-bit words changed in place. */
module Bitset {
  import opened MachineInts
  import opened Bits

  ghost predicate Words(w: seq<nat>) {
    forall k :: 0 <= k < |w| ==> w[k] < TWO_32
  }

  /** The number a sequence of words stands for, least significant word first. */
  function Value(w: seq<nat>): nat {
    if w == [] then 0 else w[0] + TWO_32 * Value(w[1..])
  }

  function WordCount(size: nat): nat {
    (size + 31) / 32
  }

  /** One word of the shifted bitset, as the loop computes it. */
  function ShiftedWord(w: seq<nat>, i: nat, blocks: nat, bits: nat): nat
    requires bits < 32
  {
    var src := i + blocks;
    var lower := if src < |w| then w[src] else 0;
    var upper := if bits != 0 && src + 1 < |w| then w[src + 1] * Pow2(32 - bits) % TWO_32 else 0;
    BitOr(High(lower, bits), upper)
  }

  /** Word `j` of the first `i` bits of a 64-bit value. */
  function Filled(value: nat, j: nat, i: nat): nat
    requires j < 2
  {
    if j == 0 then Low(value, if i < 32 then i else 32)
    else Low(High(value, 32), if i < 32 then 0 else i - 32)
  }

  class Set {
    const size: nat
    const bits: array<nat>

    ghost predicate Valid()
      reads this, bits
    {
      bits.Length == WordCount(size) && Words(bits[..])
    }

    constructor (size: nat)
      ensures Valid() && fresh(bits) && this.size == size
      ensures forall i :: 0 <= i < bits.Length ==> bits[i] == 0
    {
      this.size := size;
      bits := new nat[WordCount(size)](i => 0);
    }

    /** `uint64_to_bitset`. */
    constructor FromUint64(value: nat)
      requires value < TWO_64
      ensures Valid() && fresh(bits) && size == 64
      ensures bits[..] == [Low(value, 32), High(value, 32)] && Value(bits[..]) == value
    {
      size := 64;
      bits := new nat[2](i => 0);
      new;
      var i := 0;
      TopBits(value);
      HalvesValue(value);
      while i < 64
        invariant 0 <= i <= 64
        invariant bits[0] == Filled(value, 0, i)
        invariant bits[1] == Filled(value, 1, i)
      {
        AppendBit(value, i);
        if BitAt(value, i) == 1 {
          bits[i / 32] := BitOr(bits[i / 32], Pow2(i % 32));
        }
        i := i + 1;
      }
    }

    method SetBit(index: nat)
      requires Valid() && index < size
      modifies bits
      ensures Valid()
      ensures forall k :: 0 <= k < 32 * bits.Length ==>
        BitAt(Value(bits[..]), k) == if k == index then 1 else BitAt(old(Value(bits[..])), k)
    {
      ghost var was := bits[..];
      var w := bits[index / 32];
      bits[index / 32] := BitOr(w, Pow2(index % 32));
      OrFits(w, index % 32);
      forall k | 0 <= k < 32 * bits.Length && k / 32 == index / 32
        ensures BitAt(bits[k / 32], k % 32) == if k == index then 1 else BitAt(w, k % 32)
      {
        OrBits(w, Pow2(index % 32), k % 32);
        Pow2Bits(index % 32, k % 32);
      }
      forall k | 0 <= k < 32 * bits.Length
        ensures BitAt(Value(bits[..]), k) == if k == index then 1 else BitAt(Value(was), k)
      {
        ValueBit(was, k);
        ValueBit(bits[..], k);
      }
    }

    method GetBit(index: nat) returns (b: nat)
      requires Valid() && index < size
      ensures b == BitAt(Value(bits[..]), index)
    {
      ValueBit(bits[..], index);
      b := High(bits[index / 32], index % 32) % 2;
    }

    /** Whether any word is non-zero. */
    method Any() returns (b: bool)
      requires Valid()
      ensures b <==> Value(bits[..]) != 0
    {
      var i := 0;
      while i < bits.Length
        invariant 0 <= i <= bits.Length
        invariant forall k :: 0 <= k < i ==> bits[k] == 0
      {
        if bits[i] != 0 {
          ValueZero(bits[..]);
          return true;
        }
        i := i + 1;
      }
      ValueZero(bits[..]);
      return false;
    }

    /** Zeroes the words from `start` on. */
    method ClearFrom(start: nat)
      requires Valid()
      modifies bits
      ensures Valid()
      ensures forall k :: 0 <= k < bits.Length ==> bits[k] == if k < start then old(bits[k]) else 0
    {
      var i := start;
      while i < bits.Length
        invariant start <= i
        invariant forall k :: 0 <= k < bits.Length ==> bits[k] == if start <= k < i then 0 else old(bits[k])
      {
        bits[i] := 0;
        i := i + 1;
      }
    }

    method MoveDown(blocks: nat, sbits: nat)
      requires Valid() && sbits < 32
      modifies bits
      ensures forall k :: 0 <= k < bits.Length ==> bits[k] == ShiftedWord(old(bits[..]), k, blocks, sbits)
    {
      ghost var was := bits[..];
      var i, n := 0, bits.Length;
      while i < n
        invariant 0 <= i <= n
        invariant forall k :: 0 <= k < i ==> bits[k] == ShiftedWord(was, k, blocks, sbits)
        invariant forall k :: i <= k < n ==> bits[k] == was[k]
      {
        var src := i + blocks;
        var lower := if src < n then bits[src] else 0;
        var upper := 0;
        if sbits != 0 && src + 1 < n {
          upper := bits[src + 1] * Pow2(32 - sbits) % TWO_32;
        }
        bits[i] := BitOr(High(lower, sbits), upper);
        i := i + 1;
      }
    }

    /** The body of `bitset__shift_right`, given the quotient and the remainder by 32. */
    method ShiftWords(blocks: nat, sbits: nat)
      requires Valid() && sbits < 32
      modifies bits
      ensures Valid()
      ensures Value(bits[..]) == High(old(Value(bits[..])), 32 * blocks + sbits)
    {
      ghost var was := bits[..];
      var n := bits.Length;
      if blocks >= n {
        ClearFrom(0);
        ValueZero(bits[..]);
        ShiftedOut(was, 32 * blocks + sbits);
        return;
      }
      MoveDown(blocks, sbits);
      ghost var shifted := bits[..];
      ShiftedValue(was, shifted, blocks, sbits);
      ZeroTail(was, shifted, blocks, sbits);
      ClearFrom(n - blocks);
      assert bits[..] == shifted;
    }

    /** In place, over any number of words: exactly the floor of the value by a power of two. */
    method ShiftRight(positions: nat)
      requires Valid()
      modifies bits
      ensures Valid()
      ensures Value(bits[..]) == old(Value(bits[..])) / Pow2(positions)
    {
      HighIsQuotient(Value(bits[..]), positions);
      ShiftWords(positions / 32, positions % 32);
    }

    /** Number of one bits. */
    method PopCount() returns (total: nat)
      requires Valid()
      ensures total == CountBits(Value(bits[..]), 32 * bits.Length)
    {
      total := 0;
      var i := 0;
      while i < bits.Length
        invariant 0 <= i <= bits.Length
        invariant total == CountBits(Value(bits[..i]), 32 * i)
      {
        var c := WordPopCount(bits[i]);
        assert bits[..i + 1] == bits[..i] + [bits[i]];
        CountAppend(bits[..i], bits[i], Value(bits[..i + 1]), Value(bits[..i]), 32 * i);
        total := total + c;
        i := i + 1;
      }
      assert bits[..i] == bits[..];
    }
  }

  /** `simple__popcount`. */
  method WordPopCount(w: nat) returns (count: nat)
    requires w < TWO_32
    ensures count == CountBits(w, 32)
  {
    count := 0;
    var x: nat := w;
    ghost var n: nat := 32;
    Pow2Of32();
    while x != 0
      invariant 0 <= n <= 32 && x < Pow2(n)
      invariant count + CountBits(x, n) == CountBits(w, 32)
      decreases x
    {
      assert Pow2(0) == 1;
      CountShift(x, n - 1);
      count := count + x % 2;
      x := x / 2;
      n := n - 1;
    }
    CountZero(n);
  }

  // ---------- values of word sequences ----------

  lemma {:induction false} ValueZero(w: seq<nat>)
    ensures Value(w) == 0 <==> forall k :: 0 <= k < |w| ==> w[k] == 0
  {
    if w != [] {
      ValueZero(w[1..]);
      assert (forall k :: 0 <= k < |w| ==> w[k] == 0) <==>
        w[0] == 0 && forall k :: 0 <= k < |w[1..]| ==> w[1..][k] == 0 by {
        assert forall k :: 0 <= k < |w[1..]| ==> w[1..][k] == w[k + 1];
        assert forall k :: 1 <= k < |w| ==> w[k] == w[1..][k - 1];
      }
    }
  }

  /** A bit of a number whose low word is `x`. */
  lemma WordBit(v: nat, x: nat, rest: nat, k: nat)
    requires x < TWO_32 && v == x + TWO_32 * rest
    ensures BitAt(v, k) == if k < 32 then BitAt(x, k) else BitAt(rest, k - 32)
  {
    Pow2Of32();
    SplitUnique(v, 32, x, rest);
    if k < 32 { BitOfLow(v, 32, k); } else { HighHigh(v, 32, k - 32); }
  }

  lemma WordAndBit(k: nat)
    ensures k < 32 ==> k / 32 == 0 && k % 32 == k
    ensures k >= 32 ==> k / 32 == (k - 32) / 32 + 1 && k % 32 == (k - 32) % 32
  {
  }

  /** A bit of the value is the bit of one of its words. */
  lemma {:induction false} ValueBit(w: seq<nat>, k: nat)
    requires Words(w) && k < 32 * |w|
    ensures BitAt(Value(w), k) == BitAt(w[k / 32], k % 32)
  {
    WordBit(Value(w), w[0], Value(w[1..]), k);
    WordAndBit(k);
    if k >= 32 { ValueBit(w[1..], k - 32); }
  }

  lemma HalvesValue(value: nat)
    ensures Value([Low(value, 32), High(value, 32)]) == value
  {
    Pow2Of32();
    ValueOfTwo(Low(value, 32), High(value, 32));
    Split(value, 32);
  }

  lemma {:induction false} ValueAppend(w: seq<nat>, x: nat)
    ensures Value(w + [x]) == Value(w) + x * Pow2(32 * |w|)
  {
    if w == [] {
      assert w + [x] == [x];
      assert [x][1..] == [];
    } else {
      ValueAppend(w[1..], x);
      assert (w + [x])[1..] == w[1..] + [x];
      Pow2Of32();
      Pow2Add(32, 32 * |w[1..]|);
      var p := Pow2(32 * |w[1..]|);
      assert TWO_32 * (Value(w[1..]) + x * p) == TWO_32 * Value(w[1..]) + x * (TWO_32 * p);
    }
  }

  lemma {:induction false} ValueBound(w: seq<nat>)
    requires Words(w)
    ensures Value(w) < Pow2(32 * |w|)
  {
    if w != [] {
      ValueBound(w[1..]);
      Pow2Of32();
      Pow2Add(32, 32 * |w[1..]|);
      MulLe(Value(w[1..]) + 1, Pow2(32 * |w[1..]|), TWO_32);
    }
  }

  lemma ShiftedOut(w: seq<nat>, positions: nat)
    requires Words(w) && positions >= 32 * |w|
    ensures High(Value(w), positions) == 0
  {
    ValueBound(w);
    Pow2Mono(32 * |w|, positions);
    Fits(Value(w), positions);
  }

  lemma PairFits(h: nat, l: nat, p: nat, q: nat)
    requires h < q && l < p
    ensures h + l * q < p * q
  {
    MulLe(l + 1, p, q);
    assert (l + 1) * q == l * q + q;
  }

  lemma LowFits(h: nat, next: nat, bits: nat)
    requires bits <= 32 && h < Pow2(32 - bits)
    ensures h + Low(next, bits) * Pow2(32 - bits) < TWO_32
  {
    Pow2Of32();
    Pow2Add(bits, 32 - bits);
    Split(next, bits);
    PairFits(h, Low(next, bits), Pow2(bits), Pow2(32 - bits));
  }

  /** The two parts of a shifted word do not overlap. */
  lemma PartsAdd(cur: nat, next: nat, bits: nat)
    requires cur < TWO_32 && bits <= 32
    ensures var upper := next * Pow2(32 - bits) % TWO_32;
      && upper == Low(next, bits) * Pow2(32 - bits)
      && BitOr(High(cur, bits), upper) == High(cur, bits) + upper < TWO_32
      && BitOr(High(cur, bits), 0) == High(cur, bits)
  {
    Pow2Of32();
    HighFits(cur, 32 - bits, bits);
    LowFits(High(cur, bits), next, bits);
    ShiftLeftTruncated(next, bits, 32 - bits);
    OrDisjoint(High(cur, bits), Low(next, bits), 32 - bits);
    OrDisjoint(High(cur, bits), 0, 32 - bits);
  }

  lemma ShiftedWordSum(w: seq<nat>, i: nat, blocks: nat, bits: nat)
    requires Words(w) && bits < 32 && i + blocks < |w|
    ensures ShiftedWord(w, i, blocks, bits) == High(w[i + blocks], bits)
      + if i + blocks + 1 < |w| then Low(w[i + blocks + 1], bits) * Pow2(32 - bits) else 0
    ensures ShiftedWord(w, i, blocks, bits) < TWO_32
  {
    var src := i + blocks;
    PartsAdd(w[src], if src + 1 < |w| then w[src + 1] else 0, bits);
  }

  lemma BeyondEnd(w: seq<nat>, i: nat, blocks: nat, bits: nat)
    requires bits < 32 && i + blocks >= |w|
    ensures ShiftedWord(w, i, blocks, bits) == 0
  {
    ZeroBits(bits);
  }

  lemma ZeroTail(w: seq<nat>, s: seq<nat>, blocks: nat, bits: nat)
    requires |s| == |w| && bits < 32
    requires forall k :: 0 <= k < |s| ==> s[k] == ShiftedWord(w, k, blocks, bits)
    ensures forall k :: 0 <= k < |s| && k + blocks >= |w| ==> s[k] == 0
  {
    forall k | 0 <= k < |s| && k + blocks >= |w|
      ensures s[k] == 0
    {
      BeyondEnd(w, k, blocks, bits);
    }
  }

  lemma {:induction false} DropValue(w: seq<nat>, blocks: nat)
    requires Words(w) && blocks <= |w|
    ensures Value(w[blocks..]) == High(Value(w), 32 * blocks)
  {
    if blocks == 0 {
      assert w[0..] == w;
    } else {
      assert w[1..][blocks - 1..] == w[blocks..];
      DropValue(w[1..], blocks - 1);
      Pow2Of32();
      SplitUnique(Value(w), 32, w[0], Value(w[1..]));
      HighHigh(Value(w), 32, 32 * (blocks - 1));
    }
  }

  /** Shifting by less than a word. */
  lemma OneWordDown(d0: nat, v: nat, bits: nat)
    requires bits <= 32
    ensures High(d0 + TWO_32 * v, bits) == High(d0, bits) + Low(v, bits) * Pow2(32 - bits) + TWO_32 * High(v, bits)
    ensures Low(d0 + TWO_32 * v, bits) == Low(d0, bits)
  {
    Pow2Of32();
    Pow2Add(bits, 32 - bits);
    HighOfSum(d0, v, 32, bits);
    Split(v, bits);
    Distribute(Low(v, bits), High(v, bits), Pow2(bits), Pow2(32 - bits));
  }

  lemma {:induction false} BitShiftValue(d: seq<nat>, s: seq<nat>, bits: nat)
    requires Words(d) && |s| >= |d| && bits < 32
    requires forall k :: 0 <= k < |s| ==> s[k] == ShiftedWord(d, k, 0, bits)
    ensures Value(s) == High(Value(d), bits)
    decreases d
  {
    if d == [] {
      forall k | 0 <= k < |s| ensures s[k] == 0 { BeyondEnd(d, k, 0, bits); }
      ValueZero(s);
      ZeroBits(bits);
    } else {
      var e, t := d[1..], s[1..];
      forall k | 0 <= k < |t|
        ensures t[k] == ShiftedWord(e, k, 0, bits)
      {
        assert s[k + 1] == ShiftedWord(d, k + 1, 0, bits);
      }
      BitShiftValue(e, t, bits);
      ShiftedWordSum(d, 0, 0, bits);
      OneWordDown(d[0], Value(e), bits);
      if e != [] { OneWordDown(e[0], Value(e[1..]), bits); } else { ZeroBits(bits); }
    }
  }

  lemma ShiftedValue(w: seq<nat>, s: seq<nat>, blocks: nat, bits: nat)
    requires Words(w) && |s| == |w| && blocks <= |w| && bits < 32
    requires forall k :: 0 <= k < |s| ==> s[k] == ShiftedWord(w, k, blocks, bits)
    ensures Words(s)
    ensures Value(s) == High(Value(w), 32 * blocks + bits)
  {
    var d := w[blocks..];
    forall k | 0 <= k < |s|
      ensures s[k] == ShiftedWord(d, k, 0, bits) && s[k] < TWO_32
    {
      if k + blocks < |w| { ShiftedWordSum(w, k, blocks, bits); } else { BeyondEnd(w, k, blocks, bits); }
    }
    DropValue(w, blocks);
    BitShiftValue(d, s, bits);
    HighHigh(Value(w), 32 * blocks, bits);
  }

  // ---------- single words ----------

  lemma TopBits(value: nat)
    requires value < TWO_64
    ensures Filled(value, 0, 0) == 0 && Filled(value, 1, 0) == 0
    ensures Filled(value, 0, 64) == Low(value, 32) && Filled(value, 1, 64) == High(value, 32)
    ensures Low(value, 32) < TWO_32 && High(value, 32) < TWO_32
  {
    Pow2Of32();
    Pow2Add(32, 32);
    Split(value, 32);
    HighFits(value, 32, 32);
    Fits(High(value, 32), 32);
  }

  lemma NextBit(x: nat, k: nat)
    ensures Low(x, k + 1) == if BitAt(x, k) == 1 then BitOr(Low(x, k), Pow2(k)) else Low(x, k)
  {
    LowBits(x, k);
    Split(x, k);
    OrDisjoint(Low(x, k), 1, k);
  }

  lemma AppendBit(value: nat, i: nat)
    requires i < 64
    ensures Filled(value, i / 32, i + 1)
         == if BitAt(value, i) == 1 then BitOr(Filled(value, i / 32, i), Pow2(i % 32)) else Filled(value, i / 32, i)
    ensures Filled(value, 1 - i / 32, i + 1) == Filled(value, 1 - i / 32, i)
  {
    if i < 32 {
      NextBit(value, i);
    } else {
      HighHigh(value, 32, i - 32);
      assert BitAt(value, i) == BitAt(High(value, 32), i - 32);
      NextBit(High(value, 32), i - 32);
    }
  }

  /** Setting a bit stays within the word. */
  lemma OrFits(w: nat, j: nat)
    requires w < TWO_32 && j < 32
    ensures BitOr(w, Pow2(j)) < TWO_32
  {
    Pow2Of32();
    OrBound(w, Pow2(j), 32) by { Pow2Mono(j + 1, 32); }
  }

  lemma {:induction false} OrBound(a: nat, b: nat, k: nat)
    requires a < Pow2(k) && b < Pow2(k)
    ensures BitOr(a, b) < Pow2(k)
    decreases k
  {
    if a != 0 && b != 0 {
      OrBound(a / 2, b / 2, k - 1);
    }
  }

  // ---------- counting ----------

  lemma CountSum(total: nat, v: nat, x: nat, m: nat, n: nat)
    requires v < Pow2(m) && total == v + x * Pow2(m)
    ensures CountBits(total, m + n) == CountBits(v, m) + CountBits(x, n)
  {
    SplitUnique(total, m, v, x);
    CountSplit(total, m, n);
  }

  lemma CountAppend(w: seq<nat>, x: nat, total: nat, v: nat, m: nat)
    requires Words(w) && m == 32 * |w| && v == Value(w) && total == Value(w + [x])
    ensures CountBits(total, m + 32) == CountBits(v, m) + CountBits(x, 32)
  {
    ValueBound(w);
    ValueAppend(w, x);
    CountSum(total, v, x, m, 32);
  }

  lemma ValueOfTwo(lo: nat, hi: nat)
    ensures Value([lo, hi]) == lo + TWO_32 * hi
  {
    assert [lo, hi][1..] == [hi];
    assert [hi][1..] == [];
    assert Value([hi]) == hi;
  }

  /** The count for a 64-bit mask turned into a bitset is the mask's own number of one bits. */
  method CountUint64(value: nat) returns (count: nat)
    requires value < TWO_64
    ensures count == CountBits(value, 64)
  {
    var b := new Set.FromUint64(value);
    count := b.PopCount();
  }
}
