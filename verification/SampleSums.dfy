/** What a counter's sample means: a direct sum over the blocks of its type. */
module SampleSums {
  import opened MachineInts
  import opened Bits
  import opened SampleLayout
  import opened BlockWalk
  import opened CounterSet

  /** The mapped memory, as 32-bit words, with one sample's position in it. */
  datatype Sample = Sample(backend: Backend, bufferIdx: nat, memory: seq<nat>)

  /** `block_buffer[offset] << shift`, in 32-bit arithmetic. */
  function Term(memory: seq<nat>, values: nat, offset: nat, shift: nat): (t: nat)
    requires values / 4 + offset < |memory|
    ensures t < TWO_32
  {
    memory[values / 4 + offset] * Pow2(shift) % TWO_32
  }

  /** Every word the counter can ask for is mapped, and blocks are word-aligned. */
  ghost predicate Readable(s: Sample, c: Registered) {
    forall k :: 0 <= k < |s.backend.layout| ==>
      MetadataOf(s.backend, s.bufferIdx, k).values % 4 == 0
      && MetadataOf(s.backend, s.bufferIdx, k).values / 4 + c.offset < |s.memory|
  }

  /** What block `k` contributes to the counter. */
  function BlockTerm(s: Sample, c: Registered, k: nat): nat
    requires k < |s.backend.layout| && Readable(s, c)
  {
    if s.backend.layout[k].kind == c.block
    then Term(s.memory, MetadataOf(s.backend, s.bufferIdx, k).values, c.offset, c.shift)
    else 0
  }

  /** The counter's sum over the first `n` blocks of the layout. */
  function DirectSum(s: Sample, c: Registered, n: nat): nat
    requires n <= |s.backend.layout| && Readable(s, c)
  {
    if n == 0 then 0 else DirectSum(s, c, n - 1) + BlockTerm(s, c, n - 1)
  }

  function Total(s: Sample, c: Registered): nat
    requires Readable(s, c)
  {
    DirectSum(s, c, |s.backend.layout|)
  }

  /** The mapping holds `bufferCount` sample buffers, the layout fits each, and the counter is one of a
      block's words. */
  ghost predicate Mapped(s: Sample, c: Registered, bufferCount: nat) {
    && s.bufferIdx < bufferCount && c.offset < BLOCK_SIZE / 4
    && Ordered(s.backend.layout, 0, s.backend.bufferSize) && s.backend.bufferSize % 4 == 0
    && 4 * |s.memory| == s.backend.bufferSize * bufferCount
  }

  /** A layout that fits the sample buffer puts every counter of a block within the mapped words. */
  lemma ReadableInMapping(s: Sample, c: Registered, bufferCount: nat)
    requires Mapped(s, c, bufferCount)
    ensures Readable(s, c)
  {
    forall k | 0 <= k < |s.backend.layout|
      ensures MetadataOf(s.backend, s.bufferIdx, k).values % 4 == 0
      ensures MetadataOf(s.backend, s.bufferIdx, k).values / 4 + c.offset < |s.memory|
    {
      InsideMapping(s.backend, s.bufferIdx, bufferCount, k);
      WordAligned(s.backend.bufferSize, s.bufferIdx, s.backend.layout[k].offset);
    }
  }

  lemma ByFour(q: nat, idx: nat)
    ensures 4 * q * idx == q * idx * 4
  {
  }

  lemma WordAligned(size: nat, idx: nat, offset: nat)
    requires size % 4 == 0 && offset % BLOCK_SIZE == 0
    ensures (size * idx + offset) % 4 == 0
  {
    var q := size / 4;
    ByFour(q, idx);
    ModShift(offset, 4, q * idx);
  }

  // ---------- which words a counter reads ----------

  /** Word `p` of the mapping is the counter's word in block `k` of the sample's buffer. */
  ghost predicate WordIn(s: Sample, c: Registered, k: nat, p: nat)
    requires k < |s.backend.layout|
  {
    && s.backend.layout[k].kind == c.block
    && 4 * p == s.backend.bufferSize * s.bufferIdx + s.backend.layout[k].offset + 4 * c.offset
  }

  /** Word `p` is the counter's word in one of the first `n` blocks. */
  ghost predicate WordOf(s: Sample, c: Registered, n: nat, p: nat)
    requires n <= |s.backend.layout|
  {
    exists k :: 0 <= k < n && WordIn(s, c, k, p)
  }

  ghost predicate IsWordOf(s: Sample, c: Registered, p: nat) {
    WordOf(s, c, |s.backend.layout|, p)
  }

  /** What a word of value `x` is worth, 32-bit arithmetic cutting off what is shifted out. */
  function Worth(x: nat, shift: nat): nat {
    x * Pow2(shift) % TWO_32
  }

  lemma BlockChange(s: Sample, c: Registered, k: nat, p: nat, x: nat)
    requires Readable(s, c) && k < |s.backend.layout| && p < |s.memory|
    ensures var t := s.(memory := s.memory[p := x]);
      Readable(t, c) && BlockTerm(t, c, k) == if WordIn(s, c, k, p) then Worth(x, c.shift) else BlockTerm(s, c, k)
    ensures WordIn(s, c, k, p) ==> BlockTerm(s, c, k) == Worth(s.memory[p], c.shift)
  {
    var t := s.(memory := s.memory[p := x]);
    forall j | 0 <= j < |t.backend.layout|
      ensures MetadataOf(t.backend, t.bufferIdx, j).values % 4 == 0
      ensures MetadataOf(t.backend, t.bufferIdx, j).values / 4 + c.offset < |t.memory|
    {
      assert MetadataOf(s.backend, s.bufferIdx, j).values % 4 == 0;
    }
    assert MetadataOf(s.backend, s.bufferIdx, k).values % 4 == 0;
  }

  lemma {:induction false} PrefixChange(s: Sample, c: Registered, n: nat, p: nat, x: nat)
    requires Readable(s, c) && n <= |s.backend.layout| && p < |s.memory|
    requires Ordered(s.backend.layout, 0, s.backend.bufferSize)
    ensures var t := s.(memory := s.memory[p := x]);
      Readable(t, c) && DirectSum(t, c, n) ==
        if WordOf(s, c, n, p) then DirectSum(s, c, n) - Worth(s.memory[p], c.shift) + Worth(x, c.shift)
        else DirectSum(s, c, n)
  {
    if n == 0 {
      var t := s.(memory := s.memory[p := x]);
      forall j | 0 <= j < |t.backend.layout|
        ensures MetadataOf(t.backend, t.bufferIdx, j).values % 4 == 0
        ensures MetadataOf(t.backend, t.bufferIdx, j).values / 4 + c.offset < |t.memory|
      {
        BlockChange(s, c, j, p, x);
      }
    } else {
      PrefixChange(s, c, n - 1, p, x);
      BlockChange(s, c, n - 1, p, x);
      if WordIn(s, c, n - 1, p) {
        assert WordOf(s, c, n, p) && !WordOf(s, c, n - 1, p);
      } else if k :| 0 <= k < n && WordIn(s, c, k, p) {
        assert WordOf(s, c, n - 1, p);
      }
    }
  }

  /** Changing one word of any memory changes the counter's sum by exactly the difference that word makes
      if it is the counter's word in a block of its type, and not at all otherwise. */
  lemma WordChange(s: Sample, c: Registered, bufferCount: nat, p: nat, x: nat)
    requires Mapped(s, c, bufferCount) && p < |s.memory|
    ensures var t := s.(memory := s.memory[p := x]);
      Readable(s, c) && Readable(t, c) && Total(t, c) ==
        if IsWordOf(s, c, p) then Total(s, c) - Worth(s.memory[p], c.shift) + Worth(x, c.shift) else Total(s, c)
  {
    ReadableInMapping(s, c, bufferCount);
    PrefixChange(s, c, |s.backend.layout|, p, x);
  }

  lemma {:induction false} PrefixSame(s: Sample, t: Sample, c: Registered, n: nat)
    requires Readable(s, c) && Readable(t, c) && n <= |s.backend.layout|
    requires t.backend == s.backend && t.bufferIdx == s.bufferIdx
    requires forall p :: 0 <= p < |s.memory| && IsWordOf(s, c, p) ==> p < |t.memory| && t.memory[p] == s.memory[p]
    ensures DirectSum(t, c, n) == DirectSum(s, c, n)
  {
    if n > 0 {
      PrefixSame(s, t, c, n - 1);
      var v := MetadataOf(s.backend, s.bufferIdx, n - 1).values;
      assert v % 4 == 0 && v / 4 + c.offset < |s.memory|;
      if s.backend.layout[n - 1].kind == c.block {
        assert WordIn(s, c, n - 1, v / 4 + c.offset);
      }
    }
  }

  /** Samples that agree on the counter's words have the same sum, whatever the rest of the memory. */
  lemma SameWords(s: Sample, t: Sample, c: Registered)
    requires Readable(s, c) && Readable(t, c) && t.backend == s.backend && t.bufferIdx == s.bufferIdx
    requires forall p :: 0 <= p < |s.memory| && IsWordOf(s, c, p) ==> p < |t.memory| && t.memory[p] == s.memory[p]
    ensures Total(t, c) == Total(s, c)
  {
    PrefixSame(s, t, c, |s.backend.layout|);
  }

  lemma {:induction false} NothingAnywhere(s: Sample, c: Registered, n: nat)
    requires Readable(s, c) && n <= |s.backend.layout| && forall p :: 0 <= p < |s.memory| ==> s.memory[p] == 0
    ensures DirectSum(s, c, n) == 0
  {
    if n > 0 {
      NothingAnywhere(s, c, n - 1);
      assert MetadataOf(s.backend, s.bufferIdx, n - 1).values / 4 + c.offset < |s.memory|;
      assert 0 * Pow2(c.shift) == 0;
    }
  }

  /** In a memory that is zero but for word `p`, the counter's sum is that word's worth or nothing. */
  lemma OneWord(s: Sample, c: Registered, bufferCount: nat, p: nat)
    requires Mapped(s, c, bufferCount) && p < |s.memory|
    requires forall q :: 0 <= q < |s.memory| && q != p ==> s.memory[q] == 0
    ensures Readable(s, c) && Total(s, c) == if IsWordOf(s, c, p) then Worth(s.memory[p], c.shift) else 0
  {
    var zero := s.(memory := s.memory[p := 0]);
    WordChange(s, c, bufferCount, p, 0);
    NothingAnywhere(zero, c, |s.backend.layout|);
    assert 0 * Pow2(c.shift) == 0;
  }

  // ---------- the sample buffer over a history of samples ----------

  /** Clearing with a 4-byte zero leaves the high half of a little-endian 64-bit cell. */
  function ClearLow(v: nat): nat {
    v - v % TWO_32
  }

  /** One cell over a history of samples with the given sums, from a zeroed cell. */
  function Cell(sums: seq<nat>): (v: nat)
    ensures v < TWO_64
  {
    if sums == [] then 0
    else (ClearLow(Cell(sums[..|sums| - 1])) + sums[|sums| - 1]) % TWO_64
  }

  /** What the samples so far have carried out of their low 32 bits. */
  function Carries(sums: seq<nat>): nat {
    if sums == [] then 0 else Carries(sums[..|sums| - 1]) + sums[|sums| - 1] / TWO_32
  }

  /** One clear and fill: the new low half is the sample's, its carry goes to the old high half. */
  lemma CellAfter(v: nat, s: nat)
    ensures var c := (ClearLow(v) + s) % TWO_64;
      c % TWO_32 == s % TWO_32 && c / TWO_32 == (v / TWO_32 + s / TWO_32) % TWO_32
  {
    var h, l := v / TWO_32 + s / TWO_32, s % TWO_32;
    assert ClearLow(v) + s == TWO_32 * h + l;
    DoubleWord(h, l);
  }

  lemma AddModulo32(a: nat, b: nat)
    ensures (a % TWO_32 + b) % TWO_32 == (a + b) % TWO_32
  {
    ModShift(a % TWO_32 + b, TWO_32, a / TWO_32);
  }

  /** For every history the low 32 bits are the last sample's alone; the high half adds up the
      carries of all samples, the last one's included. */
  lemma {:induction false} HistoryOfCell(sums: seq<nat>)
    ensures sums != [] ==> Cell(sums) % TWO_32 == sums[|sums| - 1] % TWO_32
    ensures Cell(sums) / TWO_32 == Carries(sums) % TWO_32
  {
    if sums != [] {
      var init, s := sums[..|sums| - 1], sums[|sums| - 1];
      HistoryOfCell(init);
      CellAfter(Cell(init), s);
      AddModulo32(Carries(init), s / TWO_32);
    }
  }

  lemma DoubleWord(h: nat, l: nat)
    requires l < TWO_32
    ensures (TWO_32 * h + l) % TWO_64 == TWO_32 * (h % TWO_32) + l
    ensures (TWO_32 * h + l) % TWO_64 / TWO_32 == h % TWO_32
    ensures (TWO_32 * h + l) % TWO_64 % TWO_32 == l
  {
    var q, r := h / TWO_32, h % TWO_32;
    DivUnique(TWO_32 * h + l, TWO_64, q, TWO_32 * r + l);
    DivUnique(TWO_32 * r + l, TWO_32, r, l);
  }

  /** The documentation promises that samples of the previous poll are cleared. For the full 64-bit
      value that holds exactly when the earlier samples' carries add up to nothing modulo 2^32. */
  lemma ClearedIffNoCarry(sums: seq<nat>)
    requires sums != []
    ensures Cell(sums) == sums[|sums| - 1] % TWO_64 <==> Carries(sums[..|sums| - 1]) % TWO_32 == 0
  {
    var init, s := sums[..|sums| - 1], sums[|sums| - 1];
    HistoryOfCell(init);
    CellAfter(Cell(init), s);
    CellAfter(0, s);
    SameHalves(Cell(sums), s % TWO_64);
    NothingAdded(Cell(init) / TWO_32, s / TWO_32);
  }

  /** The stale half is reached with words a sample can hold: two blocks whose counters are 2^31
      leave a carry behind that the next, all-zero sample still shows. */
  lemma StaleCell(c: Registered) returns (first: Sample, second: Sample)
    requires c.offset < BLOCK_SIZE / 4 && c.shift == 0
    ensures Readable(first, c) && Readable(second, c) && Total(second, c) == 0
    ensures forall w :: w in first.memory || w in second.memory ==> w < TWO_32
    ensures Cell([Total(first, c)]) == Total(first, c)
    ensures Cell([Total(first, c), Total(second, c)]) == TWO_32
  {
    var layout := [Entry(c.block, 0, 0), Entry(c.block, 1, BLOCK_SIZE)];
    var backend := Backend(layout, 2 * BLOCK_SIZE);
    first := Sample(backend, 0, seq(2 * BLOCK_SIZE / 4, _ => TWO_31));
    second := Sample(backend, 0, seq(2 * BLOCK_SIZE / 4, _ => 0));
    TwoBlocks(first, c, TWO_31);
    TwoBlocks(second, c, 0);
    assert [TWO_32, 0][..1] == [TWO_32] && [TWO_32][..0] == [];
    assert Cell([TWO_32]) == TWO_32;
  }

  lemma TwoBlocks(s: Sample, c: Registered, word: nat)
    requires s.backend.layout == [Entry(c.block, 0, 0), Entry(c.block, 1, BLOCK_SIZE)]
    requires s.bufferIdx == 0 && |s.memory| == 2 * BLOCK_SIZE / 4
    requires forall k :: 0 <= k < |s.memory| ==> s.memory[k] == word
    requires c.offset < BLOCK_SIZE / 4 && c.shift == 0 && word < TWO_32
    ensures Readable(s, c) && Total(s, c) == 2 * word
  {
    assert forall k :: 0 <= k < 2 ==> MetadataOf(s.backend, 0, k).values == BLOCK_SIZE * k;
    assert Pow2(0) == 1;
    assert BlockTerm(s, c, 0) == word && BlockTerm(s, c, 1) == word;
    assert DirectSum(s, c, 1) == DirectSum(s, c, 0) + BlockTerm(s, c, 0);
  }

  lemma SameHalves(a: nat, b: nat)
    ensures a == b <==> a % TWO_32 == b % TWO_32 && a / TWO_32 == b / TWO_32
  {
  }

  lemma NothingAdded(h: nat, g: nat)
    requires h < TWO_32
    ensures (h + g) % TWO_32 == g % TWO_32 <==> h == 0
  {
  }
}
