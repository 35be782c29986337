/** Where each hardware block's counters sit in a sample. */
module SampleLayout {
  import opened MachineInts
  import opened Bits
  import Bitset

  datatype BlockType = FrontEnd | Tiler | MemorySystem | ShaderCore

  datatype Entry = Entry(kind: BlockType, index: nat, offset: nat)

  /** Number of enabled blocks of each type. */
  datatype Extents = Extents(frontEnd: nat, tiler: nat, memory: nat, core: nat)

  const BLOCK_SIZE: nat := 256
  const MAX_BLOCKS: nat := 82
  const MAX_CORES: nat := 64

  function Optional(enabled: nat, e: Entry): seq<Entry> {
    if enabled != 0 then [e] else []
  }

  function MemoryEntries(n: nat): (s: seq<Entry>)
    ensures |s| == n
    ensures forall i :: 0 <= i < n ==> s[i] == Entry(MemorySystem, i, 2 * BLOCK_SIZE + BLOCK_SIZE * i)
  {
    seq(n, i requires 0 <= i < n => Entry(MemorySystem, i, 2 * BLOCK_SIZE + BLOCK_SIZE * i))
  }

  /** The cores among the first `n` bits of the mask, numbered by rank. */
  function CoreEntries(mask: nat, n: nat, base: nat): seq<Entry> {
    if n == 0 then []
    else
      CoreEntries(mask, n - 1, base)
      + if BitAt(mask, n - 1) == 1 then [Entry(ShaderCore, CountBits(mask, n - 1), base + BLOCK_SIZE * (n - 1))] else []
  }

  function CoreBase(slices: nat): nat {
    2 * BLOCK_SIZE + BLOCK_SIZE * slices
  }

  /** Front end, tiler, memory slices, shader cores; the slice loop counts in eight bits. */
  function NonV4(x: Extents, slices: nat, mask: nat): seq<Entry> {
    Optional(x.frontEnd, Entry(FrontEnd, 0, 0))
    + Optional(x.tiler, Entry(Tiler, 0, BLOCK_SIZE))
    + (if x.memory != 0 then MemoryEntries(slices % 256) else [])
    + (if x.core != 0 then CoreEntries(mask, MAX_CORES, CoreBase(slices)) else [])
  }

  class Layout {
    const layout: array<Entry>
    var numBlocks: nat

    ghost predicate Valid()
      reads this
    {
      layout.Length == MAX_BLOCKS && numBlocks <= MAX_BLOCKS
    }

    ghost function Contents(): seq<Entry>
      requires Valid()
      reads this, layout
    {
      layout[..numBlocks]
    }

    constructor ()
      ensures Valid() && fresh(layout) && Contents() == []
    {
      layout := new Entry[MAX_BLOCKS](i => Entry(FrontEnd, 0, 0));
      numBlocks := 0;
    }

    method PushBack(value: Entry)
      requires Valid() && numBlocks < MAX_BLOCKS
      modifies this`numBlocks, layout
      ensures Valid() && Contents() == old(Contents()) + [value]
    {
      layout[numBlocks] := value;
      numBlocks := numBlocks + 1;
    }

    /** `sample_layout_non_v4`; the array does not grow, so the entries must fit. */
    method Populate(x: Extents, slices: nat, scMask: Bitset.Set, ghost mask: nat)
      requires Valid() && numBlocks == 0 && |NonV4(x, slices, mask)| <= MAX_BLOCKS
      requires scMask.Valid() && scMask.size == MAX_CORES && Bitset.Value(scMask.bits[..]) == mask
      modifies this`numBlocks, layout
      ensures Valid() && Contents() == NonV4(x, slices, mask)
    {
      PushFront(x);
      if x.memory != 0 {
        PushMemory(slices);
      }
      if x.core != 0 {
        PushCores(CoreBase(slices), scMask, mask);
      }
    }

    method PushFront(x: Extents)
      requires Valid() && numBlocks == 0
      modifies this`numBlocks, layout
      ensures Valid()
      ensures Contents() == Optional(x.frontEnd, Entry(FrontEnd, 0, 0)) + Optional(x.tiler, Entry(Tiler, 0, BLOCK_SIZE))
    {
      if x.frontEnd != 0 {
        PushBack(Entry(FrontEnd, 0, 0));
      }
      if x.tiler != 0 {
        PushBack(Entry(Tiler, 0, BLOCK_SIZE));
      }
    }

    method PushMemory(slices: nat)
      requires Valid() && |Contents()| + slices % 256 <= MAX_BLOCKS
      modifies this`numBlocks, layout
      ensures Valid() && Contents() == old(Contents()) + MemoryEntries(slices % 256)
    {
      var i := 0;
      while i < slices % 256
        invariant 0 <= i <= slices % 256
        invariant Valid() && Contents() == old(Contents()) + MemoryEntries(slices % 256)[..i]
      {
        PushBack(Entry(MemorySystem, i, 2 * BLOCK_SIZE + i * BLOCK_SIZE));
        i := i + 1;
      }
    }

    method PushCores(base: nat, scMask: Bitset.Set, ghost mask: nat)
      requires Valid() && |Contents()| + |CoreEntries(mask, MAX_CORES, base)| <= MAX_BLOCKS
      requires scMask.Valid() && scMask.size == MAX_CORES && Bitset.Value(scMask.bits[..]) == mask
      modifies this`numBlocks, layout
      ensures Valid() && Contents() == old(Contents()) + CoreEntries(mask, MAX_CORES, base)
    {
      var scIndex, i := 0, 0;
      while i < scMask.size
        invariant 0 <= i <= MAX_CORES
        invariant Valid() && Bitset.Value(scMask.bits[..]) == mask
        invariant scIndex == CountBits(mask, i)
        invariant Contents() == old(Contents()) + CoreEntries(mask, i, base)
      {
        var bit := CoreBit(scMask, i, mask);
        CoreEntriesGrow(mask, i + 1, MAX_CORES, base);
        if bit == 1 {
          PushBack(Entry(ShaderCore, scIndex, base + BLOCK_SIZE * i));
          scIndex := scIndex + 1;
        }
        i := i + 1;
      }
    }
  }

  method CoreBit(scMask: Bitset.Set, i: nat, ghost mask: nat) returns (bit: nat)
    requires scMask.Valid() && scMask.size == MAX_CORES && i < MAX_CORES
    requires Bitset.Value(scMask.bits[..]) == mask
    ensures bit == BitAt(mask, i)
  {
    bit := scMask.GetBit(i);
  }

  lemma {:induction false} CoreEntriesGrow(mask: nat, m: nat, n: nat, base: nat)
    requires m <= n
    ensures |CoreEntries(mask, m, base)| <= |CoreEntries(mask, n, base)|
    decreases n
  {
    if m < n { CoreEntriesGrow(mask, m, n - 1, base); }
  }

  // ---------- what a layout guarantees ----------

  /** Block-aligned byte ranges, strictly increasing, disjoint, and inside [lo, hi). */
  ghost predicate Ordered(s: seq<Entry>, lo: nat, hi: nat) {
    && (forall i :: 0 <= i < |s| ==>
          lo <= s[i].offset && s[i].offset + BLOCK_SIZE <= hi && s[i].offset % BLOCK_SIZE == 0)
    && (forall i, j :: 0 <= i < j < |s| ==> s[i].offset + BLOCK_SIZE <= s[j].offset)
  }

  lemma OrderedAppend(a: seq<Entry>, b: seq<Entry>, lo: nat, mid: nat, hi: nat)
    requires lo <= mid <= hi && Ordered(a, lo, mid) && Ordered(b, mid, hi)
    ensures Ordered(a + b, lo, hi)
  {
  }

  lemma {:induction false} CoresNumbered(mask: nat, n: nat, base: nat)
    ensures var s := CoreEntries(mask, n, base);
      && |s| == CountBits(mask, n)
      && forall i :: 0 <= i < |s| ==> s[i].kind == ShaderCore && s[i].index == i
  {
    if n > 0 {
      CoresNumbered(mask, n - 1, base);
    }
  }

  lemma {:induction false} CoresOrdered(mask: nat, n: nat, base: nat)
    requires base % BLOCK_SIZE == 0
    ensures Ordered(CoreEntries(mask, n, base), base, base + BLOCK_SIZE * n)
  {
    if n > 0 {
      CoresOrdered(mask, n - 1, base);
      AnotherCore(mask, n - 1, base);
    }
  }

  lemma AnotherCore(mask: nat, k: nat, base: nat)
    requires base % BLOCK_SIZE == 0 && Ordered(CoreEntries(mask, k, base), base, base + BLOCK_SIZE * k)
    ensures Ordered(CoreEntries(mask, k + 1, base), base, base + BLOCK_SIZE * (k + 1))
  {
    var last := if BitAt(mask, k) == 1 then [Entry(ShaderCore, CountBits(mask, k), base + BLOCK_SIZE * k)] else [];
    ModShift(base, BLOCK_SIZE, k);
    assert Ordered(last, base + BLOCK_SIZE * k, base + BLOCK_SIZE * (k + 1));
    assert CoreEntries(mask, k + 1, base) == CoreEntries(mask, k, base) + last;
    OrderedAppend(CoreEntries(mask, k, base), last, base, base + BLOCK_SIZE * k, base + BLOCK_SIZE * (k + 1));
  }

  /** Each core's index is the rank of its bit in the mask, and its offset is the slot of its bit. */
  lemma {:induction false} CoreRank(mask: nat, n: nat, base: nat, k: nat)
    requires k < n && BitAt(mask, k) == 1
    ensures CountBits(mask, k) < |CoreEntries(mask, n, base)|
    ensures CoreEntries(mask, n, base)[CountBits(mask, k)]
         == Entry(ShaderCore, CountBits(mask, k), base + BLOCK_SIZE * k)
  {
    CoresNumbered(mask, n - 1, base);
    if k < n - 1 {
      CoreRank(mask, n - 1, base, k);
    }
  }

  lemma MemoryOrdered(slices: nat)
    ensures Ordered(MemoryEntries(slices % 256), 2 * BLOCK_SIZE, CoreBase(slices))
  {
  }

  /** For every slice count and core mask: byte ranges are aligned, increasing and disjoint inside
      block_size * (2 + slices + 64). */
  lemma LayoutIsOrdered(x: Extents, slices: nat, mask: nat)
    ensures Ordered(NonV4(x, slices, mask), 0, BLOCK_SIZE * (2 + slices + MAX_CORES))
  {
    var fe, tiler := Optional(x.frontEnd, Entry(FrontEnd, 0, 0)), Optional(x.tiler, Entry(Tiler, 0, BLOCK_SIZE));
    var memory := if x.memory != 0 then MemoryEntries(slices % 256) else [];
    var cores := if x.core != 0 then CoreEntries(mask, MAX_CORES, CoreBase(slices)) else [];
    MemoryOrdered(slices);
    CoresOrdered(mask, MAX_CORES, CoreBase(slices));
    FourInOrder(fe, tiler, memory, cores, CoreBase(slices), CoreBase(slices) + BLOCK_SIZE * MAX_CORES);
  }

  lemma FourInOrder(a: seq<Entry>, b: seq<Entry>, c: seq<Entry>, d: seq<Entry>, mid: nat, hi: nat)
    requires Ordered(a, 0, BLOCK_SIZE) && Ordered(b, BLOCK_SIZE, 2 * BLOCK_SIZE)
    requires 2 * BLOCK_SIZE <= mid <= hi && Ordered(c, 2 * BLOCK_SIZE, mid) && Ordered(d, mid, hi)
    ensures Ordered(a + b + c + d, 0, hi)
  {
    OrderedAppend(a, b, 0, BLOCK_SIZE, 2 * BLOCK_SIZE);
    OrderedAppend(a + b, c, 0, 2 * BLOCK_SIZE, mid);
    OrderedAppend(a + b + c, d, 0, mid, hi);
  }

  /** An entry and the byte range of its block, by type: front end first, tiler second, then a slot for
      each memory slice, then a slot for each bit of the mask. */
  ghost predicate Belongs(e: Entry, x: Extents, slices: nat, mask: nat) {
    match e.kind
    case FrontEnd => x.frontEnd != 0 && e.index == 0 && e.offset == 0
    case Tiler => x.tiler != 0 && e.index == 0 && e.offset == 256
    case MemorySystem => x.memory != 0 && e.index < slices % 256 && e.offset == 256 * (2 + e.index)
    case ShaderCore => x.core != 0 && IsCore(e, slices, mask)
  }

  /** The entry is that of a set bit `k`; its index counts the set bits below. */
  ghost predicate IsCore(e: Entry, slices: nat, mask: nat) {
    exists k :: 0 <= k < 64 && BitAt(mask, k) == 1
      && e.index == CountBits(mask, k) && e.offset == 256 * (2 + slices + k)
  }

  lemma {:induction false} CoreEntriesExactly(mask: nat, n: nat, base: nat, e: Entry)
    ensures e in CoreEntries(mask, n, base) <==>
      exists k :: 0 <= k < n && BitAt(mask, k) == 1 && e == Entry(ShaderCore, CountBits(mask, k), base + BLOCK_SIZE * k)
  {
    if n > 0 {
      CoreEntriesExactly(mask, n - 1, base, e);
    }
  }

  lemma CoresExactly(slices: nat, mask: nat, e: Entry)
    ensures e in CoreEntries(mask, MAX_CORES, CoreBase(slices)) <==> e.kind == ShaderCore && IsCore(e, slices, mask)
  {
    CoreEntriesExactly(mask, MAX_CORES, CoreBase(slices), e);
    if e.kind == ShaderCore && IsCore(e, slices, mask) {
      var k :| 0 <= k < 64 && BitAt(mask, k) == 1
        && e.index == CountBits(mask, k) && e.offset == 256 * (2 + slices + k);
      assert e == Entry(ShaderCore, CountBits(mask, k), CoreBase(slices) + BLOCK_SIZE * k);
    }
  }

  lemma MemoryExactly(n: nat, e: Entry)
    ensures e in MemoryEntries(n) <==> e.kind == MemorySystem && e.index < n && e.offset == 256 * (2 + e.index)
  {
    if e.index < n { assert MemoryEntries(n)[e.index] in MemoryEntries(n); }
  }

  /** The layout holds exactly the entries of the enabled blocks; in increasing order (`LayoutIsOrdered`). */
  lemma LayoutExactly(x: Extents, slices: nat, mask: nat, e: Entry)
    ensures e in NonV4(x, slices, mask) <==> Belongs(e, x, slices, mask)
  {
    MemoryExactly(slices % 256, e);
    CoresExactly(slices, mask, e);
  }

  /** The entries are the enabled blocks, slices counted in eight bits and cores by the set bits of
      the mask. */
  lemma LayoutSize(x: Extents, slices: nat, mask: nat)
    ensures |NonV4(x, slices, mask)| ==
      (if x.frontEnd != 0 then 1 else 0) + (if x.tiler != 0 then 1 else 0)
      + (if x.memory != 0 then slices % 256 else 0) + (if x.core != 0 then CountBits(mask, MAX_CORES) else 0)
  {
    CoresNumbered(mask, MAX_CORES, CoreBase(slices));
  }

  lemma {:induction false} AllOnes(n: nat)
    ensures CountBits(Pow2(n) - 1, n) == n
  {
    if n > 0 {
      AllOnes(n - 1);
      CountShift(Pow2(n) - 1, n - 1);
      assert (Pow2(n) - 1) / 2 == Pow2(n - 1) - 1;
    }
  }

  lemma FullMaskOverflows(slices: nat) returns (mask: nat)
    requires slices % 256 > 16
    ensures |NonV4(Extents(1, 1, 1, 1), slices, mask)| > MAX_BLOCKS
  {
    mask := Pow2(MAX_CORES) - 1;
    AllOnes(MAX_CORES);
    LayoutSize(Extents(1, 1, 1, 1), slices, mask);
  }

  /** The fixed array of 82 entries is large enough for every mask and every set of enabled blocks
      exactly when there are at most 16 slices, counted in eight bits. */
  lemma FitsIffSixteenSlices(slices: nat)
    ensures (forall x: Extents, mask: nat :: |NonV4(x, slices, mask)| <= MAX_BLOCKS) <==> slices % 256 <= 16
  {
    if slices % 256 <= 16 {
      forall x: Extents, mask: nat
        ensures |NonV4(x, slices, mask)| <= MAX_BLOCKS
      {
        LayoutSize(x, slices, mask);
      }
    } else {
      var mask := FullMaskOverflows(slices);
    }
  }
}
