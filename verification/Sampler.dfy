/** The sampler: index tables built from the registered counters, and sampling through them. */
module IndexTables {
  import opened MachineInts
  import opened SampleLayout
  import opened BlockWalk
  import opened CounterSet
  import opened SampleSums

  datatype Mapping = Mapping(blockOffset: nat, bufferPos: nat, shift: nat)

  /** The counters that are sampled, in list order. */
  function Hardware(s: seq<Registered>): seq<Registered> {
    if s == [] then []
    else Hardware(s[..|s| - 1]) + if s[|s| - 1].hardware then [s[|s| - 1]] else []
  }

  /** `hw` are the hardware counters of `s`, in list order: `at` are their places in the list. */
  ghost predicate Selected(s: seq<Registered>, hw: seq<Registered>, at: seq<nat>) {
    && |at| == |hw|
    && (forall i :: 0 <= i < |at| ==> at[i] < |s| && hw[i] == s[at[i]] && hw[i].hardware)
    && (forall i, j :: 0 <= i < j < |at| ==> at[i] < at[j])
    && (forall k :: 0 <= k < |s| && s[k].hardware ==> k in at)
  }

  lemma SelectedStep(s: seq<Registered>, c: Registered, hw: seq<Registered>, at: seq<nat>)
    requires Selected(s, hw, at)
    ensures c.hardware ==> Selected(s + [c], hw + [c], at + [|s|])
    ensures !c.hardware ==> Selected(s + [c], hw, at)
  {
    var t, z := s + [c], at + [|s|];
    forall k | 0 <= k < |t| && t[k].hardware
      ensures k in z && (!c.hardware ==> k in at)
    {
      if k < |s| { assert s[k] == t[k]; } else { assert z[|at|] == k; }
    }
  }

  lemma {:induction false} HardwareAppend(s: seq<Registered>, c: Registered)
    ensures Hardware(s + [c]) == Hardware(s) + if c.hardware then [c] else []
  {
    assert (s + [c])[..|s|] == s;
  }

  /** Exactly the hardware counters are sampled, in list order. */
  lemma {:induction false} HardwareExactly(s: seq<Registered>) returns (at: seq<nat>)
    ensures Selected(s, Hardware(s), at)
  {
    if s == [] {
      at := [];
    } else {
      var n := |s| - 1;
      at := HardwareExactly(s[..n]);
      HardwareAppend(s[..n], s[n]);
      SelectedStep(s[..n], s[n], Hardware(s[..n]), at);
      assert s == s[..n] + [s[n]];
      at := if s[n].hardware then at + [n] else at;
    }
  }

  /** `list` holds the counters of type `t` among `hw`, by rising position, each once. */
  ghost predicate Lists(hw: seq<Registered>, t: BlockType, list: seq<Mapping>) {
    && (forall i :: 0 <= i < |list| ==> Maps(hw, t, list[i]))
    && (forall i, j :: 0 <= i < j < |list| ==> list[i].bufferPos < list[j].bufferPos)
    && (forall k :: 0 <= k < |hw| && hw[k].block == t ==> Listed(list, k))
  }

  ghost predicate Maps(hw: seq<Registered>, t: BlockType, m: Mapping) {
    m.bufferPos < |hw| && hw[m.bufferPos].block == t
    && m.blockOffset == hw[m.bufferPos].offset && m.shift == hw[m.bufferPos].shift
  }

  ghost predicate Listed(list: seq<Mapping>, k: nat) {
    exists i :: 0 <= i < |list| && list[i].bufferPos == k
  }

  ghost predicate Positioned(hw: seq<Registered>, positions: map<Counter, nat>) {
    && (forall k :: 0 <= k < |hw| ==> hw[k].counter in positions && positions[hw[k].counter] == k)
    && (forall c :: c in positions ==> positions[c] < |hw| && hw[positions[c]].counter == c)
  }

  lemma ListsAppend(hw: seq<Registered>, t: BlockType, list: seq<Mapping>, c: Registered)
    requires Lists(hw, t, list)
    ensures Lists(hw + [c], t, if c.block == t then list + [Mapping(c.offset, |hw|, c.shift)] else list)
  {
    var l := if c.block == t then list + [Mapping(c.offset, |hw|, c.shift)] else list;
    forall i | 0 <= i < |l|
      ensures Maps(hw + [c], t, l[i])
    {
      if i < |list| { assert Maps(hw, t, list[i]); }
    }
    forall k | 0 <= k < |hw + [c]| && (hw + [c])[k].block == t
      ensures Listed(l, k)
    {
      if k < |hw| {
        assert Listed(list, k);
        var i :| 0 <= i < |list| && list[i].bufferPos == k;
        assert l[i].bufferPos == k;
      } else {
        assert l[|list|].bufferPos == k;
      }
    }
  }

  lemma ListedIffTyped(hw: seq<Registered>, t: BlockType, list: seq<Mapping>, k: nat)
    requires Lists(hw, t, list) && k < |hw|
    ensures Listed(list, k) <==> hw[k].block == t
  {
    if Listed(list, k) {
      var i :| 0 <= i < |list| && list[i].bufferPos == k;
      assert Maps(hw, t, list[i]);
    }
  }

  // ---------- one block ----------

  /** The sample buffer after adding block `k` directly, counter by counter. */
  ghost predicate Added(hw: seq<Registered>, s: Sample, k: nat, before: seq<nat>, after: seq<nat>)
    requires k < |s.backend.layout| && forall j :: 0 <= j < |hw| ==> Readable(s, hw[j])
  {
    && |before| == |after| == |hw|
    && forall j :: 0 <= j < |hw| ==> after[j] == (before[j] + BlockTerm(s, hw[j], k)) % TWO_64
  }

  ghost predicate Cells(buffer: seq<nat>) {
    forall k :: 0 <= k < |buffer| ==> buffer[k] < TWO_64
  }

  /** The inner loop over one block's list touches each listed cell once and no other. */
  method AddList(buffer: seq<nat>, list: seq<Mapping>, memory: seq<nat>, values: nat) returns (now: seq<nat>)
    requires forall i :: 0 <= i < |list| ==> list[i].bufferPos < |buffer| && values / 4 + list[i].blockOffset < |memory|
    requires forall i, j :: 0 <= i < j < |list| ==> list[i].bufferPos < list[j].bufferPos
    ensures |now| == |buffer|
    ensures forall i :: 0 <= i < |list| ==>
      var m := list[i];
      now[m.bufferPos] == (buffer[m.bufferPos] + Term(memory, values, m.blockOffset, m.shift)) % TWO_64
    ensures forall k :: 0 <= k < |buffer| && !Listed(list, k) ==> now[k] == buffer[k]
  {
    now := buffer;
    var i := 0;
    while i < |list|
      invariant 0 <= i <= |list| && |now| == |buffer|
      invariant forall l :: 0 <= l < i ==>
        var m := list[l];
        now[m.bufferPos] == (buffer[m.bufferPos] + Term(memory, values, m.blockOffset, m.shift)) % TWO_64
      invariant forall l :: i <= l < |list| ==> now[list[l].bufferPos] == buffer[list[l].bufferPos]
      invariant forall k :: 0 <= k < |buffer| && !Listed(list, k) ==> now[k] == buffer[k]
    {
      var m := list[i];
      now := now[m.bufferPos := (now[m.bufferPos] + Term(memory, values, m.blockOffset, m.shift)) % TWO_64];
      i := i + 1;
    }
  }

  lemma ListIsDirect(hw: seq<Registered>, list: seq<Mapping>, s: Sample, k: nat, before: seq<nat>, after: seq<nat>)
    requires k < |s.backend.layout| && forall j :: 0 <= j < |hw| ==> Readable(s, hw[j])
    requires |before| == |after| == |hw| && Cells(before)
    requires Lists(hw, s.backend.layout[k].kind, list)
    requires forall i :: 0 <= i < |list| ==>
      var m := list[i];
      && MetadataOf(s.backend, s.bufferIdx, k).values / 4 + m.blockOffset < |s.memory|
      && after[m.bufferPos] == (before[m.bufferPos]
           + Term(s.memory, MetadataOf(s.backend, s.bufferIdx, k).values, m.blockOffset, m.shift)) % TWO_64
    requires forall j :: 0 <= j < |hw| && !Listed(list, j) ==> after[j] == before[j]
    ensures Added(hw, s, k, before, after)
  {
    var t := s.backend.layout[k].kind;
    forall j | 0 <= j < |hw|
      ensures after[j] == (before[j] + BlockTerm(s, hw[j], k)) % TWO_64
    {
      ListedIffTyped(hw, t, list, j);
      if hw[j].block == t {
        var i :| 0 <= i < |list| && list[i].bufferPos == j;
        assert Maps(hw, t, list[i]);
      } else {
        assert before[j] < TWO_64;
      }
    }
  }

  // ---------- the tables are a bijection ----------

  /** Positions 0..n-1 and counters correspond one to one, and every counter occurs exactly once
      across the per-block lists, under its own block type and with the same position. */
  lemma TablesAreBijective(hw: seq<Registered>, positions: map<Counter, nat>, byBlock: map<BlockType, seq<Mapping>>)
    requires Distinct(hw) && Positioned(hw, positions)
    requires forall t: BlockType :: t in byBlock && Lists(hw, t, byBlock[t])
    ensures forall c, d :: c in positions && d in positions && positions[c] == positions[d] ==> c == d
    ensures forall p :: 0 <= p < |hw| ==> hw[p].counter in positions && positions[hw[p].counter] == p
    ensures forall c :: c in positions ==> Listed(byBlock[hw[positions[c]].block], positions[c])
    ensures forall t: BlockType, u: BlockType, i, j ::
      (0 <= i < |byBlock[t]| && 0 <= j < |byBlock[u]| && byBlock[t][i].bufferPos == byBlock[u][j].bufferPos) ==>
        (t == u && i == j)
  {
    forall c | c in positions
      ensures Listed(byBlock[hw[positions[c]].block], positions[c])
    {
      assert Lists(hw, hw[positions[c]].block, byBlock[hw[positions[c]].block]);
    }
    forall t: BlockType, u: BlockType, i, j |
      0 <= i < |byBlock[t]| && 0 <= j < |byBlock[u]| && byBlock[t][i].bufferPos == byBlock[u][j].bufferPos
      ensures t == u && i == j
    {
      assert Lists(hw, t, byBlock[t]) && Lists(hw, u, byBlock[u]);
      assert Maps(hw, t, byBlock[t][i]) && Maps(hw, u, byBlock[u][j]);
    }
  }
}

module GpuSampler {
  import opened MachineInts
  import opened SampleLayout
  import opened BlockWalk
  import opened CounterSet
  import opened SampleSums
  import opened IndexTables

  datatype Result = Value(value: nat) | CollectionFailure | UnknownCounter

  class Sampler {
    var positions: map<Counter, nat>
    var byBlock: map<BlockType, seq<Mapping>>
    var buffer: seq<nat>
    var validBuffer: bool
    var sampling: bool
    var lastTimestamp: nat
    ghost var hw: seq<Registered>

    ghost predicate Indexed()
      reads this
    {
      && Distinct(hw) && Positioned(hw, positions)
      && forall t: BlockType :: t in byBlock && Lists(hw, t, byBlock[t])
    }

    ghost predicate Valid()
      reads this
    {
      Indexed() && |buffer| == |hw| && Cells(buffer)
    }

    ghost predicate CanRead(s: Sample)
      reads this
    {
      forall j :: 0 <= j < |hw| ==> Readable(s, hw[j])
    }

    /** `sampler__build_sample_buffer_mappings`. */
    constructor (counters: CounterSet.Set)
      requires counters.Valid()
      ensures Valid() && hw == Hardware(counters.nodes)
      ensures forall k :: 0 <= k < |buffer| ==> buffer[k] == 0
      ensures !validBuffer && !sampling
    {
      positions, buffer, hw := map[], [], [];
      byBlock := map[FrontEnd := [], Tiler := [], MemorySystem := [], ShaderCore := []];
      validBuffer, sampling, lastTimestamp := false, false, 0;
      new;
      forall t: BlockType
        ensures t in byBlock && Lists(hw, t, byBlock[t])
      {
        match t
        case FrontEnd =>
        case Tiler =>
        case MemorySystem =>
        case ShaderCore =>
      }
      var i := 0;
      while i < |counters.nodes|
        invariant 0 <= i <= |counters.nodes|
        invariant hw == Hardware(counters.nodes[..i]) && Valid()
        invariant forall k :: 0 <= k < |hw| ==> hw[k] in counters.nodes[..i]
        invariant forall k :: 0 <= k < |buffer| ==> buffer[k] == 0
        invariant !validBuffer && !sampling
      {
        assert counters.nodes[..i + 1][..i] == counters.nodes[..i];
        if counters.nodes[i].hardware {
          Register(counters.nodes[i]);
        }
        i := i + 1;
      }
      assert counters.nodes[..i] == counters.nodes;
    }

    /** One hardware counter: a position, a zeroed cell and an entry in its block's list. */
    method Register(c: Registered)
      requires Valid() && forall k :: 0 <= k < |hw| ==> hw[k].counter != c.counter
      modifies this`positions, this`byBlock, this`buffer, this`hw
      ensures Valid() && hw == old(hw) + [c] && buffer == old(buffer) + [0]
    {
      var pos := |buffer|;
      positions := positions[c.counter := pos];
      buffer := buffer + [0];
      byBlock := byBlock[c.block := byBlock[c.block] + [Mapping(c.offset, pos, c.shift)]];
      hw := hw + [c];
      forall t: BlockType
        ensures t in byBlock && Lists(hw, t, byBlock[t])
      {
        assert t in old(byBlock) && Lists(old(hw), t, old(byBlock)[t]);
        ListsAppend(old(hw), t, old(byBlock)[t], c);
      }
      assert Distinct(hw);
      assert Positioned(hw, positions);
    }

    /** Adds one block's values to the cells of the counters of its type. */
    method AddBlock(s: Sample, k: nat)
      requires Valid() && k < |s.backend.layout| && CanRead(s)
      modifies this`buffer
      ensures Valid() && CanRead(s) && Added(hw, s, k, old(buffer), buffer)
    {
      var meta := MetadataOf(s.backend, s.bufferIdx, k);
      var list := byBlock[meta.kind];
      assert Lists(hw, meta.kind, list);
      forall i | 0 <= i < |list|
        ensures list[i].bufferPos < |buffer| && meta.values / 4 + list[i].blockOffset < |s.memory|
      {
        assert Maps(hw, meta.kind, list[i]);
        assert Readable(s, hw[list[i].bufferPos]);
      }
      buffer := AddList(buffer, list, s.memory, meta.values);
      ListIsDirect(hw, list, s, k, old(buffer), buffer);
    }

    /** The first `k` blocks of the sample have been added to the cells `before`. */
    ghost predicate Filling(s: Sample, k: nat, before: seq<nat>)
      reads this
    {
      Valid() && CanRead(s) && k <= |s.backend.layout| && Accumulated(hw, s, k, before, buffer)
    }

    /** The block the iterator stands on. */
    method AddNext(s: Sample, it: Iterator, ghost r: Reader, ghost k: nat, ghost before: seq<nat>)
      requires Filling(s, k, before) && r.backend == s.backend
      requires it.At(r, s.bufferIdx, k) && it.reader != null
      modifies this`buffer
      ensures Filling(s, k + 1, before)
    {
      AddBlock(s, it.blockIndex - 1);
      AccumulatedStep(hw, s, k, before, old(buffer), buffer);
    }

    /** `sampler__fill_sample_buffer`: the indexed loop agrees with the direct sum over the blocks. */
    method Fill(s: Sample)
      requires Valid() && CanRead(s)
      modifies this`buffer
      ensures Valid() && CanRead(s)
      ensures forall j :: 0 <= j < |hw| ==> buffer[j] == (old(buffer[j]) + Total(s, hw[j])) % TWO_64
    {
      ghost var before := buffer;
      FillBlocks(s, before);
      assert Accumulated(hw, s, |s.backend.layout|, before, buffer);
    }

    method FillBlocks(s: Sample, ghost before: seq<nat>)
      requires Filling(s, 0, before)
      modifies this`buffer
      ensures Filling(s, |s.backend.layout|, before)
    {
      var r := new Reader(s.backend);
      var it := new Iterator.Begin(r, s.bufferIdx);
      var end := new Iterator.End();
      var done := it.Equals(end);
      ghost var k := 0;
      while !done
        invariant it.At(r, s.bufferIdx, k) && end.reader == null && it != end
        invariant fresh(it) && fresh(end)
        invariant done <==> it.reader == null
        invariant Filling(s, k, before)
        decreases |s.backend.layout| - k
      {
        AddNext(s, it, r, k, before);
        it.Increment(r, s.bufferIdx, k);
        k := k + 1;
        done := it.Equals(end);
      }
    }

    /** `sampler__start_sampling`. */
    method Start()
      modifies this`sampling
      ensures sampling
    {
      sampling := true;
    }

    /** `sampler__sample_now`; exits the program (false) unless sampling was started. The error and
        stretched flags of the sample do not reach the result: the buffer is marked valid anyway. */
    method SampleNow(s: Sample, timestamp: nat, flagged: bool) returns (ok: bool)
      requires Valid() && CanRead(s)
      modifies this`buffer, this`validBuffer, this`lastTimestamp
      ensures Valid() && CanRead(s) && ok == sampling
      ensures !ok ==> buffer == old(buffer) && validBuffer == old(validBuffer)
      ensures ok ==> validBuffer && lastTimestamp == timestamp
      ensures ok ==> forall j :: 0 <= j < |hw| ==> buffer[j] == (ClearLow(old(buffer[j])) + Total(s, hw[j])) % TWO_64
    {
      if !sampling {
        return false;
      }
      if flagged {
        validBuffer := false;
      }
      lastTimestamp := timestamp;
      Clear();
      Fill(s);
      validBuffer := true;
      return true;
    }

    /** The loop that clears out the previous poll, four bytes per cell. */
    method Clear()
      requires Valid()
      modifies this`buffer
      ensures Valid()
      ensures forall j :: 0 <= j < |hw| ==> buffer[j] == ClearLow(old(buffer[j]))
    {
      var i := 0;
      while i < |buffer|
        invariant 0 <= i <= |buffer| == |hw|
        invariant forall k :: 0 <= k < i ==> buffer[k] == ClearLow(old(buffer[k]))
        invariant forall k :: i <= k < |buffer| ==> buffer[k] == old(buffer[k])
      {
        buffer := buffer[i := ClearLow(buffer[i])];
        i := i + 1;
      }
    }

    /** `sampler__get_counter_value`; both failures exit the program. */
    method GetCounterValue(counter: Counter) returns (r: Result)
      requires Valid()
      ensures r.CollectionFailure? <==> !validBuffer
      ensures r.UnknownCounter? <==> validBuffer && forall k :: 0 <= k < |hw| ==> hw[k].counter != counter
      ensures forall k :: 0 <= k < |hw| && hw[k].counter == counter && validBuffer ==> r == Value(buffer[k])
    {
      if !validBuffer {
        return CollectionFailure;
      }
      if counter !in positions {
        return UnknownCounter;
      }
      return Value(buffer[positions[counter]]);
    }
  }

  ghost predicate Accumulated(hw: seq<Registered>, s: Sample, k: nat, before: seq<nat>, now: seq<nat>)
    requires k <= |s.backend.layout| && forall j :: 0 <= j < |hw| ==> Readable(s, hw[j])
  {
    && |before| == |now| == |hw|
    && forall j :: 0 <= j < |hw| ==> now[j] == (before[j] + DirectSum(s, hw[j], k)) % TWO_64
  }

  lemma AccumulatedStep(hw: seq<Registered>, s: Sample, k: nat, before: seq<nat>, was: seq<nat>, now: seq<nat>)
    requires k < |s.backend.layout| && forall j :: 0 <= j < |hw| ==> Readable(s, hw[j])
    requires Accumulated(hw, s, k, before, was) && Added(hw, s, k, was, now)
    ensures Accumulated(hw, s, k + 1, before, now)
  {
    forall j | 0 <= j < |hw|
      ensures now[j] == (before[j] + DirectSum(s, hw[j], k + 1)) % TWO_64
    {
      AddModulo(before[j], DirectSum(s, hw[j], k), BlockTerm(s, hw[j], k));
    }
  }

  lemma AddModulo(a: nat, b: nat, c: nat)
    ensures ((a + b) % TWO_64 + c) % TWO_64 == (a + (b + c)) % TWO_64
  {
  }
}
