/** From GPU counters to the words written to the regulator. */
module Profiler {
  import opened MachineInts
  import opened SampleLayout
  import opened CounterSet
  import opened BlockWalk
  import opened Bits
  import opened SampleSums
  import opened GpuSampler
  import IndexTables
  import Mailbox

  ghost predicate Has(hw: seq<Registered>, counter: Counter) {
    exists k :: 0 <= k < |hw| && hw[k].counter == counter
  }

  /** A beat counter as it is registered: two counters of the memory blocks, unshifted. */
  function Definition(counter: Counter): Registered
    requires counter == MALI_EXT_BUS_RD_BT || counter == MALI_EXT_BUS_WR_BT
  {
    Registered(counter, true, if counter == MALI_EXT_BUS_RD_BT then 32 else 47, 0, MemorySystem)
  }

  /** The beats of one sample: the counter's values summed over the memory blocks. */
  function Beats(s: Sample, counter: Counter): nat
    requires counter == MALI_EXT_BUS_RD_BT || counter == MALI_EXT_BUS_WR_BT
    requires Readable(s, Definition(counter))
  {
    Total(s, Definition(counter))
  }

  ghost predicate BothReadable(s: Sample) {
    Readable(s, Definition(MALI_EXT_BUS_RD_BT)) && Readable(s, Definition(MALI_EXT_BUS_WR_BT))
  }

  ghost predicate AllReadable(samples: seq<Sample>) {
    forall k :: 0 <= k < |samples| ==> BothReadable(samples[k])
  }

  /** The beats of a history of samples. */
  function BeatsOver(samples: seq<Sample>, counter: Counter): (r: seq<nat>)
    requires counter == MALI_EXT_BUS_RD_BT || counter == MALI_EXT_BUS_WR_BT
    requires AllReadable(samples)
    ensures |r| == |samples|
    ensures forall k :: 0 <= k < |r| ==> r[k] == Beats(samples[k], counter)
  {
    seq(|samples|, k requires 0 <= k < |samples| => assert BothReadable(samples[k]); Beats(samples[k], counter))
  }

  /** The registered counters of the profiler, newest first. */
  function Counters(): seq<Registered> {
    [Definition(MALI_EXT_BUS_WR_BT), Definition(MALI_EXT_BUS_RD_BT)]
  }

  datatype Fd = NotStarted | Opened | Terminated

  datatype Write = NoWrite | Write(word0: int, word1: int)

  /** What one signal writes to the device: the write counter ends up in the word for reads and the
      other way round. */
  function Written(s: Sample): Write
    requires BothReadable(s)
  {
    Write(Wrap32(Beats(s, MALI_EXT_BUS_WR_BT)), Wrap32(Beats(s, MALI_EXT_BUS_RD_BT)))
  }

  /** The two cells are what the history of samples determines. */
  ghost predicate CellsAre(samples: seq<Sample>, wr: nat, rd: nat)
    requires AllReadable(samples)
  {
    wr == Cell(BeatsOver(samples, MALI_EXT_BUS_WR_BT)) && rd == Cell(BeatsOver(samples, MALI_EXT_BUS_RD_BT))
  }

  class Profiler {
    var fd: Fd
    const sampler: Sampler

    ghost predicate Valid()
      reads this, sampler
    {
      sampler.Valid() && sampler.hw == Counters() && sampler.sampling
    }

    /** `main` up to the wait loop. */
    constructor ()
      ensures Valid() && fd == NotStarted && fresh(sampler)
      ensures forall k :: 0 <= k < |sampler.buffer| ==> sampler.buffer[k] == 0
    {
      fd := NotStarted;
      var counters := new CounterSet.Set();
      counters.Insert(Definition(MALI_EXT_BUS_RD_BT));
      counters.Insert(Definition(MALI_EXT_BUS_WR_BT));
      assert counters.nodes == Counters();
      var s := new Sampler(counters);
      BothHardware();
      s.Start();
      sampler := s;
    }

    /** One sample and the values of the two counters. */
    method TakeSample(s: Sample, timestamp: nat) returns (rd: int, wr: int)
      requires Valid() && BothReadable(s)
      modifies sampler`buffer, sampler`validBuffer, sampler`lastTimestamp
      ensures Valid() && rd == sampler.buffer[1] && wr == sampler.buffer[0]
      ensures sampler.buffer[0] == (ClearLow(old(sampler.buffer[0])) + Beats(s, MALI_EXT_BUS_WR_BT)) % TWO_64
      ensures sampler.buffer[1] == (ClearLow(old(sampler.buffer[1])) + Beats(s, MALI_EXT_BUS_RD_BT)) % TWO_64
    {
      assert sampler.hw[0] == Definition(MALI_EXT_BUS_WR_BT) && sampler.hw[1] == Definition(MALI_EXT_BUS_RD_BT);
      var ok := sampler.SampleNow(s, timestamp, false);
      var c1 := sampler.GetCounterValue(MALI_EXT_BUS_RD_BT);
      var c2 := sampler.GetCounterValue(MALI_EXT_BUS_WR_BT);
      rd, wr := c1.value, c2.value;
    }

    /** The SIGUSR1 branch. `canOpen` says whether the device opens; a failed open leaves the state
        as it was. */
    method OnSigusr1(s: Sample, timestamp: nat, canOpen: bool) returns (w: Write)
      requires Valid() && BothReadable(s)
      modifies this`fd, sampler`buffer, sampler`validBuffer, sampler`lastTimestamp
      ensures Valid()
      ensures fd == if old(fd) == NotStarted && canOpen then Opened else old(fd)
      ensures fd != Opened ==> w == NoWrite && sampler.buffer == old(sampler.buffer)
      ensures fd == Opened ==> w == Written(s)
      ensures fd == Opened ==>
        && sampler.buffer[0] == (ClearLow(old(sampler.buffer[0])) + Beats(s, MALI_EXT_BUS_WR_BT)) % TWO_64
        && sampler.buffer[1] == (ClearLow(old(sampler.buffer[1])) + Beats(s, MALI_EXT_BUS_RD_BT)) % TWO_64
    {
      if fd == NotStarted {
        if !canOpen {
          return NoWrite;
        }
        fd := Opened;
      } else if fd == Terminated {
        return NoWrite;
      }
      var rd, wr := TakeSample(s, timestamp);
      LowHalf(old(sampler.buffer[0]), Beats(s, MALI_EXT_BUS_WR_BT));
      LowHalf(old(sampler.buffer[1]), Beats(s, MALI_EXT_BUS_RD_BT));
      w := Write(Wrap32(wr), Wrap32(rd));
    }

    /** The two cells hold what the history of samples determines. */
    ghost predicate Holds(samples: seq<Sample>)
      requires AllReadable(samples) && Valid()
      reads this, sampler
    {
      CellsAre(samples, sampler.buffer[0], sampler.buffer[1])
    }

    method PollOnce(samples: seq<Sample>, i: nat) returns (w: Write)
      requires Valid() && fd != Terminated && i < |samples| && AllReadable(samples) && AllReadable(samples[..i])
      requires Holds(samples[..i])
      modifies this`fd, sampler`buffer, sampler`validBuffer, sampler`lastTimestamp
      ensures Valid() && fd != Terminated && AllReadable(samples[..i + 1]) && Holds(samples[..i + 1])
      ensures BothReadable(samples[i]) && w == Written(samples[i])
    {
      CellsGrow(samples, i, sampler.buffer[0], sampler.buffer[1]);
      w := OnSigusr1(samples[i], 0, true);
    }

    /** Any history of signals once the device opens: every write carries its own sample's beats in
        the low 32 bits, and each 64-bit cell is the one its history of sums determines. */
    method Poll(samples: seq<Sample>) returns (writes: seq<Write>)
      requires Valid() && fd != Terminated && AllReadable(samples)
      requires forall k :: 0 <= k < |sampler.buffer| ==> sampler.buffer[k] == 0
      modifies this`fd, sampler`buffer, sampler`validBuffer, sampler`lastTimestamp
      ensures Valid() && |writes| == |samples| && Holds(samples)
      ensures forall k :: 0 <= k < |samples| ==> BothReadable(samples[k]) && writes[k] == Written(samples[k])
    {
      writes := [];
      var i := 0;
      while i < |samples|
        invariant 0 <= i <= |samples| && |writes| == i
        invariant Valid() && fd != Terminated
        invariant AllReadable(samples[..i]) && Holds(samples[..i])
        invariant forall k :: 0 <= k < i ==> BothReadable(samples[k]) && writes[k] == Written(samples[k])
      {
        var w := PollOnce(samples, i);
        writes := writes + [w];
        i := i + 1;
      }
      assert samples[..i] == samples;
    }
  }

  lemma BothHardware()
    ensures IndexTables.Hardware(Counters()) == Counters()
  {
    var c := Counters();
    assert c[..1] == [c[0]] && c[..1][..0] == [];
    assert IndexTables.Hardware(c[..1]) == [c[0]];
  }

  /** Truncating a cell to an int depends on the last sample only. */
  lemma LowHalf(v: nat, s: nat)
    ensures Wrap32((ClearLow(v) + s) % TWO_64) == Wrap32(s)
  {
    var x := ClearLow(v) + s;
    var k := v / TWO_32 - x / TWO_64 * TWO_32;
    assert x % TWO_64 == s + k * TWO_32;
    ModShift(s + TWO_31, TWO_32, k);
  }

  /** Word `p` of the mapping is word `offset` of some memory block of the sample. */
  ghost predicate MemoryWord(s: Sample, offset: nat, p: nat) {
    exists k :: 0 <= k < |s.backend.layout| && s.backend.layout[k].kind == MemorySystem
      && 4 * p == s.backend.bufferSize * s.bufferIdx + s.backend.layout[k].offset + 4 * offset
  }

  /** The mapping holds `bufferCount` sample buffers, the layout fits each, and all memory is zero but for
      word `p`, which fits an int. */
  ghost predicate OnlyWord(s: Sample, bufferCount: nat, p: nat) {
    && s.bufferIdx < bufferCount
    && Ordered(s.backend.layout, 0, s.backend.bufferSize) && s.backend.bufferSize % 4 == 0
    && 4 * |s.memory| == s.backend.bufferSize * bufferCount
    && p < |s.memory| && s.memory[p] < TWO_31
    && forall q :: 0 <= q < |s.memory| && q != p ==> s.memory[q] == 0
  }

  lemma BeatsOfWord(s: Sample, bufferCount: nat, counter: Counter, offset: nat, p: nat)
    requires counter == MALI_EXT_BUS_RD_BT || counter == MALI_EXT_BUS_WR_BT
    requires offset == if counter == MALI_EXT_BUS_RD_BT then 32 else 47
    requires OnlyWord(s, bufferCount, p)
    ensures Readable(s, Definition(counter))
    ensures Beats(s, counter) == if MemoryWord(s, offset, p) then s.memory[p] else 0
  {
    var c := Definition(counter);
    OneWord(s, c, bufferCount, p);
    assert Pow2(0) == 1;
    if MemoryWord(s, offset, p) {
      var k :| 0 <= k < |s.backend.layout| && s.backend.layout[k].kind == MemorySystem
        && 4 * p == s.backend.bufferSize * s.bufferIdx + s.backend.layout[k].offset + 4 * offset;
      assert WordIn(s, c, k, p);
    }
    if IsWordOf(s, c, p) {
      var k :| 0 <= k < |s.backend.layout| && WordIn(s, c, k, p);
      assert s.backend.layout[k].kind == MemorySystem;
    }
  }

  /** From one word of a memory block to the device: word 32 holds the read beats and ends up second, word
      47 holds the write beats and ends up first; no other word of the mapping is written at all. */
  lemma OneWordWritten(s: Sample, bufferCount: nat, p: nat)
    requires OnlyWord(s, bufferCount, p)
    ensures BothReadable(s)
    ensures Written(s) ==
      Write(if MemoryWord(s, 47, p) then s.memory[p] else 0, if MemoryWord(s, 32, p) then s.memory[p] else 0)
  {
    BeatsOfWord(s, bufferCount, MALI_EXT_BUS_RD_BT, 32, p);
    BeatsOfWord(s, bufferCount, MALI_EXT_BUS_WR_BT, 47, p);
    WrapBelow(Beats(s, MALI_EXT_BUS_RD_BT));
    WrapBelow(Beats(s, MALI_EXT_BUS_WR_BT));
  }

  lemma {:induction false} CellGrows(samples: seq<Sample>, i: nat, counter: Counter, cell: nat)
    requires counter == MALI_EXT_BUS_RD_BT || counter == MALI_EXT_BUS_WR_BT
    requires i < |samples| && AllReadable(samples)
    requires AllReadable(samples[..i]) && cell == Cell(BeatsOver(samples[..i], counter))
    ensures AllReadable(samples[..i + 1]) && BothReadable(samples[i])
    ensures Cell(BeatsOver(samples[..i + 1], counter)) == (ClearLow(cell) + Beats(samples[i], counter)) % TWO_64
  {
    assert BothReadable(samples[i]);
    var now := BeatsOver(samples[..i + 1], counter);
    assert now[..i] == BeatsOver(samples[..i], counter);
    assert now[i] == Beats(samples[i], counter);
  }

  lemma {:induction false} CellsGrow(samples: seq<Sample>, i: nat, wr: nat, rd: nat)
    requires i < |samples| && AllReadable(samples) && AllReadable(samples[..i]) && CellsAre(samples[..i], wr, rd)
    ensures AllReadable(samples[..i + 1]) && BothReadable(samples[i])
    ensures CellsAre(samples[..i + 1], (ClearLow(wr) + Beats(samples[i], MALI_EXT_BUS_WR_BT)) % TWO_64,
                     (ClearLow(rd) + Beats(samples[i], MALI_EXT_BUS_RD_BT)) % TWO_64)
  {
    CellGrows(samples, i, MALI_EXT_BUS_WR_BT, wr);
    CellGrows(samples, i, MALI_EXT_BUS_RD_BT, rd);
  }

  /** From the GPU's counters to the cluster's usage: the charge for a sample is a quarter of the
      beats summed over the memory blocks, rounded down, whichever word each sum was written to. */
  lemma SampleIsCharged(s: Sample)
    requires BothReadable(s)
    requires Beats(s, MALI_EXT_BUS_RD_BT) + Beats(s, MALI_EXT_BUS_WR_BT) < 0x800_0000
    ensures Written(s).Write? && Mailbox.ChargeOf(Written(s).word0, Written(s).word1)
         == (Beats(s, MALI_EXT_BUS_RD_BT) + Beats(s, MALI_EXT_BUS_WR_BT)) / 4
  {
    var rd, wr := Beats(s, MALI_EXT_BUS_RD_BT), Beats(s, MALI_EXT_BUS_WR_BT);
    WrapBelow(rd);
    WrapBelow(wr);
    Mailbox.ChargeAtMostQuarter(wr, rd);
  }
}
