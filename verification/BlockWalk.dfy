/** The begin/end walk over the blocks of one sample. */
module BlockWalk {
  import opened MachineInts
  import opened SampleLayout

  /** The part of the backend a walk reads: the layout and the size of one sample buffer. */
  datatype Backend = Backend(layout: seq<Entry>, bufferSize: nat)

  /** `values` is the byte position of the block's counters in the mapped memory. */
  datatype Metadata = Metadata(kind: BlockType, index: nat, values: nat)

  function MetadataOf(b: Backend, bufferIdx: nat, k: nat): Metadata
    requires k < |b.layout|
  {
    Metadata(b.layout[k].kind, b.layout[k].index, b.bufferSize * bufferIdx + b.layout[k].offset)
  }

  /** `reader` is null once the walk has ended, and in the end iterator. */
  class Reader {
    const backend: Backend
    constructor (backend: Backend)
      ensures this.backend == backend
    {
      this.backend := backend;
    }
  }

  class Iterator {
    var reader: Reader?
    var bufferIdx: nat
    var blockIndex: nat
    var metadata: Metadata

    /** Standing on the block before `blockIndex`, or past the last one. */
    ghost predicate At(r: Reader, idx: nat, k: nat)
      reads this
    {
      && bufferIdx == idx
      && k <= |r.backend.layout|
      && if k < |r.backend.layout|
         then reader == r && blockIndex == k + 1 && metadata == MetadataOf(r.backend, idx, k)
         else reader == null && blockIndex == k
    }

    /** `block_iterator__init`. */
    constructor End()
      ensures reader == null
    {
      reader, bufferIdx, blockIndex := null, 0, 0;
      metadata := Metadata(FrontEnd, 0, 0);
    }

    /** `block_iterator__init_with_args`. */
    constructor Begin(r: Reader, idx: nat)
      ensures At(r, idx, 0)
    {
      reader, bufferIdx, blockIndex := r, idx, 0;
      metadata := Metadata(FrontEnd, 0, 0);
      new;
      var more := Next();
      if !more {
        reader := null;
      }
    }

    /** `vinstr_backend__next`. */
    method Next() returns (more: bool)
      requires reader != null && blockIndex <= |reader.backend.layout|
      modifies this`blockIndex, this`metadata
      ensures more <==> old(blockIndex) < |reader.backend.layout|
      ensures more ==> blockIndex == old(blockIndex) + 1
      ensures more ==> metadata == MetadataOf(reader.backend, bufferIdx, old(blockIndex))
      ensures !more ==> blockIndex == old(blockIndex) && metadata == old(metadata)
    {
      if blockIndex == |reader.backend.layout| {
        return false;
      }
      var entry := reader.backend.layout[blockIndex];
      metadata := Metadata(entry.kind, entry.index, reader.backend.bufferSize * bufferIdx + entry.offset);
      blockIndex := blockIndex + 1;
      return true;
    }

    /** `block_iterator__increment`; incrementing an ended iterator exits the program. */
    method Increment(ghost r: Reader, ghost idx: nat, ghost k: nat)
      requires At(r, idx, k) && reader != null
      modifies this
      ensures At(r, idx, k + 1)
    {
      var more := Next();
      if !more {
        reader := null;
      }
    }

    method Equals(other: Iterator) returns (b: bool)
      ensures reader == null && other.reader == null ==> b
      ensures (reader == null) != (other.reader == null) ==> !b
      ensures reader != null && other.reader != null ==>
        (b <==> reader == other.reader && bufferIdx == other.bufferIdx && blockIndex == other.blockIndex)
    {
      if reader == null && other.reader == null {
        return true;
      }
      if reader == null || other.reader == null {
        return false;
      }
      return reader == other.reader && bufferIdx == other.bufferIdx && blockIndex == other.blockIndex;
    }
  }

  /** The walk terminates and yields every layout entry exactly once, in layout order, the empty
      layout included; each block's counters lie at its entry's offset in the sample's own buffer. */
  method Walk(b: Backend, bufferIdx: nat) returns (seen: seq<Metadata>)
    ensures |seen| == |b.layout|
    ensures forall k :: 0 <= k < |seen| ==>
      && seen[k].kind == b.layout[k].kind && seen[k].index == b.layout[k].index
      && seen[k].values == b.bufferSize * bufferIdx + b.layout[k].offset
  {
    var r := new Reader(b);
    var it := new Iterator.Begin(r, bufferIdx);
    var end := new Iterator.End();
    seen := [];
    var done := it.Equals(end);
    while !done
      invariant it.At(r, bufferIdx, |seen|) && end.reader == null && it != end
      invariant done <==> it.reader == null
      invariant forall k :: 0 <= k < |seen| ==> seen[k] == MetadataOf(b, bufferIdx, k)
      decreases |b.layout| - |seen|
    {
      seen := seen + [it.metadata];
      it.Increment(r, bufferIdx, |seen| - 1);
      done := it.Equals(end);
    }
  }

  /** Every block that is yielded lies inside its sample's own buffer. */
  lemma InsideOwnBuffer(b: Backend, bufferIdx: nat, k: nat)
    requires k < |b.layout| && Ordered(b.layout, 0, b.bufferSize)
    ensures b.bufferSize * bufferIdx <= MetadataOf(b, bufferIdx, k).values
    ensures MetadataOf(b, bufferIdx, k).values + BLOCK_SIZE <= b.bufferSize * (bufferIdx + 1)
  {
    assert b.bufferSize * (bufferIdx + 1) == b.bufferSize * bufferIdx + b.bufferSize;
  }

  /** Hence it lies inside the mapping. */
  lemma InsideMapping(b: Backend, bufferIdx: nat, bufferCount: nat, k: nat)
    requires bufferIdx < bufferCount && k < |b.layout|
    requires Ordered(b.layout, 0, b.bufferSize)
    ensures MetadataOf(b, bufferIdx, k).values + BLOCK_SIZE <= b.bufferSize * bufferCount
  {
    InsideOwnBuffer(b, bufferIdx, k);
    MulLe(bufferIdx + 1, bufferCount, b.bufferSize);
  }

  /** Different blocks never overlap, neither within a buffer nor across buffers. */
  lemma BlocksDisjoint(b: Backend, idx: nat, k: nat, idx': nat, k': nat)
    requires k < |b.layout| && k' < |b.layout| && Ordered(b.layout, 0, b.bufferSize)
    requires idx < idx' || (idx == idx' && k < k')
    ensures MetadataOf(b, idx, k).values + BLOCK_SIZE <= MetadataOf(b, idx', k').values
  {
    InsideOwnBuffer(b, idx, k);
    InsideOwnBuffer(b, idx', k');
    if idx < idx' { MulLe(idx + 1, idx', b.bufferSize); }
  }

  /** In buffer 0 a block lies at its entry's offset, in each next buffer one buffer size further. */
  lemma BufferByBuffer(b: Backend, bufferIdx: nat, k: nat)
    requires k < |b.layout|
    ensures MetadataOf(b, 0, k).values == b.layout[k].offset
    ensures MetadataOf(b, bufferIdx + 1, k).values == MetadataOf(b, bufferIdx, k).values + b.bufferSize
  {
    assert b.bufferSize * (bufferIdx + 1) == b.bufferSize * bufferIdx + b.bufferSize;
  }
}
