/** The registered counters: a linked list without duplicates. */
module CounterSet {
  import opened SampleLayout

  type Counter = nat

  const MALI_EXT_BUS_WR_BT: Counter := 11
  const MALI_EXT_BUS_RD_BT: Counter := 12

  /** `hardware` is false for the other definition tags, which are not sampled. */
  datatype Registered = Registered(counter: Counter, hardware: bool, offset: nat, shift: nat, block: BlockType)

  ghost predicate Distinct(s: seq<Registered>) {
    forall i, j :: 0 <= i < j < |s| ==> s[i].counter != s[j].counter
  }

  /** Head of the list first. */
  class Set {
    var nodes: seq<Registered>
    var size: nat

    ghost predicate Valid()
      reads this
    {
      size == |nodes| && Distinct(nodes)
    }

    constructor ()
      ensures Valid() && nodes == []
    {
      nodes, size := [], 0;
    }

    method ContainsCounter(counter: Counter) returns (b: bool)
      ensures b <==> exists k :: 0 <= k < |nodes| && nodes[k].counter == counter
    {
      var i := 0;
      while i < |nodes|
        invariant 0 <= i <= |nodes|
        invariant forall k :: 0 <= k < i ==> nodes[k].counter != counter
      {
        if nodes[i].counter == counter {
          return true;
        }
        i := i + 1;
      }
      return false;
    }

    /** Inserts at the head unless the counter is there already. */
    method Insert(data: Registered)
      requires Valid()
      modifies this
      ensures Valid()
      ensures (exists k :: 0 <= k < |old(nodes)| && old(nodes)[k].counter == data.counter) ==> nodes == old(nodes)
      ensures (forall k :: 0 <= k < |old(nodes)| ==> old(nodes)[k].counter != data.counter) ==>
        nodes == [data] + old(nodes)
    {
      var present := ContainsCounter(data.counter);
      if present {
        return;
      }
      nodes := [data] + nodes;
      size := size + 1;
    }
  }
}
