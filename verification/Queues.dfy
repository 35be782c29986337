/** The circular window that both ring buffers keep in their slots. */
module RingIndex {
  import opened MachineInts

  function Slot(i: int, m: nat): (s: nat)
    requires m > 0
    ensures s < m
  {
    i % m
  }

  /** `n` elements from position `pop` on, wrapping around. */
  function Window<T>(slots: seq<T>, pop: nat, n: nat): (w: seq<T>)
    requires |slots| > 0
    ensures |w| == n
    ensures forall i :: 0 <= i < n ==> w[i] == slots[Slot(pop + i, |slots|)]
  {
    seq(n, i requires 0 <= i < n => slots[Slot(pop + i, |slots|)])
  }

  /** Fewer than m consecutive positions have distinct slots. */
  lemma SlotsDistinct(base: nat, i: nat, j: nat, m: nat)
    requires m > 0 && i < j < i + m
    ensures Slot(base + i, m) != Slot(base + j, m)
  {
    var a, b := base + i, base + j;
    if a % m == b % m {
      var d := b / m - a / m;
      assert d * m == j - i;
      SmallMultiple(d, m);
    }
  }

  lemma SlotPlus(a: nat, b: nat, i: nat, m: nat)
    requires m > 0 && Slot(a, m) == Slot(b, m)
    ensures Slot(a + i, m) == Slot(b + i, m)
  {
    var k := a / m - b / m;
    assert k * m == a - b by {
      assert a == a / m * m + a % m && b == b / m * m + b % m;
    }
    ModShift(b + i, m, k);
  }

  lemma WindowPush<T>(slots: seq<T>, pop: nat, n: nat, value: T)
    requires n < |slots|
    ensures Window(slots[Slot(pop + n, |slots|) := value], pop, n + 1) == Window(slots, pop, n) + [value]
  {
    var now := slots[Slot(pop + n, |slots|) := value];
    forall i | 0 <= i < n
      ensures Window(now, pop, n + 1)[i] == Window(slots, pop, n)[i]
    {
      SlotsDistinct(pop, i, n, |slots|);
    }
  }

  lemma WindowPop<T>(slots: seq<T>, pop: nat, next: nat, n: nat)
    requires 0 < n <= |slots| && Slot(next, |slots|) == Slot(pop + 1, |slots|)
    ensures [slots[Slot(pop, |slots|)]] + Window(slots, next, n - 1) == Window(slots, pop, n)
  {
    var before, after := Window(slots, pop, n), Window(slots, next, n - 1);
    assert before[0] == slots[Slot(pop, |slots|)];
    forall i | 0 <= i < n - 1
      ensures after[i] == before[i + 1]
    {
      SlotPlus(next, pop + 1, i, |slots|);
      assert pop + 1 + i == pop + (i + 1);
    }
  }

  // ---------- 64-bit wrap-around ----------

  function Wrap64(x: int): (r: nat)
    ensures r < TWO_64
  {
    x % TWO_64
  }

  /** A 64-bit index that wraps around still selects the right slot when m divides 2^64. */
  lemma WrapKeepsSlot(x: nat, m: nat)
    requires m > 0 && TWO_64 % m == 0
    ensures Slot(Wrap64(x), m) == Slot(x, m)
  {
    var a, b := x / TWO_64, TWO_64 / m;
    assert b * m == TWO_64;
    assert a * b * m == a * TWO_64;
    ModShift(x % TWO_64, m, a * b);
  }

  lemma SlotNext(x: nat, m: nat)
    requires m > 0
    ensures Slot(Slot(x, m) + 1, m) == Slot(x + 1, m)
  {
    ModShift(x % m + 1, m, x / m);
  }

  ghost predicate WalksInOrder(m: nat)
    requires m > 0
  {
    forall x: nat :: x < TWO_64 ==> Slot(Wrap64(x + 1), m) == Slot(Slot(x, m) + 1, m)
  }

  /** Free-running 64-bit indices walk through the slots in order exactly when the number of slots
      divides 2^64. */
  lemma WalksInOrderIffDivides(m: nat)
    requires m > 0
    ensures WalksInOrder(m) <==> TWO_64 % m == 0
  {
    if TWO_64 % m == 0 {
      forall x: nat | x < TWO_64
        ensures Slot(Wrap64(x + 1), m) == Slot(Slot(x, m) + 1, m)
      {
        WrapKeepsSlot(x + 1, m);
        SlotNext(x, m);
      }
    } else {
      var x: nat := TWO_64 - 1;
      SlotNext(x, m);
      DivUnique(0, m, 0, 0);
      assert Slot(Wrap64(x + 1), m) != Slot(Slot(x, m) + 1, m);
    }
  }
}

/** Free-running 64-bit indices, reduced only when a slot is accessed. */
module SessionQueue {
  import opened MachineInts
  import opened RingIndex

  class Queue<T(0)> {
    var pushIdx: nat
    var popIdx: nat
    const elements: array<T>

    ghost predicate Valid()
      reads this
    {
      && pushIdx < TWO_64 && popIdx < TWO_64
      && 0 < elements.Length < TWO_64 && TWO_64 % elements.Length == 0
      && Wrap64(pushIdx - popIdx) <= elements.Length
    }

    /** Oldest first. */
    ghost function Contents(): (s: seq<T>)
      requires Valid()
      reads this, elements
    {
      Window(elements[..], popIdx, Wrap64(pushIdx - popIdx))
    }

    constructor (n: nat, blank: T)
      requires 0 < n < TWO_64 && TWO_64 % n == 0
      ensures Valid() && fresh(elements) && Contents() == [] && elements.Length == n
    {
      pushIdx, popIdx := 0, 0;
      elements := new T[n](_ => blank);
    }

    method IsEmpty() returns (b: bool)
      requires Valid()
      ensures b <==> Contents() == []
    {
      b := pushIdx == popIdx;
    }

    method IsFull() returns (b: bool)
      requires Valid()
      ensures b <==> |Contents()| == elements.Length
    {
      b := Wrap64(pushIdx - popIdx) == elements.Length;
    }

    method Push(value: T)
      requires Valid() && |Contents()| < elements.Length
      modifies this, elements
      ensures Valid() && Contents() == old(Contents()) + [value]
    {
      ghost var was := elements[..];
      Pushed(was, pushIdx, popIdx, value);
      var index := Slot(pushIdx, elements.Length);
      elements[index] := value;
      pushIdx := Wrap64(pushIdx + 1);
      assert elements[..] == was[index := value];
    }

    method Pop() returns (result: T)
      requires Valid() && Contents() != []
      modifies this
      ensures Valid() && elements[..] == old(elements[..])
      ensures [result] + Contents() == old(Contents())
    {
      ghost var n := Wrap64(pushIdx - popIdx);
      result := elements[Slot(popIdx, elements.Length)];
      popIdx := Wrap64(popIdx + 1);
      Retreated(pushIdx, old(popIdx));
      WrapKeepsSlot(old(popIdx) + 1, elements.Length);
      WindowPop(elements[..], old(popIdx), popIdx, n);
    }

    method Front() returns (result: T)
      requires Valid() && Contents() != []
      ensures result == Contents()[0]
    {
      result := elements[Slot(popIdx, elements.Length)];
    }

    method Back() returns (result: T)
      requires Valid() && Contents() != []
      ensures result == Contents()[|Contents()| - 1]
    {
      SlotOfLast(pushIdx, popIdx, elements.Length);
      result := elements[Slot(Wrap64(pushIdx - 1), elements.Length)];
    }

    method At(index: nat) returns (result: T)
      requires Valid() && index < |Contents()|
      ensures result == Contents()[index]
    {
      WrapKeepsSlot(popIdx + index, elements.Length);
      result := elements[Slot(Wrap64(popIdx + index), elements.Length)];
    }
  }

  /** The push index selects the slot behind the newest element. */
  lemma SlotOfPush(push: nat, pop: nat, m: nat)
    requires push < TWO_64 && pop < TWO_64 && m > 0 && TWO_64 % m == 0
    ensures Slot(push, m) == Slot(pop + Wrap64(push - pop), m)
  {
    assert push == Wrap64(pop + Wrap64(push - pop));
    WrapKeepsSlot(pop + Wrap64(push - pop), m);
  }

  lemma SlotOfLast(push: nat, pop: nat, m: nat)
    requires push < TWO_64 && pop < TWO_64 && m > 0 && TWO_64 % m == 0 && push != pop
    ensures Wrap64(push - pop) > 0
    ensures Slot(Wrap64(push - 1), m) == Slot(pop + (Wrap64(push - pop) - 1), m)
  {
    var last := pop + (Wrap64(push - pop) - 1);
    assert last == if push > pop then push - 1 else push - 1 + TWO_64;
    assert Wrap64(push - 1) == Wrap64(last);
    WrapKeepsSlot(last, m);
  }

  lemma Advanced(push: nat, pop: nat)
    requires push < TWO_64 && pop < TWO_64 && Wrap64(push - pop) < TWO_64 - 1
    ensures Wrap64(Wrap64(push + 1) - pop) == Wrap64(push - pop) + 1
  {
  }

  /** Writing the slot of the push index and advancing it appends to the window. */
  lemma Pushed<T>(slots: seq<T>, push: nat, pop: nat, value: T)
    requires push < TWO_64 && pop < TWO_64 && |slots| > 0 && TWO_64 % |slots| == 0
    requires Wrap64(push - pop) < |slots| < TWO_64
    ensures Wrap64(Wrap64(push + 1) - pop) == Wrap64(push - pop) + 1
    ensures Window(slots[Slot(push, |slots|) := value], pop, Wrap64(push - pop) + 1)
         == Window(slots, pop, Wrap64(push - pop)) + [value]
  {
    Advanced(push, pop);
    SlotOfPush(push, pop, |slots|);
    WindowPush(slots, pop, Wrap64(push - pop), value);
  }

  lemma Retreated(push: nat, pop: nat)
    requires push < TWO_64 && pop < TWO_64 && Wrap64(push - pop) > 0
    ensures Wrap64(push - Wrap64(pop + 1)) == Wrap64(push - pop) - 1
  {
  }
}

/** n + 1 slots and indices that wrap at once: a full queue leaves one slot free. */
module Uint64Queue {
  import opened MachineInts
  import opened RingIndex

  function Distance(push: nat, pop: nat, m: nat): (d: nat)
    requires push < m && pop < m
  {
    if push >= pop then push - pop else m - (pop - push)
  }

  class Queue {
    var pushIdx: nat
    var popIdx: nat
    const elements: array<nat>

    ghost predicate Valid()
      reads this
    {
      pushIdx < elements.Length && popIdx < elements.Length
    }

    ghost function Contents(): (s: seq<nat>)
      requires Valid()
      reads this, elements
    {
      Window(elements[..], popIdx, Distance(pushIdx, popIdx, elements.Length))
    }

    constructor (n: nat)
      requires n + 1 < TWO_31
      ensures Valid() && fresh(elements) && Contents() == [] && elements.Length == n + 1
    {
      pushIdx, popIdx := 0, 0;
      elements := new nat[n + 1];
    }

    method IsEmpty() returns (b: bool)
      requires Valid()
      ensures b <==> Contents() == []
    {
      b := pushIdx == popIdx;
    }

    /** Full at n elements, one fewer than there are slots. */
    method IsFull() returns (b: bool)
      requires Valid()
      ensures b <==> |Contents()| == elements.Length - 1
    {
      NextSlot(pushIdx, popIdx, elements.Length);
      b := Slot(pushIdx + 1, elements.Length) == popIdx;
    }

    method Size() returns (n: nat)
      requires Valid()
      ensures n == |Contents()|
    {
      if pushIdx >= popIdx {
        n := pushIdx - popIdx;
      } else {
        n := elements.Length - (popIdx - pushIdx);
      }
    }

    /** Unguarded: pushing to a full queue empties it. */
    method Push(value: nat)
      requires Valid()
      modifies this, elements
      ensures Valid()
      ensures |old(Contents())| < elements.Length - 1 ==> Contents() == old(Contents()) + [value]
      ensures |old(Contents())| == elements.Length - 1 ==> Contents() == []
    {
      ghost var was, n := elements[..], Distance(pushIdx, popIdx, elements.Length);
      PushSlot(pushIdx, popIdx, elements.Length);
      NextSlot(pushIdx, popIdx, elements.Length);
      WindowPush(was, popIdx, n, value);
      elements[pushIdx] := value;
      assert elements[..] == was[pushIdx := value];
      pushIdx := Slot(pushIdx + 1, elements.Length);
    }

    method Pop() returns (result: nat)
      requires Valid() && Contents() != []
      modifies this
      ensures Valid() && elements[..] == old(elements[..])
      ensures [result] + Contents() == old(Contents())
    {
      result := elements[popIdx];
      popIdx := Slot(popIdx + 1, elements.Length);
      PopSlot(pushIdx, old(popIdx), elements.Length);
      WindowPop(elements[..], old(popIdx), popIdx, Distance(pushIdx, old(popIdx), elements.Length));
    }

    method Front() returns (result: nat)
      requires Valid() && Contents() != []
      ensures result == Contents()[0]
    {
      PopSlot(pushIdx, popIdx, elements.Length);
      result := elements[popIdx];
    }

    method Back() returns (result: nat)
      requires Valid() && Contents() != []
      ensures result == Contents()[|Contents()| - 1]
    {
      LastSlot(pushIdx, popIdx, elements.Length);
      result := elements[Slot(pushIdx - 1 + elements.Length, elements.Length)];
    }

    method At(index: nat) returns (result: nat)
      requires Valid() && index < |Contents()|
      ensures result == Contents()[index]
    {
      result := elements[Slot(popIdx + index, elements.Length)];
    }
  }

  lemma PushSlot(push: nat, pop: nat, m: nat)
    requires push < m && pop < m
    ensures Slot(pop + Distance(push, pop, m), m) == push
  {
    if push < pop { DivUnique(push + m, m, 1, push); } else { DivUnique(push, m, 0, push); }
  }

  /** Advancing the push index lengthens the queue by one, or closes the circle. */
  lemma NextSlot(push: nat, pop: nat, m: nat)
    requires push < m && pop < m
    ensures Distance(push, pop, m) < m
    ensures Distance(Slot(push + 1, m), pop, m)
         == if Distance(push, pop, m) == m - 1 then 0 else Distance(push, pop, m) + 1
    ensures Slot(push + 1, m) == pop <==> Distance(push, pop, m) == m - 1
  {
    if push + 1 == m { DivUnique(m, m, 1, 0); } else { DivUnique(push + 1, m, 0, push + 1); }
  }

  lemma PopSlot(push: nat, pop: nat, m: nat)
    requires push < m && pop < m && push != pop
    ensures Slot(pop, m) == pop
    ensures Slot(Slot(pop + 1, m), m) == Slot(pop + 1, m)
    ensures Distance(push, Slot(pop + 1, m), m) == Distance(push, pop, m) - 1
  {
    DivUnique(pop, m, 0, pop);
    if pop + 1 == m { DivUnique(m, m, 1, 0); DivUnique(0, m, 0, 0); } else { DivUnique(pop + 1, m, 0, pop + 1); }
  }

  lemma LastSlot(push: nat, pop: nat, m: nat)
    requires push < m && pop < m && push != pop
    ensures Distance(push, pop, m) > 0
    ensures Slot(pop + (Distance(push, pop, m) - 1), m) == Slot(push - 1 + m, m)
  {
    if push < pop {
      assert pop + (Distance(push, pop, m) - 1) == push - 1 + m;
    } else {
      ModShift(push - 1, m, 1);
    }
  }
}
