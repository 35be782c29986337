/** The growable array: doubles its backing array when full. */
module Vector {
  import opened Options

  class Vec<T(0)> {
    var data: array<T>
    var size: nat

    ghost predicate Valid()
      reads this
    {
      size <= data.Length && data.Length > 0
    }

    ghost function Contents(): seq<T>
      requires Valid()
      reads this, data
    {
      data[..size]
    }

    constructor ()
      ensures Valid() && fresh(data) && Contents() == [] && data.Length == 4
    {
      data := new T[4];
      size := 0;
    }

    method Resize()
      requires Valid()
      modifies this`data
      ensures Valid() && fresh(data) && data.Length == 2 * old(data.Length)
      ensures Contents() == old(Contents())
    {
      var bigger := new T[2 * data.Length];
      forall i | 0 <= i < data.Length {
        bigger[i] := data[i];
      }
      data := bigger;
    }

    method PushBack(element: T)
      requires Valid()
      modifies this, data
      ensures Valid() && (data == old(data) || fresh(data))
      ensures Contents() == old(Contents()) + [element]
    {
      if size == data.Length {
        Resize();
      }
      data[size] := element;
      size := size + 1;
    }

    /** NULL out of bounds. */
    method Get(index: int) returns (r: Option<T>)
      requires Valid()
      ensures r == if 0 <= index < |Contents()| then Some(Contents()[index]) else None
    {
      if 0 <= index < size {
        return Some(data[index]);
      }
      return None;
    }

    method Update(index: int, element: T)
      requires Valid()
      modifies data
      ensures Valid()
      ensures Contents() ==
        if 0 <= index < |old(Contents())| then old(Contents())[index := element] else old(Contents())
    {
      if index < 0 || index >= size {
        return;
      }
      data[index] := element;
    }

    /** Shifts the elements after `index` down by one, in place. */
    method Remove(index: int)
      requires Valid()
      modifies this`size, data
      ensures Valid() && data == old(data)
      ensures Contents() ==
        (if 0 <= index < |old(Contents())| then old(Contents())[..index] + old(Contents())[index + 1..]
         else old(Contents()))
    {
      if index < 0 || index >= size {
        return;
      }
      var i := index;
      while i < size - 1
        invariant index <= i <= size - 1 && size == old(size) && data == old(data)
        invariant forall k :: 0 <= k < index ==> data[k] == old(data[k])
        invariant forall k :: index <= k < i ==> data[k] == old(data[k + 1])
        invariant forall k :: i <= k < size ==> data[k] == old(data[k])
      {
        data[i] := data[i + 1];
        i := i + 1;
      }
      size := size - 1;
    }
  }
}
