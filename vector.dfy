/**
 * arena::vector: a growable buffer of elements with a size and a capacity. The buffer is an array whose
 * length is the capacity; the first `size` slots hold the elements. An absent buffer (capacity 0) is an
 * array of length 0.
 */
module ArenaVector {

  /** The capacity push_back grows a full buffer to: one and a half times the old one, plus sixteen. */
  function Grown(capacity: nat): (r: nat)
    ensures r > capacity && r >= 16
    ensures 2 * r >= 3 * capacity + 31
  {
    capacity * 3 / 2 + 16
  }

  class Vector<T(0)> {
    var data: array<T>
    var size: nat

    ghost predicate Valid()
      reads this
    {
      size <= data.Length
    }

    /** The elements held, front to back. */
    ghost function Elements(): seq<T>
      reads this, data
      requires Valid()
    {
      data[..size]
    }

    /** A default vector: no elements and no buffer. */
    constructor ()
      ensures Valid() && fresh(data)
      ensures Elements() == [] && data.Length == 0
    {
      data := new T[0];
      size := 0;
    }

    /** Copy construction: a buffer of the source's capacity holding the source's elements, built one by one. */
    constructor Copy(other: Vector<T>)
      requires other.Valid()
      ensures Valid() && fresh(data)
      ensures Elements() == other.Elements() && data.Length == other.data.Length
    {
      var d := new T[other.data.Length];
      var n := 0;
      while n != other.size
        invariant n <= other.size
        invariant forall i :: 0 <= i < n ==> d[i] == other.data[i]
      {
        d[n] := other.data[n];
        n := n + 1;
      }
      data := d;
      size := n;
      new;
      assert Elements() == other.Elements();
    }

    /** Move construction: take over the source's buffer and size; the source is left empty without a buffer. */
    constructor Move(other: Vector<T>)
      requires other.Valid()
      modifies other
      ensures Valid() && data == old(other.data) && size == old(other.size)
      ensures Elements() == old(other.Elements())
      ensures other.Valid() && other.Elements() == [] && other.data.Length == 0
    {
      data := other.data;
      size := other.size;
      new;
      other.Clear();
    }

    /** Forget the buffer: no elements and capacity 0. */
    method Clear()
      modifies this
      ensures Valid() && fresh(data)
      ensures Elements() == [] && data.Length == 0
    {
      data := new T[0];
      size := 0;
    }

    /** Whether the vector holds no elements. */
    function IsEmpty(): (r: bool)
      reads this, data
      requires Valid()
      ensures r <==> Elements() == []
    {
      size == 0
    }

    /** The number of elements held, which never exceeds the capacity. */
    function Size(): (r: nat)
      reads this, data
      requires Valid()
      ensures r == |Elements()|
      ensures r <= data.Length
    {
      size
    }

    /** The length of the buffer, which bounds the number of elements. */
    function Capacity(): (r: nat)
      reads this
      requires Valid()
      ensures r >= size
    {
      data.Length
    }

    /** The first element; the source does not check for emptiness, so callers must. */
    function Front(): (r: T)
      reads this, data
      requires Valid() && size > 0
      ensures r == Elements()[0]
    {
      data[0]
    }

    /** The last element; the source does not check for emptiness, so callers must. */
    function Back(): (r: T)
      reads this, data
      requires Valid() && size > 0
      ensures r == Elements()[|Elements()| - 1]
    {
      data[size - 1]
    }

    /** Move the elements into a fresh buffer of the given capacity, one by one. */
    method Reallocate(newCapacity: nat)
      requires Valid() && size <= newCapacity
      modifies this
      ensures Valid() && fresh(data) && data.Length == newCapacity
      ensures size == old(size) && Elements() == old(Elements())
    {
      var newData := new T[newCapacity];
      var n := 0;
      while n != size
        modifies newData
        invariant n <= size
        invariant forall i :: 0 <= i < n ==> newData[i] == data[i]
      {
        newData[n] := data[n];
        n := n + 1;
      }
      assert newData[..size] == data[..size];
      data := newData;
    }

    /** Remove the last element; an empty vector is left as it is. The capacity never changes. */
    method PopBack()
      requires Valid()
      modifies this
      ensures Valid() && data == old(data)
      ensures old(size) == 0 ==> size == 0
      ensures old(size) > 0 ==> size == old(size) - 1 && Elements() == old(Elements())[..old(size) - 1]
    {
      if size == 0 {
        return;
      }
      size := size - 1;
    }

    /** Append an element, first growing a full buffer to Grown(capacity). */
    method PushBack(item: T)
      requires Valid()
      modifies this, data
      ensures Valid()
      ensures Elements() == old(Elements()) + [item]
      ensures old(size) < old(data.Length) ==> data == old(data)
      ensures old(size) == old(data.Length) ==> fresh(data) && data.Length == Grown(old(data.Length))
    {
      if size == data.Length {
        Reallocate(Grown(data.Length));
      }
      data[size] := item;
      size := size + 1;
    }

    /**
     * Copy assignment as the source writes it: a buffer too small for the source's elements is replaced
     * by one of the source's capacity; then the source's elements are copied in, but the size is only
     * lowered, never raised, so a shorter target keeps its old size.
     */
    method AssignAsWritten(other: Vector<T>)
      requires Valid() && other.Valid() && other != this
      modifies this, data
      ensures Valid()
      ensures size == if old(data.Length) < other.size then 0
                      else if old(size) > other.size then other.size else old(size)
      ensures Elements() == other.Elements()[..size]
    {
      if data.Length < other.size {
        data := new T[other.data.Length];
        size := 0;
      }
      var n := 0;
      while n != other.size
        modifies data
        invariant n <= other.size <= data.Length && size <= data.Length
        invariant size == if old(data.Length) < other.size then 0 else old(size)
        invariant forall i :: 0 <= i < n ==> data[i] == other.data[i]
      {
        data[n] := other.data[n];
        n := n + 1;
      }
      if size > other.size {
        size := other.size;
      }
      assert forall i :: 0 <= i < size ==> data[i] == other.data[i];
    }

    /** Copy assignment with the size set to the source's: afterwards the target holds exactly the source's elements. */
    method Assign(other: Vector<T>)
      requires Valid() && other.Valid() && other != this
      modifies this, data
      ensures Valid()
      ensures Elements() == other.Elements()
      ensures old(data.Length) >= other.size ==> data == old(data)
    {
      if data.Length < other.size {
        data := new T[other.data.Length];
        size := 0;
      }
      var n := 0;
      while n != other.size
        modifies data
        invariant n <= other.size <= data.Length
        invariant forall i :: 0 <= i < n ==> data[i] == other.data[i]
      {
        data[n] := other.data[n];
        n := n + 1;
      }
      size := other.size;
      assert data[..size] == other.data[..other.size];
    }
  }
}
