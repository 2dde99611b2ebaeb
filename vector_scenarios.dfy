/** The documented scenarios of arena::vector, and the copy-assignment discrepancy shown on a concrete pair. */
module VectorScenarios {
  import opened ArenaVector

  /** A default vector is empty, with size and capacity 0. */
  method Default() returns (empty: bool, size: nat, capacity: nat)
    ensures empty && size == 0 && capacity == 0
  {
    var target := new Vector<int>();
    empty := target.IsEmpty();
    size := target.Size();
    capacity := target.Capacity();
  }

  /** One push: size 1, some capacity, and the item is both front and back. */
  method Push() returns (empty: bool, size: nat, capacity: nat, front: int, back: int)
    ensures !empty && size == 1 && capacity > 0
    ensures front == 0xCEED && back == 0xCEED
  {
    var target := new Vector<int>();
    target.PushBack(0xCEED);
    empty := target.IsEmpty();
    size := target.Size();
    capacity := target.Capacity();
    back := target.Back();
    front := target.Front();
  }

  /** Two pushes: the first item stays at the front and the second is at the back. */
  method PushPush() returns (empty: bool, size: nat, capacity: nat, front: int, back: int)
    ensures !empty && size == 2 && capacity > 0
    ensures front == 0xCEED && back == 0xDEAD
  {
    var target := new Vector<int>();
    target.PushBack(0xCEED);
    target.PushBack(0xDEAD);
    empty := target.IsEmpty();
    size := target.Size();
    capacity := target.Capacity();
    back := target.Back();
    front := target.Front();
  }

  /** A push then a pop: empty again, but the grown buffer is kept. */
  method PushPop() returns (empty: bool, size: nat, capacity: nat)
    ensures empty && size == 0 && capacity > 0
  {
    var target := new Vector<int>();
    target.PushBack(0xCEED);
    target.PopBack();
    empty := target.IsEmpty();
    size := target.Size();
    capacity := target.Capacity();
  }

  /** Copy construction: both vectors hold the two items afterwards. */
  method PushPushCopy() returns (sourceSize: nat, sourceCapacity: nat, sourceFront: int, sourceBack: int,
                                 targetSize: nat, targetCapacity: nat, targetFront: int, targetBack: int)
    ensures sourceSize == 2 && sourceCapacity > 0 && sourceFront == 0xCEED && sourceBack == 0xDEAD
    ensures targetSize == 2 && targetCapacity > 0 && targetFront == 0xCEED && targetBack == 0xDEAD
  {
    var source := new Vector<int>();
    source.PushBack(0xCEED);
    source.PushBack(0xDEAD);
    var target := new Vector<int>.Copy(source);
    sourceSize := source.Size();
    sourceCapacity := source.Capacity();
    sourceFront := source.Front();
    sourceBack := source.Back();
    targetSize := target.Size();
    targetCapacity := target.Capacity();
    targetFront := target.Front();
    targetBack := target.Back();
  }

  /** Move construction: the target holds the two items and the source is empty with capacity 0. */
  method PushPushMove() returns (sourceEmpty: bool, sourceCapacity: nat,
                                 targetSize: nat, targetCapacity: nat, targetFront: int, targetBack: int)
    ensures sourceEmpty && sourceCapacity == 0
    ensures targetSize == 2 && targetCapacity > 0 && targetFront == 0xCEED && targetBack == 0xDEAD
  {
    var source := new Vector<int>();
    source.PushBack(0xCEED);
    source.PushBack(0xDEAD);
    var target := new Vector<int>.Move(source);
    sourceEmpty := source.IsEmpty();
    sourceCapacity := source.Capacity();
    targetSize := target.Size();
    targetCapacity := target.Capacity();
    targetFront := target.Front();
    targetBack := target.Back();
  }

  /** Copy-assigning a one-item vector to an empty one as the source writes it leaves the target empty. */
  method AssignAsWrittenLosesItems() returns (sourceSize: nat, targetSize: nat)
    ensures sourceSize == 1 && targetSize == 0
  {
    var source := new Vector<int>();
    source.PushBack(0xCEED);
    var target := new Vector<int>();
    target.AssignAsWritten(source);
    sourceSize := source.Size();
    targetSize := target.Size();
  }

  /** The corrected copy assignment gives the target the source's item. */
  method AssignCopiesItems() returns (sourceSize: nat, targetSize: nat, targetFront: int)
    ensures sourceSize == 1 && targetSize == 1 && targetFront == 0xCEED
  {
    var source := new Vector<int>();
    source.PushBack(0xCEED);
    var target := new Vector<int>();
    target.Assign(source);
    sourceSize := source.Size();
    targetSize := target.Size();
    targetFront := target.Front();
  }
}
