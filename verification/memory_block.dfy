/** The entities of MemoryBlock.h: storage classes, pointer disciplines,
    class layouts, simulated blocks and log entries.  Display-only fields
    (synthetic address, screen position, animation target, highlight and
    expansion flags, lifetime counter) are not part of this model. */
module MemoryBlock {
  import opened Common

  /** Storage class of a block: exactly three kinds. */
  datatype MemoryType = Stack | Heap | SmartPtr

  /** Ownership discipline: exactly three kinds. */
  datatype PointerType = Raw | Unique | Shared

  /** The value of `pointsTo` that means nullptr; every other value is read
      as a block id. */
  const NULL_ID: int := -1

  /** sizeof(void*) on an LP64 target. */
  const POINTER_SIZE: nat := 8

  /** A class layout: member triples in declaration order and their total. */
  datatype ClassInfo = ClassInfo(
    className: string,
    memberNames: seq<string>,
    memberTypes: seq<string>,
    memberSizes: seq<nat>,
    totalSize: nat,
    hasConstructor: bool,
    hasDestructor: bool)

  function Sum(xs: seq<nat>): nat
    decreases |xs|
  {
    if xs == [] then 0 else Sum(xs[..|xs| - 1]) + xs[|xs| - 1]
  }

  /** The three member lists line up and the total is their sum. */
  predicate WellFormedClass(c: ClassInfo) {
    && |c.memberNames| == |c.memberSizes|
    && |c.memberTypes| == |c.memberSizes|
    && c.totalSize == Sum(c.memberSizes)
  }

  /** `ClassInfo()`: no members, size 0, no constructor or destructor seen. */
  function DefaultClassInfo(): (c: ClassInfo)
    ensures WellFormedClass(c) && c.totalSize == 0
    ensures !c.hasConstructor && !c.hasDestructor
  {
    ClassInfo("", [], [], [], 0, false, false)
  }

  /** A non-null `ClassInfo*`: the key of the class-table slot it points
      into, with the layout that slot holds when the pointer is used. */
  datatype ClassRef = ClassRef(key: string, info: ClassInfo)

  /** One simulated allocation.  `classKey` stands for the `classInfo`
      pointer: None is nullptr, Some(k) is the class-table slot `k`. */
  datatype Block = Block(
    id: int,
    name: string,
    size: nat,
    mtype: MemoryType,
    isAllocated: bool,
    isPointer: bool,
    pointerType: PointerType,
    pointsTo: int,
    refCount: int,
    isObject: bool,
    classKey: Option<string>)

  /** `MemoryBlock()`: a block that is not yet registered, not live, not a
      pointer, points nowhere, owns nothing and describes no object. */
  function DefaultBlock(): (b: Block)
    ensures b.id == -1 && b.name == [] && b.size == 0 && b.mtype == Stack
    ensures !b.isAllocated && !b.isPointer && b.pointerType == Raw
    ensures b.pointsTo == NULL_ID && b.refCount == 0
    ensures !b.isObject && b.classKey == None
  {
    Block(-1, "", 0, Stack, false, false, Raw, NULL_ID, 0, false, None)
  }

  predicate IsHeapKind(b: Block) {
    b.mtype == Heap || b.mtype == SmartPtr
  }

  /** Event kinds of the history log. */
  datatype EventKind =
    | Allocated | Deallocated | Assigned | Copied | Moved
    | LeakFound | Constructed | Destructed

  /** One log entry: its kind and the block it concerns. */
  datatype Event = Event(kind: EventKind, blockId: int)

  /** Appending a member of size `x` keeps the total equal to the sum. */
  lemma SumAppend(xs: seq<nat>, x: nat)
    ensures Sum(xs + [x]) == Sum(xs) + x
  {
    assert (xs + [x])[..|xs|] == xs;
  }
}
