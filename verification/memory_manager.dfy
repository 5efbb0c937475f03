/** MemoryManager.cpp: the registry of simulated blocks, the bounded event
    log, and every operation that allocates, frees, links or retires a
    block.  Each operation is a function from the manager state to the new
    state (and its return value, when the source has one). */
module MemoryManager {
  import opened Common
  import opened MemoryBlock

  /** The log keeps at most this many entries. */
  const MAX_EVENTS: nat := 100

  /** The manager's state; `currentTime` only feeds animation and is left
      out. */
  datatype Manager = Manager(
    blocks: seq<Block>,
    events: seq<Event>,
    nextId: int,
    stackDepth: int)

  /** A new state together with the value the C++ member function returns. */
  datatype Ret<T> = Ret(m: Manager, v: T)

  /** The state the constructor builds, and `reset` restores. */
  function Fresh(): Manager {
    Manager([], [], 1, 0)
  }

  /** What every reachable manager satisfies: ids are positive, below
      `nextId` and strictly increasing in registry order (hence never
      reused), reference counts are never negative, the stack depth is
      never negative and the log is within its bound. */
  predicate Valid(m: Manager) {
    && m.nextId >= 1
    && m.stackDepth >= 0
    && |m.events| <= MAX_EVENTS
    && (forall i :: 0 <= i < |m.blocks| ==> 1 <= m.blocks[i].id < m.nextId)
    && (forall i, j :: 0 <= i < j < |m.blocks| ==> m.blocks[i].id < m.blocks[j].id)
    && (forall i :: 0 <= i < |m.blocks| ==> m.blocks[i].refCount >= 0)
  }

  // -----------------------------------------------------------------------
  // reset / addEvent / findBlock
  // -----------------------------------------------------------------------

  function Reset(m: Manager): (r: Manager)
    ensures r.blocks == [] && r.events == []
    ensures r.nextId == 1 && r.stackDepth == 0
    ensures Valid(r)
  {
    Fresh()
  }

  /** addEvent: append, then drop the oldest entry once the log is over
      its bound. */
  function AddEvent(events: seq<Event>, e: Event): (r: seq<Event>)
    ensures |r| > 0 && r[|r| - 1] == e
    ensures |events| <= MAX_EVENTS ==> |r| <= MAX_EVENTS
    ensures |events| < MAX_EVENTS ==> r == events + [e]
    ensures |r| <= |events| + 1 && r == (events + [e])[|events| + 1 - |r|..]
  {
    var all := events + [e];
    if |all| > MAX_EVENTS then all[1..] else all
  }

  function Log(m: Manager, kind: EventKind, id: int): Manager {
    m.(events := AddEvent(m.events, Event(kind, id)))
  }

  /** findBlock: the first block in registry order with this id. */
  function FindIndexFrom(bs: seq<Block>, id: int, from: nat): (r: Option<nat>)
    ensures r.Some? ==> from <= r.value < |bs| && bs[r.value].id == id
    ensures r.Some? ==> forall j :: from <= j < r.value ==> bs[j].id != id
    ensures r.None? ==> forall j :: from <= j < |bs| ==> bs[j].id != id
    decreases |bs| - from
  {
    if from >= |bs| then None
    else if bs[from].id == id then Some(from)
    else FindIndexFrom(bs, id, from + 1)
  }

  function FindIndex(bs: seq<Block>, id: int): Option<nat> {
    FindIndexFrom(bs, id, 0)
  }

  predicate HasId(bs: seq<Block>, id: int) {
    exists i :: 0 <= i < |bs| && bs[i].id == id
  }

  lemma FindIndexIffHasId(bs: seq<Block>, id: int)
    ensures FindIndex(bs, id).Some? <==> HasId(bs, id)
  {
  }

  /** Lookups only depend on the ids in the registry. */
  lemma FindIndexSameIds(a: seq<Block>, b: seq<Block>, id: int)
    requires |a| == |b|
    requires forall i :: 0 <= i < |a| ==> a[i].id == b[i].id
    ensures FindIndex(a, id) == FindIndex(b, id)
  {
    var fa, fb := FindIndex(a, id), FindIndex(b, id);
    if fa.Some? && fb.Some? {
      assert !(fa.value < fb.value) && !(fb.value < fa.value);
    }
  }

  /** Appending a block never changes where an existing id is found. */
  lemma FindIndexAppend(bs: seq<Block>, b: Block, id: int)
    ensures FindIndex(bs + [b], id) ==
      if FindIndex(bs, id).Some? then FindIndex(bs, id)
      else if b.id == id then Some(|bs|) else None
  {
    var f, g := FindIndex(bs, id), FindIndex(bs + [b], id);
    var all := bs + [b];
    assert forall j :: 0 <= j < |bs| ==> all[j] == bs[j];
    match f
    case Some(k) =>
      assert all[k].id == id;
      assert g.Some? && !(g.value < k) && !(k < g.value);
    case None =>
      if b.id == id {
        assert all[|bs|].id == id;
        assert g.Some? && !(g.value < |bs|);
      } else {
        assert forall j :: 0 <= j < |all| ==> all[j].id != id;
      }
  }

  /** A live block with this id exists. */
  predicate IsLive(m: Manager, id: int) {
    FindIndex(m.blocks, id).Some? && m.blocks[FindIndex(m.blocks, id).value].isAllocated
  }

  // -----------------------------------------------------------------------
  // Frames shared by the contracts below
  // -----------------------------------------------------------------------

  /** The fields no operation changes once a block is registered. */
  predicate SameIdentity(a: Block, b: Block) {
    && a.id == b.id && a.name == b.name && a.size == b.size && a.mtype == b.mtype
    && a.isPointer == b.isPointer && a.pointerType == b.pointerType
    && a.isObject == b.isObject && a.classKey == b.classKey
  }

  /** Same registry length, same counters, same identity of every block:
      only liveness, targets and reference counts may have moved. */
  predicate SameShape(m: Manager, r: Manager) {
    && |r.blocks| == |m.blocks|
    && r.nextId == m.nextId
    && r.stackDepth == m.stackDepth
    && forall i :: 0 <= i < |m.blocks| ==> SameIdentity(m.blocks[i], r.blocks[i])
  }

  /** Every id registered in `m` is still registered, at the same place. */
  predicate KeepsIds(m: Manager, r: Manager) {
    && |m.blocks| <= |r.blocks|
    && forall i :: 0 <= i < |m.blocks| ==> r.blocks[i].id == m.blocks[i].id
  }

  lemma SameShapeKeepsIds(m: Manager, r: Manager)
    requires SameShape(m, r)
    ensures KeepsIds(m, r)
  {
  }

  lemma KeepsIdsTransitive(a: Manager, b: Manager, c: Manager)
    requires KeepsIds(a, b) && KeepsIds(b, c)
    ensures KeepsIds(a, c)
  {
  }

  lemma KeepsIdsHasId(m: Manager, r: Manager, id: int)
    requires KeepsIds(m, r) && HasId(m.blocks, id)
    ensures HasId(r.blocks, id)
  {
    var i :| 0 <= i < |m.blocks| && m.blocks[i].id == id;
    assert r.blocks[i].id == id;
  }

  lemma SameShapeFind(m: Manager, r: Manager, id: int)
    requires SameShape(m, r)
    ensures FindIndex(r.blocks, id) == FindIndex(m.blocks, id)
  {
    FindIndexSameIds(m.blocks, r.blocks, id);
  }

  /** Validity survives any change that keeps the shape, keeps counts
      non-negative and keeps the log bounded. */
  lemma ValidSameShape(m: Manager, r: Manager)
    requires SameShape(m, r)
    ensures Valid(m) && |r.events| <= MAX_EVENTS
            && (forall i :: 0 <= i < |r.blocks| ==> r.blocks[i].refCount >= 0)
            ==> Valid(r)
  {
    assert forall i :: 0 <= i < |r.blocks| ==> r.blocks[i].id == m.blocks[i].id;
  }

  // -----------------------------------------------------------------------
  // Creation
  // -----------------------------------------------------------------------

  /** Register `b` under the next id; a stack slot also deepens the stack. */
  function Push(m: Manager, b: Block, stackSlot: bool): Manager {
    m.(blocks := m.blocks + [b],
       nextId := m.nextId + 1,
       stackDepth := if stackSlot then m.stackDepth + 1 else m.stackDepth)
  }

  lemma PushValid(m: Manager, b: Block, stackSlot: bool)
    requires b.id == m.nextId && b.refCount >= 0
    ensures Valid(m) ==> Valid(Push(m, b, stackSlot))
    ensures KeepsIds(m, Push(m, b, stackSlot))
  {
  }

  /** What every creating call promises: the returned id is the old
      `nextId`, the counter moves on by one, the old registry is a prefix of
      the new one and the new block, last, carries the returned id. */
  predicate Created(m: Manager, r: Ret<int>) {
    && r.v == m.nextId
    && r.m.nextId == m.nextId + 1
    && |r.m.blocks| == |m.blocks| + 1
    && r.m.blocks[..|m.blocks|] == m.blocks
    && r.m.blocks[|m.blocks|].id == r.v
    && r.m.blocks[|m.blocks|].isAllocated
  }

  /** createStackVariable. */
  function CreateStackVariable(m: Manager, name: string, size: nat): (r: Ret<int>)
    ensures Created(m, r) && r.m.stackDepth == m.stackDepth + 1
    ensures var b := r.m.blocks[|m.blocks|];
      b.name == name && b.size == size && b.mtype == Stack
      && !b.isPointer && b.pointsTo == NULL_ID && b.refCount == 0 && !b.isObject
    ensures r.m.events == AddEvent(m.events, Event(Allocated, r.v))
    ensures Valid(m) ==> Valid(r.m) && !HasId(m.blocks, r.v)
  {
    var b := DefaultBlock().(id := m.nextId, name := name, size := size,
                             mtype := Stack, isAllocated := true);
    PushValid(m, b, true);
    Ret(Log(Push(m, b, true), Allocated, b.id), b.id)
  }

  /** createClassObject: a null layout fails with -1 and changes nothing. */
  function CreateClassObject(m: Manager, name: string, cls: Option<ClassRef>): (r: Ret<int>)
    ensures cls.None? ==> r == Ret(m, -1)
    ensures cls.Some? ==> Created(m, r) && r.m.stackDepth == m.stackDepth + 1
    ensures cls.Some? ==> var b := r.m.blocks[|m.blocks|];
      b.name == name && b.size == cls.value.info.totalSize && b.mtype == Stack
      && b.isObject && b.classKey == Some(cls.value.key) && !b.isPointer && b.refCount == 0
    ensures cls.Some? ==> r.m.events == AddEvent(m.events, Event(Constructed, r.v))
    ensures Valid(m) ==> Valid(r.m)
  {
    match cls
    case None => Ret(m, -1)
    case Some(c) =>
      var b := DefaultBlock().(id := m.nextId, name := name, size := c.info.totalSize,
                               mtype := Stack, isAllocated := true,
                               isObject := true, classKey := Some(c.key));
      PushValid(m, b, true);
      Ret(Log(Push(m, b, true), Constructed, b.id), b.id)
  }

  /** The block a heap allocation under discipline `pt` creates. */
  function HeapBlock(m: Manager, name: string, size: nat, pt: PointerType): Block {
    DefaultBlock().(id := m.nextId, name := name, size := size,
                    mtype := if pt == Raw then Heap else SmartPtr,
                    isAllocated := true, pointerType := pt,
                    refCount := if pt == Shared then 1 else 0)
  }

  /** allocateHeap: the storage class follows the discipline, a shared
      block starts with one owner, the stack is untouched. */
  function AllocateHeap(m: Manager, name: string, size: nat, pt: PointerType): (r: Ret<int>)
    ensures Created(m, r) && r.m.stackDepth == m.stackDepth
    ensures var b := r.m.blocks[|m.blocks|];
      && b.name == name && b.size == size && b.pointerType == pt
      && (b.mtype == Heap <==> pt == Raw) && (b.mtype == SmartPtr <==> pt != Raw)
      && (b.refCount == 1 <==> pt == Shared) && (pt != Shared ==> b.refCount == 0)
      && !b.isPointer && b.pointsTo == NULL_ID && !b.isObject
    ensures r.m.events == AddEvent(m.events, Event(Allocated, r.v))
    ensures Valid(m) ==> Valid(r.m) && !HasId(m.blocks, r.v)
  {
    var b := HeapBlock(m, name, size, pt);
    PushValid(m, b, false);
    Ret(Log(Push(m, b, false), Allocated, b.id), b.id)
  }

  /** allocateClassObject: as allocateHeap with the layout's size; a null
      layout fails with -1, changes nothing and consumes no id. */
  function AllocateClassObject(m: Manager, name: string, cls: Option<ClassRef>, pt: PointerType): (r: Ret<int>)
    ensures cls.None? ==> r == Ret(m, -1)
    ensures cls.Some? ==> Created(m, r) && r.m.stackDepth == m.stackDepth
    ensures cls.Some? ==> var b := r.m.blocks[|m.blocks|];
      && b.name == name && b.size == cls.value.info.totalSize && b.pointerType == pt
      && (b.mtype == Heap <==> pt == Raw) && (b.mtype == SmartPtr <==> pt != Raw)
      && (b.refCount == 1 <==> pt == Shared) && (pt != Shared ==> b.refCount == 0)
      && !b.isPointer && b.isObject && b.classKey == Some(cls.value.key)
    ensures cls.Some? ==> r.m.events == AddEvent(m.events, Event(Constructed, r.v))
    ensures Valid(m) ==> Valid(r.m)
  {
    match cls
    case None => Ret(m, -1)
    case Some(c) =>
      var b := HeapBlock(m, name, c.info.totalSize, pt).(isObject := true, classKey := Some(c.key));
      PushValid(m, b, false);
      Ret(Log(Push(m, b, false), Constructed, b.id), b.id)
  }

  // -----------------------------------------------------------------------
  // deallocate / decreaseRefCount
  // -----------------------------------------------------------------------

  /** The loop of deallocate that nulls every pointer at the freed id. */
  function ClearPointersTo(bs: seq<Block>, id: int): (r: seq<Block>)
    ensures |r| == |bs|
    ensures forall j :: 0 <= j < |bs| ==>
      r[j] == (if bs[j].isPointer && bs[j].pointsTo == id then bs[j].(pointsTo := NULL_ID) else bs[j])
  {
    seq(|bs|, j requires 0 <= j < |bs| =>
      if bs[j].isPointer && bs[j].pointsTo == id then bs[j].(pointsTo := NULL_ID) else bs[j])
  }

  /** The real free of block `i`: mark it dead, log it, null its pointers. */
  function Free(m: Manager, i: nat): Manager
    requires i < |m.blocks|
  {
    var b := m.blocks[i];
    Log(m.(blocks := ClearPointersTo(m.blocks[i := b.(isAllocated := false)], b.id)),
        Deallocated, b.id)
  }

  /** `after` is `before` with block `i` dead and every pointer that
      targeted it null; nothing else differs. */
  predicate FreedFrom(before: seq<Block>, after: seq<Block>, i: nat)
    requires i < |before|
  {
    && |after| == |before|
    && !after[i].isAllocated
    && forall j :: 0 <= j < |before| ==>
         && SameIdentity(before[j], after[j])
         && after[j].refCount == before[j].refCount
         && (j != i ==> after[j].isAllocated == before[j].isAllocated)
         && after[j].pointsTo ==
              (if before[j].isPointer && before[j].pointsTo == before[i].id
               then NULL_ID else before[j].pointsTo)
  }

  /** The branch of deallocate that only gives up one shared owner. */
  predicate SharedHeld(b: Block) {
    b.pointerType == Shared && b.refCount > 1
  }

  /** The reference count at `id`, as a termination measure. */
  function RcAt(m: Manager, id: int): nat {
    match FindIndex(m.blocks, id)
    case None => 0
    case Some(i) => if m.blocks[i].refCount > 0 then m.blocks[i].refCount else 0
  }

  /** deallocate.  An unknown or dead id fails and changes nothing; a
      shared block with more than one owner loses one owner and stays
      live; any other block dies and every pointer at it becomes null. */
  function Deallocate(m: Manager, id: int): (r: Ret<bool>)
    ensures SameShape(m, r.m)
    ensures Valid(m) ==> Valid(r.m)
    ensures r.v <==> IsLive(m, id)
    ensures !r.v ==> r.m == m
    ensures r.v ==>
      var i := FindIndex(m.blocks, id).value;
      var b := m.blocks[i];
      if SharedHeld(b) then
        && r.m.blocks == m.blocks[i := b.(refCount := b.refCount - 1)]
        && r.m.events == AddEvent(m.events, Event(Assigned, id))
      else
        && FreedFrom(m.blocks, r.m.blocks, i)
        && r.m.events == AddEvent(m.events, Event(Deallocated, id))
    decreases RcAt(m, id), 1
  {
    match FindIndex(m.blocks, id)
    case None => Ret(m, false)
    case Some(i) =>
      var b := m.blocks[i];
      if !b.isAllocated then Ret(m, false)
      else if SharedHeld(b) then Ret(DecreaseRefCount(m, id), true)
      else
        var r := Free(m, i);
        ValidSameShape(m, r);
        Ret(r, true)
  }

  /** decreaseRefCount.  Nothing happens at a count of zero or below, so
      counts never go negative; a decrement that reaches zero frees a
      still-live block through exactly one deallocate. */
  function DecreaseRefCount(m: Manager, id: int): (r: Manager)
    ensures SameShape(m, r)
    ensures Valid(m) ==> Valid(r)
    ensures FindIndex(m.blocks, id).None? ==> r == m
    ensures FindIndex(m.blocks, id).Some? ==>
      var i := FindIndex(m.blocks, id).value;
      var b := m.blocks[i];
      var dec := m.blocks[i := b.(refCount := b.refCount - 1)];
      && (b.refCount <= 0 ==> r == m)
      && (b.refCount > 1 || (b.refCount == 1 && !b.isAllocated) ==>
            r.blocks == dec && r.events == AddEvent(m.events, Event(Assigned, id)))
      && (b.refCount == 1 && b.isAllocated ==>
            && FreedFrom(dec, r.blocks, i)
            && r.events == AddEvent(AddEvent(m.events, Event(Assigned, id)), Event(Deallocated, id)))
    decreases RcAt(m, id), 0
  {
    match FindIndex(m.blocks, id)
    case None => m
    case Some(i) =>
      var b := m.blocks[i];
      if b.refCount <= 0 then m
      else
        var m1 := Log(m.(blocks := m.blocks[i := b.(refCount := b.refCount - 1)]), Assigned, id);
        ValidSameShape(m, m1);
        if b.refCount - 1 == 0 then
          SameShapeFind(m, m1, id);
          Deallocate(m1, id).m
        else m1
  }

  // -----------------------------------------------------------------------
  // assignPointer
  // -----------------------------------------------------------------------

  /** The first step of assignPointer: a shared pointer with a target gives
      up its ownership of that target. */
  function ReleaseOld(m: Manager, p: Block): (r: Manager)
    ensures SameShape(m, r)
    ensures Valid(m) ==> Valid(r)
    ensures !(p.pointerType == Shared && p.pointsTo != NULL_ID) ==> r == m
  {
    if p.pointerType == Shared && p.pointsTo != NULL_ID then DecreaseRefCount(m, p.pointsTo) else m
  }

  /** Retarget the pointer at index `i`. */
  function SetTarget(m: Manager, i: nat, target: int): (r: Manager)
    requires i < |m.blocks|
    ensures SameShape(m, r) && r.events == m.events
    ensures r.blocks == m.blocks[i := m.blocks[i].(pointsTo := target)]
    ensures forall k :: 0 <= k < |m.blocks| ==>
      && r.blocks[k].isAllocated == m.blocks[k].isAllocated
      && r.blocks[k].refCount == m.blocks[k].refCount
      && (k != i ==> r.blocks[k].pointsTo == m.blocks[k].pointsTo)
    ensures Valid(m) ==> Valid(r)
  {
    var r := m.(blocks := m.blocks[i := m.blocks[i].(pointsTo := target)]);
    ValidSameShape(m, r);
    r
  }

  /** One more owner for the block with this id, if there is one. */
  function AddOwner(m: Manager, id: int): (r: Manager)
    ensures SameShape(m, r) && r.events == m.events
    ensures FindIndex(m.blocks, id).None? ==> r == m
    ensures FindIndex(m.blocks, id).Some? ==>
      var t := FindIndex(m.blocks, id).value;
      r.blocks == m.blocks[t := m.blocks[t].(refCount := m.blocks[t].refCount + 1)]
    ensures forall k :: 0 <= k < |m.blocks| ==>
      && r.blocks[k].isAllocated == m.blocks[k].isAllocated
      && r.blocks[k].pointsTo == m.blocks[k].pointsTo
      && r.blocks[k].refCount == m.blocks[k].refCount + (if FindIndex(m.blocks, id) == Some(k) then 1 else 0)
    ensures Valid(m) ==> Valid(r)
  {
    match FindIndex(m.blocks, id)
    case None => m
    case Some(t) =>
      var r := m.(blocks := m.blocks[t := m.blocks[t].(refCount := m.blocks[t].refCount + 1)]);
      ValidSameShape(m, r);
      r
  }

  /** The second half of assignPointer, after the release: retarget the
      pointer at index `i`, give the target one more owner when the pointer
      is shared and the target exists, and log the assignment. */
  function Rebind(m: Manager, i: nat, target: int, shared: bool): (r: Manager)
    requires i < |m.blocks|
    ensures SameShape(m, r)
    ensures r.blocks[i].pointsTo == target
    ensures r.events == AddEvent(m.events, Event(Assigned, m.blocks[i].id))
    ensures
      var bump := if shared && target != NULL_ID then FindIndex(m.blocks, target) else None;
      forall k :: 0 <= k < |m.blocks| ==>
        && r.blocks[k].isAllocated == m.blocks[k].isAllocated
        && (k != i ==> r.blocks[k].pointsTo == m.blocks[k].pointsTo)
        && r.blocks[k].refCount == m.blocks[k].refCount + (if bump == Some(k) then 1 else 0)
  {
    var m2 := SetTarget(m, i, target);
    SameShapeFind(m, m2, target);
    if target != NULL_ID && shared then
      Log(AddOwner(m2, target), Assigned, m.blocks[i].id)
    else
      Log(m2, Assigned, m.blocks[i].id)
  }

  lemma RebindValid(m: Manager, i: nat, target: int, shared: bool)
    requires i < |m.blocks|
    ensures Valid(m) ==> Valid(Rebind(m, i, target, shared))
  {
    ValidSameShape(m, Rebind(m, i, target, shared));
  }

  /** Rebinding changes whole blocks only at the pointer and at the
      target that gains an owner. */
  lemma RebindFrame(m: Manager, i: nat, target: int, shared: bool)
    requires i < |m.blocks|
    ensures var r := Rebind(m, i, target, shared);
      var bump := if shared && target != NULL_ID then FindIndex(m.blocks, target) else None;
      && (forall k :: 0 <= k < |m.blocks| && k != i && bump != Some(k) ==> r.blocks[k] == m.blocks[k])
      && r.blocks[i] == m.blocks[i].(pointsTo := target,
                                     refCount := m.blocks[i].refCount + (if bump == Some(i) then 1 else 0))
      && (bump.Some? && bump.value != i ==>
            r.blocks[bump.value] == m.blocks[bump.value].(refCount := m.blocks[bump.value].refCount + 1))
  {
    var m2 := SetTarget(m, i, target);
    SameShapeFind(m, m2, target);
  }

  /** A pointer that was null has nothing to release. */
  lemma AssignFromNull(m: Manager, i: nat, target: int)
    requires i < |m.blocks| && m.blocks[i].pointsTo == NULL_ID
    ensures AssignAt(m, i, target) == Rebind(m, i, target, m.blocks[i].pointerType == Shared)
  {
  }

  /** The effect of assignPointer once the pointer is found at index `i`:
      a shared pointer first gives up its old target, then `Rebind`. */
  function AssignAt(m: Manager, i: nat, target: int): (r: Manager)
    requires i < |m.blocks|
    ensures SameShape(m, r)
    ensures Valid(m) ==> Valid(r)
    ensures
      var p := m.blocks[i];
      var m1 := ReleaseOld(m, p);
      var bump := if p.pointerType == Shared && target != NULL_ID
                  then FindIndex(m.blocks, target) else None;
      && r.blocks[i].pointsTo == target
      && r.events == AddEvent(m1.events, Event(Assigned, p.id))
      && forall k :: 0 <= k < |m.blocks| ==>
           && r.blocks[k].isAllocated == m1.blocks[k].isAllocated
           && (k != i ==> r.blocks[k].pointsTo == m1.blocks[k].pointsTo)
           && r.blocks[k].refCount == m1.blocks[k].refCount + (if bump == Some(k) then 1 else 0)
  {
    var p := m.blocks[i];
    var m1 := ReleaseOld(m, p);
    SameShapeFind(m, m1, target);
    RebindValid(m1, i, target, p.pointerType == Shared);
    Rebind(m1, i, target, p.pointerType == Shared)
  }

  /** assignPointer.  An unknown pointer id fails and changes nothing;
      otherwise the call succeeds with the effect of `AssignAt`, so a raw
      or unique pointer can be bound even to an id that does not exist. */
  function AssignPointer(m: Manager, ptrId: int, target: int): (r: Ret<bool>)
    ensures r.v <==> FindIndex(m.blocks, ptrId).Some?
    ensures !r.v ==> r.m == m
    ensures r.v ==> r.m == AssignAt(m, FindIndex(m.blocks, ptrId).value, target)
    ensures SameShape(m, r.m)
    ensures Valid(m) ==> Valid(r.m)
  {
    match FindIndex(m.blocks, ptrId)
    case None => Ret(m, false)
    case Some(i) => Ret(AssignAt(m, i, target), true)
  }

  // -----------------------------------------------------------------------
  // copySharedPtr / moveUniquePtr
  // -----------------------------------------------------------------------

  /** The source of a copy must be a registered shared pointer. */
  predicate IsSharedPointerAt(m: Manager, id: int) {
    && FindIndex(m.blocks, id).Some?
    && m.blocks[FindIndex(m.blocks, id).value].isPointer
    && m.blocks[FindIndex(m.blocks, id).value].pointerType == Shared
  }

  /** The success path of copySharedPtr: a new shared stack pointer at
      `target` is pushed, the stack deepens by one, and the target (looked
      up in the registry after the new block is added) gains one owner if
      it exists. */
  function NewSharedCopy(m: Manager, target: int, newName: string): (r: Ret<int>)
    ensures
      var n := |m.blocks|;
      && r.v == m.nextId
      && r.m.nextId == m.nextId + 1
      && r.m.stackDepth == m.stackDepth + 1
      && |r.m.blocks| == n + 1
      && r.m.blocks[n].id == r.v && r.m.blocks[n].name == newName
      && r.m.blocks[n].mtype == Stack && r.m.blocks[n].isAllocated
      && r.m.blocks[n].isPointer && r.m.blocks[n].pointerType == Shared
      && r.m.blocks[n].pointsTo == target && r.m.blocks[n].size == POINTER_SIZE
      && var bump := if target != NULL_ID then FindIndex(r.m.blocks, target) else None;
      && (forall k :: 0 <= k < n ==>
            r.m.blocks[k] == m.blocks[k].(refCount := m.blocks[k].refCount + (if bump == Some(k) then 1 else 0)))
      && r.m.blocks[n].refCount == (if bump == Some(n) then 1 else 0)
      && r.m.events == (if bump.Some? then AddEvent(m.events, Event(Copied, r.v)) else m.events)
  {
    var nb := DefaultBlock().(id := m.nextId, name := newName, size := POINTER_SIZE,
                              mtype := Stack, isAllocated := true, isPointer := true,
                              pointerType := Shared, pointsTo := target);
    var m1 := Push(m, nb, true);
    PushValid(m, nb, true);
    var m2 :=
      if target != NULL_ID && FindIndex(m1.blocks, target).Some? then
        Log(AddOwner(m1, target), Copied, nb.id)
      else m1;
    SameShapeFind(m1, m2, target);
    Ret(m2, nb.id)
  }

  lemma NewSharedCopyValid(m: Manager, target: int, newName: string)
    requires Valid(m)
    ensures Valid(NewSharedCopy(m, target, newName).m)
  {
    var nb := DefaultBlock().(id := m.nextId, name := newName, size := POINTER_SIZE,
                              mtype := Stack, isAllocated := true, isPointer := true,
                              pointerType := Shared, pointsTo := target);
    PushValid(m, nb, true);
  }

  /** copySharedPtr.  Anything but a shared pointer fails with -1 and no
      change; otherwise the result is a new shared copy of the source's
      target. */
  function CopySharedPtr(m: Manager, src: int, newName: string): (r: Ret<int>)
    ensures !IsSharedPointerAt(m, src) ==> r == Ret(m, -1)
    ensures IsSharedPointerAt(m, src) ==>
      r == NewSharedCopy(m, m.blocks[FindIndex(m.blocks, src).value].pointsTo, newName)
    ensures Valid(m) ==> Valid(r.m)
  {
    match FindIndex(m.blocks, src)
    case None => Ret(m, -1)
    case Some(i) =>
      var s := m.blocks[i];
      if !s.isPointer || s.pointerType != Shared then Ret(m, -1)
      else
        assert Valid(m) ==> Valid(NewSharedCopy(m, s.pointsTo, newName).m) by {
          if Valid(m) { NewSharedCopyValid(m, s.pointsTo, newName); }
        }
        NewSharedCopy(m, s.pointsTo, newName)
  }

  /** The success path of moveUniquePtr on registry positions `si`
      (source) and `ti` (target): the target takes over the source's
      pointee, then the source is nulled; counts and liveness stay. */
  function MoveAt(m: Manager, si: nat, ti: nat, dst: int): (r: Manager)
    requires si < |m.blocks| && ti < |m.blocks|
    ensures SameShape(m, r)
    ensures r.blocks[si].pointsTo == NULL_ID
    ensures si != ti ==> r.blocks[ti].pointsTo == m.blocks[si].pointsTo
    ensures forall k :: 0 <= k < |m.blocks| ==>
      && r.blocks[k].refCount == m.blocks[k].refCount
      && r.blocks[k].isAllocated == m.blocks[k].isAllocated
      && (k != si && k != ti ==> r.blocks[k] == m.blocks[k])
    ensures r.events == AddEvent(m.events, Event(Moved, dst))
    ensures Valid(m) ==> Valid(r)
  {
    var bs1 := m.blocks[ti := m.blocks[ti].(pointsTo := m.blocks[si].pointsTo)];
    var bs2 := bs1[si := bs1[si].(pointsTo := NULL_ID)];
    var r := Log(m.(blocks := bs2), Moved, dst);
    ValidSameShape(m, r);
    r
  }

  /** Both ends of a move are registered unique pointers. */
  predicate CanMove(m: Manager, src: int, dst: int) {
    && FindIndex(m.blocks, src).Some? && FindIndex(m.blocks, dst).Some?
    && m.blocks[FindIndex(m.blocks, src).value].pointerType == Unique
    && m.blocks[FindIndex(m.blocks, dst).value].pointerType == Unique
  }

  /** moveUniquePtr.  Fails, changing nothing, unless both blocks exist
      and are unique-owning.  Otherwise the target takes over the source's
      pointee and the source becomes null (so moving a pointer onto itself
      nulls it); no count or liveness changes. */
  function MoveUniquePtr(m: Manager, src: int, dst: int): (r: Ret<bool>)
    ensures r.v <==> CanMove(m, src, dst)
    ensures !r.v ==> r.m == m
    ensures r.v ==> r.m == MoveAt(m, FindIndex(m.blocks, src).value, FindIndex(m.blocks, dst).value, dst)
    ensures SameShape(m, r.m)
    ensures Valid(m) ==> Valid(r.m)
  {
    if CanMove(m, src, dst) then
      Ret(MoveAt(m, FindIndex(m.blocks, src).value, FindIndex(m.blocks, dst).value, dst), true)
    else Ret(m, false)
  }

  // -----------------------------------------------------------------------
  // endScope
  // -----------------------------------------------------------------------

  predicate IsLiveStack(b: Block) {
    b.mtype == Stack && b.isAllocated
  }

  /** The reverse search of endScope: the last live stack block. */
  function LastLiveStack(bs: seq<Block>): (r: Option<nat>)
    ensures r.Some? ==> r.value < |bs| && IsLiveStack(bs[r.value])
    ensures r.Some? ==> forall j :: r.value < j < |bs| ==> !IsLiveStack(bs[j])
    ensures r.None? ==> forall j :: 0 <= j < |bs| ==> !IsLiveStack(bs[j])
    decreases |bs|
  {
    if bs == [] then None
    else if IsLiveStack(bs[|bs| - 1]) then Some(|bs| - 1)
    else LastLiveStack(bs[..|bs| - 1])
  }

  /** Every block that was dead is still dead: nothing is ever revived. */
  predicate StaysDead(m: Manager, r: Manager)
    requires |m.blocks| <= |r.blocks|
  {
    forall k :: 0 <= k < |m.blocks| && !m.blocks[k].isAllocated ==> !r.blocks[k].isAllocated
  }

  /** The block `i` retired by a scope exit, before any cascade: dead, one
      level shallower, and nothing else touched (pointers at it keep it). */
  function Retire(m: Manager, i: nat): (r: Manager)
    requires i < |m.blocks|
    ensures |r.blocks| == |m.blocks| && r.nextId == m.nextId && r.events == m.events
    ensures r.stackDepth == m.stackDepth - 1
    ensures r.blocks == m.blocks[i := m.blocks[i].(isAllocated := false)]
  {
    m.(blocks := m.blocks[i := m.blocks[i].(isAllocated := false)],
       stackDepth := m.stackDepth - 1)
  }

  /** An owning pointer releases its pointee when it is retired. */
  predicate Owns(b: Block) {
    b.isPointer && b.pointsTo != NULL_ID && b.pointerType != Raw
  }

  /** The cascade of a retired owning pointer onto its pointee. */
  function Cascade(m: Manager, b: Block): (r: Manager)
    ensures SameShape(m, r)
    ensures Valid(m) ==> Valid(r)
    ensures !Owns(b) ==> r == m
    ensures Owns(b) && b.pointerType == Unique ==> r == Deallocate(m, b.pointsTo).m
    ensures Owns(b) && b.pointerType == Shared ==> r == DecreaseRefCount(m, b.pointsTo)
  {
    if b.isPointer && b.pointsTo != NULL_ID then
      if b.pointerType == Unique then Deallocate(m, b.pointsTo).m
      else if b.pointerType == Shared then DecreaseRefCount(m, b.pointsTo)
      else m
    else m
  }

  /** endScope.  At depth zero, or with no live stack block, nothing
      happens.  Otherwise the last live stack block dies, the depth drops
      by one and the id counter is untouched; when that block owns nothing
      (a plain value, a raw or null pointer) no other block changes, so
      pointers at it keep their target; a unique pointer frees its pointee
      and a shared one gives up one owner.  The retirement is logged after
      whatever the cascade logged. */
  function EndScope(m: Manager): (r: Manager)
    ensures m.stackDepth == 0 || LastLiveStack(m.blocks).None? ==> r == m
    ensures m.stackDepth != 0 && LastLiveStack(m.blocks).Some? ==>
      var i := LastLiveStack(m.blocks).value;
      var b := m.blocks[i];
      var m1 := Retire(m, i);
      && r.stackDepth == m.stackDepth - 1
      && r.nextId == m.nextId
      && |r.blocks| == |m.blocks|
      && (forall k :: 0 <= k < |m.blocks| ==> SameIdentity(m.blocks[k], r.blocks[k]))
      && (!Owns(b) ==> r.blocks == m.blocks[i := b.(isAllocated := false)])
      && (Owns(b) && b.pointerType == Unique ==> r.blocks == Deallocate(m1, b.pointsTo).m.blocks)
      && (Owns(b) && b.pointerType == Shared ==> r.blocks == DecreaseRefCount(m1, b.pointsTo).blocks)
      && r.events == AddEvent(Cascade(m1, b).events, Event(Deallocated, b.id))
  {
    if m.stackDepth == 0 then m
    else match LastLiveStack(m.blocks)
      case None => m
      case Some(i) =>
        var b := m.blocks[i];
        Log(Cascade(Retire(m, i), b), Deallocated, b.id)
  }

  /** endScope keeps the manager invariant and registers or drops nothing. */
  lemma EndScopeValid(m: Manager)
    ensures Valid(m) ==> Valid(EndScope(m))
    ensures KeepsIds(m, EndScope(m))
  {
    if m.stackDepth != 0 && LastLiveStack(m.blocks).Some? {
      var i := LastLiveStack(m.blocks).value;
      var m1 := Retire(m, i);
      assert SameShape(m1, Cascade(m1, m.blocks[i]));
      if Valid(m) {
        ValidSameShape(m, m1.(stackDepth := m.stackDepth));
        assert Valid(m1);
      }
    }
  }

  // -----------------------------------------------------------------------
  // detectLeaks
  // -----------------------------------------------------------------------

  /** Some live pointer block targets `id`. */
  predicate IsTargeted(bs: seq<Block>, id: int) {
    exists j :: 0 <= j < |bs| && bs[j].isPointer && bs[j].isAllocated && bs[j].pointsTo == id
  }

  /** The leak test: a live heap-kind block with raw discipline that no
      live pointer targets. */
  predicate IsLeak(bs: seq<Block>, b: Block) {
    IsHeapKind(b) && b.isAllocated && !IsTargeted(bs, b.id) && b.pointerType == Raw
  }

  /** Reference definition: the leaking ids among the first `k` blocks, in
      registry order. */
  function LeakIds(bs: seq<Block>, k: nat): seq<int>
    requires k <= |bs|
    decreases k
  {
    if k == 0 then []
    else LeakIds(bs, k - 1) + (if IsLeak(bs, bs[k - 1]) then [bs[k - 1].id] else [])
  }

  /** The inner loop of detectLeaks. */
  method HasLivePointer(bs: seq<Block>, id: int) returns (found: bool)
    ensures found <==> IsTargeted(bs, id)
  {
    found := false;
    var j := 0;
    while j < |bs|
      invariant 0 <= j <= |bs|
      invariant !found
      invariant forall k :: 0 <= k < j ==> !(bs[k].isPointer && bs[k].isAllocated && bs[k].pointsTo == id)
    {
      if bs[j].isPointer && bs[j].isAllocated && bs[j].pointsTo == id {
        found := true;
        return;
      }
      j := j + 1;
    }
  }

  /** detectLeaks: reads the state, changes nothing, and returns the
      leaking ids in registry order. */
  method DetectLeaks(m: Manager) returns (leaks: seq<int>)
    ensures leaks == LeakIds(m.blocks, |m.blocks|)
  {
    leaks := [];
    var i := 0;
    while i < |m.blocks|
      invariant 0 <= i <= |m.blocks|
      invariant leaks == LeakIds(m.blocks, i)
    {
      var b := m.blocks[i];
      if IsHeapKind(b) && b.isAllocated {
        var hasPointer := HasLivePointer(m.blocks, b.id);
        if !hasPointer && b.pointerType == Raw {
          leaks := leaks + [b.id];
        }
      }
      i := i + 1;
    }
  }
}
