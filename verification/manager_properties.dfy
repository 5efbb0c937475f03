/** Properties of the memory manager that relate several calls, or a call
    and a reference definition: what a leak report contains, what a free
    leaves behind, what a scope exit leaves dangling, and that ids are
    never reused and dead blocks never revive. */
module ManagerProperties {
  import opened Common
  import opened MemoryBlock
  import opened MemoryManager

  // -----------------------------------------------------------------------
  // detectLeaks
  // -----------------------------------------------------------------------

  /** An id is reported among the first `k` blocks exactly when one of
      them carries it and is a leak. */
  lemma {:induction false} LeakIdsMembership(bs: seq<Block>, k: nat, x: int)
    requires k <= |bs|
    ensures x in LeakIds(bs, k) <==> exists j :: 0 <= j < k && bs[j].id == x && IsLeak(bs, bs[j])
    decreases k
  {
    if k > 0 {
      LeakIdsMembership(bs, k - 1, x);
      if IsLeak(bs, bs[k - 1]) && bs[k - 1].id == x {
        assert x in LeakIds(bs, k);
      }
    }
  }

  /** In a valid registry the report is exact: a block's id is reported
      if and only if that block is a leak. */
  lemma LeakReportExact(m: Manager, j: nat)
    requires Valid(m) && j < |m.blocks|
    ensures m.blocks[j].id in LeakIds(m.blocks, |m.blocks|) <==> IsLeak(m.blocks, m.blocks[j])
  {
    var bs := m.blocks;
    LeakIdsMembership(bs, |bs|, bs[j].id);
    if bs[j].id in LeakIds(bs, |bs|) {
      var k :| 0 <= k < |bs| && bs[k].id == bs[j].id && IsLeak(bs, bs[k]);
      assert !(k < j) && !(j < k);
    }
  }

  /** What the report promises: every reported id belongs to a live,
      raw, heap-kind block that no live pointer targets; so a block owned
      through unique_ptr or shared_ptr, or a stack block, is never
      reported. */
  lemma LeaksAreUnreachableRaw(m: Manager, x: int)
    requires x in LeakIds(m.blocks, |m.blocks|)
    ensures !IsTargeted(m.blocks, x)
    ensures exists j :: (0 <= j < |m.blocks| && m.blocks[j].id == x
      && m.blocks[j].isAllocated && m.blocks[j].pointerType == Raw && m.blocks[j].mtype != Stack)
  {
    LeakIdsMembership(m.blocks, |m.blocks|, x);
  }

  // -----------------------------------------------------------------------
  // deallocate
  // -----------------------------------------------------------------------

  /** Freeing a live block that is not shared by several owners kills it
      and leaves no pointer aimed at it. */
  lemma DeallocateLeavesNoPointer(m: Manager, id: int)
    requires Valid(m) && IsLive(m, id) && !SharedHeld(m.blocks[FindIndex(m.blocks, id).value])
    ensures !IsLive(Deallocate(m, id).m, id)
    ensures !IsTargeted(Deallocate(m, id).m.blocks, id)
  {
    var r := Deallocate(m, id).m;
    var i := FindIndex(m.blocks, id).value;
    assert FreedFrom(m.blocks, r.blocks, i);
    assert m.blocks[i].id == id && id != NULL_ID;
    SameShapeFind(m, r, id);
    forall j | 0 <= j < |r.blocks|
      ensures !(r.blocks[j].isPointer && r.blocks[j].isAllocated && r.blocks[j].pointsTo == id)
    {
      assert SameIdentity(m.blocks[j], r.blocks[j]);
    }
  }

  /** A shared block with several owners survives a deallocate with one
      owner fewer. */
  lemma DeallocateSharedKeepsBlock(m: Manager, id: int)
    requires IsLive(m, id) && SharedHeld(m.blocks[FindIndex(m.blocks, id).value])
    ensures IsLive(Deallocate(m, id).m, id)
    ensures var i := FindIndex(m.blocks, id).value;
      Deallocate(m, id).m.blocks[i].refCount == m.blocks[i].refCount - 1
  {
    SameShapeFind(m, Deallocate(m, id).m, id);
  }

  // -----------------------------------------------------------------------
  // endScope
  // -----------------------------------------------------------------------

  /** A scope exit that retires a block owning nothing leaves any other
      pointer at that block aimed at a dead block: a dangling pointer. */
  lemma EndScopeLeavesDangling(m: Manager, k: nat)
    requires Valid(m) && m.stackDepth != 0 && LastLiveStack(m.blocks).Some?
    requires !Owns(m.blocks[LastLiveStack(m.blocks).value])
    requires k < |m.blocks| && k != LastLiveStack(m.blocks).value
    requires m.blocks[k].pointsTo == m.blocks[LastLiveStack(m.blocks).value].id
    ensures var r := EndScope(m);
      var b := m.blocks[LastLiveStack(m.blocks).value];
      r.blocks[k].pointsTo == b.id && r.blocks[k].isAllocated == m.blocks[k].isAllocated
      && !IsLive(r, b.id)
  {
    var i := LastLiveStack(m.blocks).value;
    var b := m.blocks[i];
    var r := EndScope(m);
    assert r.blocks == m.blocks[i := b.(isAllocated := false)];
    assert FindIndex(m.blocks, b.id) == Some(i) by {
      assert forall j :: 0 <= j < i ==> m.blocks[j].id < b.id;
    }
    FindIndexSameIds(m.blocks, r.blocks, b.id);
  }

  // -----------------------------------------------------------------------
  // Ids and liveness
  // -----------------------------------------------------------------------

  /** In a valid registry the block at index `i` is the one findBlock
      returns for its id. */
  lemma FindOwnId(m: Manager, i: nat)
    requires Valid(m) && i < |m.blocks|
    ensures FindIndex(m.blocks, m.blocks[i].id) == Some(i)
  {
    var f := FindIndex(m.blocks, m.blocks[i].id);
    assert f.Some?;
    assert !(f.value < i) && !(i < f.value);
  }

  /** A created block takes an id no registered block has, and every id
      registered before is still found where it was. */
  lemma CreatedIdIsFresh(m: Manager, r: Ret<int>, id: int)
    requires Valid(m) && Created(m, r)
    ensures !HasId(m.blocks, r.v)
    ensures HasId(m.blocks, id) ==> FindIndex(r.m.blocks, id) == FindIndex(m.blocks, id)
  {
    assert r.m.blocks == m.blocks + [r.m.blocks[|m.blocks|]];
    FindIndexAppend(m.blocks, r.m.blocks[|m.blocks|], id);
  }

  /** Freeing never revives a block: what was dead before a deallocate
      is dead after it. */
  lemma DeallocateStaysDead(m: Manager, id: int)
    ensures StaysDead(m, Deallocate(m, id).m)
  {
    var r := Deallocate(m, id);
    if r.v {
      var i := FindIndex(m.blocks, id).value;
      var b := m.blocks[i];
      if SharedHeld(b) {
        assert r.m.blocks == m.blocks[i := b.(refCount := b.refCount - 1)];
      } else {
        assert FreedFrom(m.blocks, r.m.blocks, i);
      }
    }
  }

  /** Nor does a scope exit, whatever its cascade frees. */
  lemma EndScopeStaysDead(m: Manager)
    ensures |m.blocks| <= |EndScope(m).blocks|
    ensures StaysDead(m, EndScope(m))
  {
    if m.stackDepth != 0 && LastLiveStack(m.blocks).Some? {
      var i := LastLiveStack(m.blocks).value;
      var b := m.blocks[i];
      var m1 := Retire(m, i);
      if Owns(b) && b.pointerType == Unique {
        DeallocateStaysDead(m1, b.pointsTo);
      } else if Owns(b) && b.pointerType == Shared {
        DecreaseRefCountStaysDead(m1, b.pointsTo);
      }
    }
  }

  /** Giving up an owner never revives a block either. */
  lemma DecreaseRefCountStaysDead(m: Manager, id: int)
    ensures StaysDead(m, DecreaseRefCount(m, id))
  {
    var r := DecreaseRefCount(m, id);
    match FindIndex(m.blocks, id)
    case None =>
    case Some(i) =>
      var b := m.blocks[i];
      var dec := m.blocks[i := b.(refCount := b.refCount - 1)];
      if b.refCount == 1 && b.isAllocated {
        assert FreedFrom(dec, r.blocks, i);
      }
  }

  /** Nor does an assignment, whose release of a shared pointer's old
      target may free it. */
  lemma AssignPointerStaysDead(m: Manager, ptrId: int, target: int)
    ensures StaysDead(m, AssignPointer(m, ptrId, target).m)
  {
    match FindIndex(m.blocks, ptrId)
    case None =>
    case Some(i) =>
      var p := m.blocks[i];
      if p.pointerType == Shared && p.pointsTo != NULL_ID {
        DecreaseRefCountStaysDead(m, p.pointsTo);
      }
  }

  // -----------------------------------------------------------------------
  // moveUniquePtr
  // -----------------------------------------------------------------------

  /** Moving a unique pointer onto itself does not keep its pointee: the
      pointer ends up null. */
  lemma SelfMoveNulls(m: Manager, id: int)
    requires FindIndex(m.blocks, id).Some?
    requires m.blocks[FindIndex(m.blocks, id).value].pointerType == Unique
    ensures MoveUniquePtr(m, id, id).v
    ensures MoveUniquePtr(m, id, id).m.blocks[FindIndex(m.blocks, id).value].pointsTo == NULL_ID
  {
  }
}
