/** The wait queues of the hand-off lock: circular arrays that grow
    (gl_waitqueue_init, _add, _notify_first and _notify_all in glthread/lock.c). */
module WaitQueue {

  type Handle = nat

  /** The index of the i-th event in an array of a given size, counted from the offset. */
  function Turned(offset: nat, i: nat, alloc: nat): nat {
    if offset + i >= alloc then offset + i - alloc else offset + i
  }

  /** The events of an array, first come first. */
  function Turn(arr: seq<Handle>, offset: nat, count: nat): (s: seq<Handle>)
    requires offset <= |arr| && count <= |arr|
    ensures |s| == count
    ensures forall i :: 0 <= i < count ==> s[i] == arr[Turned(offset, i, |arr|)]
  {
    if offset + count <= |arr| then arr[offset..offset + count] else arr[offset..] + arr[..offset + count - |arr|]
  }

  lemma TurnedMore(arr: seq<Handle>, offset: nat, count: nat, event: Handle)
    requires offset < |arr| && count < |arr|
    ensures Turn(arr[Turned(offset, count, |arr|) := event], offset, count + 1) == Turn(arr, offset, count) + [event]
  {}

  lemma TurnedLess(arr: seq<Handle>, offset: nat, count: nat)
    requires offset < |arr| && 0 < count <= |arr|
    ensures var next := if count == 1 || offset + 1 == |arr| then 0 else offset + 1;
      [arr[offset]] + Turn(arr, next, count - 1) == Turn(arr, offset, count)
  {}

  /** What had wrapped around goes behind the rest. */
  method Unwrap(a: array<Handle>, limit: nat, oldAlloc: nat)
    requires limit <= oldAlloc && oldAlloc + limit <= a.Length
    modifies a
    ensures a[..oldAlloc + limit] == old(a[..oldAlloc]) + old(a[..limit])
  {
    ghost var was := a[..];
    for i := 0 to limit
      invariant forall k :: 0 <= k < oldAlloc ==> a[k] == was[k]
      invariant a[oldAlloc..oldAlloc + i] == was[..i]
    {
      a[oldAlloc + i] := a[i];
    }
    assert a[..oldAlloc + limit] == a[..oldAlloc] + a[oldAlloc..oldAlloc + limit];
  }

  /** Everything moves down to the start. */
  method MoveDown(a: array<Handle>, count: nat, offset: nat)
    requires offset + count <= a.Length
    modifies a
    ensures a[..count] == old(a[offset..offset + count])
  {
    ghost var was := a[..];
    for i := 0 to count
      invariant a[..i] == was[offset..offset + i]
      invariant forall k :: i <= k < a.Length ==> a[k] == was[k]
    {
      a[i] := a[offset + i];
    }
  }

  /** Rotate the enlarged array so that its contents start at offset 0, in place. */
  method Rotate(a: array<Handle>, oldCount: nat, oldAlloc: nat, oldOffset: nat)
    requires oldCount <= oldAlloc && oldOffset < oldAlloc && a.Length == 2 * oldAlloc + 1
    modifies a
    ensures a[..oldCount] == Turn(old(a[..oldAlloc]), oldOffset, oldCount)
  {
    ghost var was := a[..oldAlloc];
    if oldOffset + oldCount > oldAlloc {
      var limit := oldOffset + oldCount - oldAlloc;
      Unwrap(a, limit, oldAlloc);
      assert a[oldOffset..oldOffset + oldCount] == a[..oldAlloc + limit][oldOffset..];
      assert (was + was[..limit])[oldOffset..] == was[oldOffset..] + was[..limit];
    }
    MoveDown(a, oldCount, oldOffset);
  }

  class CircularQueue {
    var arr: array<Handle>
    var count: nat
    var alloc: nat
    var offset: nat

    ghost predicate Valid()
      reads this
    {
      arr.Length == alloc && count <= alloc && (offset < alloc || offset == 0)
    }

    /** The array index of the i-th waiting event. */
    function Slot(i: nat): (k: nat)
      requires Valid() && i < alloc
      reads this
      ensures k < alloc
    {
      Turned(offset, i, alloc)
    }

    /** The waiting events, first come first. */
    ghost function Contents(): (s: seq<Handle>)
      requires Valid()
      reads this, arr
      ensures |s| == count && forall i :: 0 <= i < count ==> s[i] == arr[Slot(i)]
    {
      Turn(arr[..], offset, count)
    }

    constructor ()
      ensures Valid() && Contents() == [] && fresh(arr)
    {
      arr := new Handle[0];
      count, alloc, offset := 0, 0, 0;
    }

    /** Enlarge the array; the contents then start at offset 0. */
    method Grow()
      requires Valid() && count == alloc
      modifies this
      ensures Valid() && fresh(arr) && count < alloc && count == old(count) && alloc == 2 * old(alloc) + 1
      ensures Contents() == old(Contents())
    {
      var newAlloc := 2 * alloc + 1;
      var a := new Handle[newAlloc];
      for i := 0 to alloc
        modifies a
        invariant forall k :: 0 <= k < i ==> a[k] == arr[k]
      {
        a[i] := arr[i];
      }
      ghost var was := arr[..];
      assert a[..alloc] == was;
      if offset > 0 {
        Rotate(a, count, alloc, offset);
        offset := 0;
      }
      assert a[..count] == Turn(was, old(offset), count);
      arr, alloc := a, newAlloc;
      assert arr[..][..count] == a[..count];
    }

    /** Enqueue the event of the current thread. */
    method Add(event: Handle)
      requires Valid()
      modifies this, arr
      ensures Valid() && (arr == old(arr) || fresh(arr))
      ensures Contents() == old(Contents()) + [event]
    {
      hide Turn;
      if count == alloc {
        Grow();
      }
      var index := offset + count;
      if index >= alloc {
        index := index - alloc;
      }
      ghost var before := arr[..];
      TurnedMore(before, offset, count, event);
      arr[index] := event;
      assert arr[..] == before[index := event];
      count := count + 1;
    }

    /** Signal and dequeue the first event. */
    method NotifyFirst() returns (signalled: Handle)
      requires Valid() && count > 0
      modifies this
      ensures Valid() && arr == old(arr)
      ensures [signalled] + Contents() == old(Contents())
    {
      hide Turn;
      TurnedLess(arr[..], offset, count);
      signalled := arr[offset + 0];
      offset := offset + 1;
      count := count - 1;
      if count == 0 || offset == alloc {
        offset := 0;
      }
    }

    /** Signal all events, in order, and empty the queue. */
    method NotifyAll() returns (signalled: seq<Handle>)
      requires Valid()
      modifies this
      ensures Valid() && arr == old(arr)
      ensures Contents() == [] && signalled == old(Contents())
    {
      signalled := [];
      for i := 0 to count
        invariant signalled == Contents()[..i]
      {
        var index := offset + i;
        if index >= alloc {
          index := index - alloc;
        }
        signalled := signalled + [arr[index]];
      }
      count := 0;
      offset := 0;
    }
  }
}
