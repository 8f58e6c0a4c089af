/**
 * The ESP32's pool of three 1 KiB buffers for building JSON documents:
 * `allocate` hands out the first free pool buffer, or falls back to the
 * heap when the request is too large, there is no mutex, or every buffer
 * is taken; `release` gives a pool buffer back and frees anything else.
 */
module JsonBufferPool {
  import opened Wrappers

  const POOL_SIZE: nat := 3
  const BUFFER_SIZE: nat := 1024

  /** A buffer pointer: null, one of the pool's buffers, or a block from the heap. */
  datatype Ptr = Null | Pooled(slot: nat) | Heap(block: nat)

  /** `Stats`, as `getStats` fills it in. */
  datatype Stats = Stats(totalBuffers: nat, availableBuffers: nat, bufferSize: nat)

  /** The first buffer not in use, if any. */
  function FirstFree(inUse: seq<bool>): (r: Option<nat>)
    ensures r.Some? ==> r.value < |inUse| && !inUse[r.value] && forall j :: 0 <= j < r.value ==> inUse[j]
    ensures r.None? ==> forall j :: 0 <= j < |inUse| ==> inUse[j]
  {
    if |inUse| == 0 then None
    else if !inUse[0] then Some(0)
    else
      match FirstFree(inUse[1..])
      case None => None
      case Some(k) => Some(k + 1)
  }

  /** The number of buffers not in use. */
  function CountFree(inUse: seq<bool>): (r: nat)
    ensures r <= |inUse|
  {
    if |inUse| == 0 then 0
    else CountFree(inUse[..|inUse| - 1]) + if inUse[|inUse| - 1] then 0 else 1
  }

  class Pool {
    /** `_inUse`: which pool buffers are handed out. */
    const inUse: array<bool>
    /** `_buffers[i][0]`: the first character of each pool buffer. */
    const leading: array<char>
    /** Whether `xSemaphoreCreateMutex` succeeded. */
    const hasMutex: bool

    ghost predicate Valid()
      reads this
    {
      inUse.Length == POOL_SIZE && leading.Length == POOL_SIZE && inUse != leading as object
    }

    /** The constructed pool: every buffer free and holding the empty string. */
    constructor(mutexCreated: bool)
      ensures Valid() && hasMutex == mutexCreated
      ensures inUse[..] == [false, false, false] && leading[..] == ['\0', '\0', '\0']
    {
      inUse := new bool[POOL_SIZE](_ => false);
      leading := new char[POOL_SIZE](_ => '\0');
      hasMutex := mutexCreated;
    }

    /**
     * `allocate`: `heap` is what `heap_caps_malloc` would return (null when
     * the heap is exhausted). A request of at most 1024 bytes, with the
     * mutex present, takes the first free pool buffer and marks it in use.
     */
    method Allocate(size: nat, heap: Ptr) returns (p: Ptr)
      requires Valid() && !heap.Pooled?
      modifies inUse
      ensures Valid()
      ensures size <= BUFFER_SIZE && hasMutex && FirstFree(old(inUse[..])).Some? ==>
        var i := FirstFree(old(inUse[..])).value;
        p == Pooled(i) && inUse[..] == old(inUse[..])[i := true]
      ensures !(size <= BUFFER_SIZE && hasMutex && FirstFree(old(inUse[..])).Some?) ==>
        p == heap && inUse[..] == old(inUse[..])
    {
      if size > BUFFER_SIZE {
        return heap;
      }
      if !hasMutex {
        return heap;
      }
      var i := 0;
      while i < POOL_SIZE
        invariant 0 <= i <= POOL_SIZE && inUse[..] == old(inUse[..])
        invariant forall j :: 0 <= j < i ==> inUse[j]
      {
        if !inUse[i] {
          inUse[i] := true;
          return Pooled(i);
        }
        i := i + 1;
      }
      return heap;
    }

    /**
     * `release`: a pool buffer is marked free and emptied (when the mutex
     * is present); any other non-null pointer goes back to the heap, which
     * `freed` reports.
     */
    method Release(p: Ptr) returns (freed: bool)
      requires Valid()
      modifies inUse, leading
      ensures Valid()
      ensures freed <==> p.Heap? || (p.Pooled? && p.slot >= POOL_SIZE)
      ensures p.Pooled? && p.slot < POOL_SIZE && hasMutex ==>
        inUse[..] == old(inUse[..])[p.slot := false] && leading[..] == old(leading[..])[p.slot := '\0']
      ensures !(p.Pooled? && p.slot < POOL_SIZE && hasMutex) ==>
        inUse[..] == old(inUse[..]) && leading[..] == old(leading[..])
    {
      if p == Null {
        return false;
      }
      var i := 0;
      while i < POOL_SIZE && p != Pooled(i)
        invariant 0 <= i <= POOL_SIZE
        invariant !(p.Pooled? && p.slot < i)
      {
        i := i + 1;
      }
      var isPoolBuffer := i < POOL_SIZE;
      if isPoolBuffer && hasMutex {
        inUse[i] := false;
        leading[i] := '\0';
      }
      freed := !isPoolBuffer;
    }

    /** `getStats`: the pool's shape and, with the mutex present, how many buffers are free. */
    method GetStats() returns (stats: Stats)
      requires Valid()
      ensures stats.totalBuffers == POOL_SIZE && stats.bufferSize == BUFFER_SIZE
      ensures stats.availableBuffers == if hasMutex then CountFree(inUse[..]) else 0
    {
      stats := Stats(POOL_SIZE, 0, BUFFER_SIZE);
      if hasMutex {
        var available := 0;
        for i := 0 to POOL_SIZE
          invariant available == CountFree(inUse[..i])
        {
          assert inUse[..i + 1][..i] == inUse[..i];
          if !inUse[i] {
            available := available + 1;
          }
        }
        assert inUse[..POOL_SIZE] == inUse[..];
        stats := stats.(availableBuffers := available);
      }
    }
  }

  // ---------------------------------------------------------------------------
  // Properties of the slot table
  // ---------------------------------------------------------------------------

  /** Taking the first free buffer leaves one fewer free. */
  lemma {:induction false} TakeCountsDown(inUse: seq<bool>, i: nat)
    requires i < |inUse| && !inUse[i]
    ensures CountFree(inUse[i := true]) == CountFree(inUse) - 1
  {
    var t := inUse[i := true];
    if i == |inUse| - 1 {
      assert t[..|t| - 1] == inUse[..|inUse| - 1];
    } else {
      assert t[..|t| - 1] == inUse[..|inUse| - 1][i := true];
      TakeCountsDown(inUse[..|inUse| - 1], i);
    }
  }

  /** Giving back a buffer in use leaves one more free. */
  lemma {:induction false} GiveBackCountsUp(inUse: seq<bool>, i: nat)
    requires i < |inUse| && inUse[i]
    ensures CountFree(inUse[i := false]) == CountFree(inUse) + 1
  {
    var t := inUse[i := false];
    if i == |inUse| - 1 {
      assert t[..|t| - 1] == inUse[..|inUse| - 1];
    } else {
      assert t[..|t| - 1] == inUse[..|inUse| - 1][i := false];
      GiveBackCountsUp(inUse[..|inUse| - 1], i);
    }
  }

  /** Some buffer is free exactly when the free count is positive, so the heap is the fallback only when all are taken. */
  lemma {:induction false} FreeIffCount(inUse: seq<bool>)
    ensures FirstFree(inUse).Some? <==> CountFree(inUse) > 0
  {
    if |inUse| > 0 {
      var last := inUse[..|inUse| - 1];
      FreeIffCount(last);
      if FirstFree(last).Some? {
        var k := FirstFree(last).value;
        assert !inUse[k];
      } else if !inUse[|inUse| - 1] {
        assert FirstFree(inUse).Some? by {
          assert !inUse[|inUse| - 1];
        }
      } else {
        assert forall j :: 0 <= j < |inUse| - 1 ==> last[j];
      }
    }
  }

  /**
   * A buffer handed out is not one already in use, so two outstanding
   * allocations never share a pool buffer; releasing it restores the table.
   */
  lemma AllocateReleaseRoundTrip(inUse: seq<bool>)
    requires FirstFree(inUse).Some?
    ensures var i := FirstFree(inUse).value;
      !inUse[i] && inUse[i := true][i := false] == inUse
      && CountFree(inUse[i := true]) == CountFree(inUse) - 1
  {
    var i := FirstFree(inUse).value;
    TakeCountsDown(inUse, i);
  }
}
