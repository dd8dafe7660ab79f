/**
 * The fixed-block memory pool of memory_utility.c: a byte arena of
 * BLOCK_COUNT blocks of BLOCK_SIZE bytes and one occupancy flag per block.
 * A pointer into the pool is modelled by its byte offset from the start of
 * the pool.  Every buffer of the firmware (receive page, message page, tag
 * scratch block) is carved out of this one pool.
 */
module MemoryPool {
  import opened Wrappers
  import opened CStrings

  /** Bytes per block.  The header that defines it is not part of this model; 32 is assumed. */
  const BLOCK_SIZE: nat := 32
  /** Number of blocks.  The header that defines it is not part of this model; 32 is assumed. */
  const BLOCK_COUNT: nat := 32
  const MEMORY_POOL_SIZE: nat := BLOCK_SIZE * BLOCK_COUNT

  /** A `char*` into the pool: NULL, or a byte offset from `memPool.pool`. */
  datatype Ptr = Null | At(offset: nat)

  /** The block index the source computes from a pointer: `(ptr - memPool.pool) / BLOCK_SIZE`. */
  function BlockOf(offset: nat): nat {
    offset / BLOCK_SIZE
  }

  /** Blocks `[s, s + n)` exist and are all free. */
  predicate RunFree(usage: seq<bool>, s: nat, n: nat) {
    s + n <= |usage| && forall k :: s <= k < s + n ==> !usage[k]
  }

  /** The occupancy table with blocks `[s, s + n)` set to `v`. */
  function SetRange(usage: seq<bool>, s: nat, n: nat, v: bool): (r: seq<bool>)
    ensures |r| == |usage|
  {
    seq(|usage|, i requires 0 <= i < |usage| => if s <= i < s + n then v else usage[i])
  }

  /** The lowest free block at or after `from`. */
  function FirstFreeFrom(usage: seq<bool>, from: nat): (r: Option<nat>)
    ensures r.Some? ==> from <= r.value < |usage| && !usage[r.value]
    ensures r.Some? ==> forall j :: from <= j < r.value ==> usage[j]
    ensures r.None? ==> forall j :: from <= j < |usage| ==> usage[j]
    decreases |usage| - from
  {
    if from >= |usage| then None
    else if !usage[from] then Some(from)
    else FirstFreeFrom(usage, from + 1)
  }

  /** The lowest start `s >= from` of a free run of `n` blocks. */
  function FirstRunFrom(usage: seq<bool>, n: nat, from: nat): (r: Option<nat>)
    ensures r.Some? ==> from <= r.value && RunFree(usage, r.value, n)
    ensures r.Some? ==> forall t :: from <= t < r.value ==> !RunFree(usage, t, n)
    ensures r.None? ==> forall t :: from <= t ==> !RunFree(usage, t, n)
    decreases |usage| - from
  {
    if from + n > |usage| then None
    else if RunFree(usage, from, n) then Some(from)
    else FirstRunFrom(usage, n, from + 1)
  }

  /** What an allocation returns, with the occupancy table it leaves behind. */
  datatype Allocation = Allocation(ptr: Ptr, usage: seq<bool>)

  /** MemoryPool_Allocate: first-fit over single blocks. */
  function AllocateSpec(usage: seq<bool>): (a: Allocation)
    requires |usage| == BLOCK_COUNT
    ensures a.ptr.Null? <==> forall j :: 0 <= j < BLOCK_COUNT ==> usage[j]
    ensures a.ptr.Null? ==> a.usage == usage
    ensures a.ptr.At? ==> a.ptr.offset % BLOCK_SIZE == 0
    ensures a.ptr.At? ==> var b := BlockOf(a.ptr.offset);
      && b < BLOCK_COUNT && !usage[b]
      && (forall j :: 0 <= j < b ==> usage[j])
      && a.usage == usage[b := true]
  {
    match FirstFreeFrom(usage, 0)
    case None => Allocation(Null, usage)
    case Some(b) => Allocation(At(b * BLOCK_SIZE), usage[b := true])
  }

  /** MemoryPool_Free: clears the block a pointer falls in; NULL and out-of-range pointers are ignored. */
  function FreeSpec(usage: seq<bool>, p: Ptr): (r: seq<bool>)
    requires |usage| == BLOCK_COUNT
  {
    if p.At? && BlockOf(p.offset) < BLOCK_COUNT then usage[BlockOf(p.offset) := false] else usage
  }

  /** MemoryPool_AllocatePages: first-fit over runs of `n` contiguous blocks, all or nothing. */
  function AllocatePagesSpec(usage: seq<bool>, n: nat): (a: Allocation)
    requires |usage| == BLOCK_COUNT
    ensures a.ptr.Null? <==> (n == 0 || n > BLOCK_COUNT || forall t :: !RunFree(usage, t, n))
    ensures a.ptr.Null? ==> a.usage == usage
    ensures a.ptr.At? ==> a.ptr.offset % BLOCK_SIZE == 0
    ensures a.ptr.At? ==> var s := BlockOf(a.ptr.offset);
      && RunFree(usage, s, n)
      && (forall t: nat :: t < s ==> !RunFree(usage, t, n))
      && a.usage == SetRange(usage, s, n, true)
  {
    if n == 0 || n > BLOCK_COUNT then Allocation(Null, usage)
    else match FirstRunFrom(usage, n, 0)
      case None => Allocation(Null, usage)
      case Some(s) => Allocation(At(s * BLOCK_SIZE), SetRange(usage, s, n, true))
  }

  /**
   * MemoryPool_FreePages: clears `n` blocks from the one `p` falls in, when
   * that range lies inside the table.  The range test is done on unbounded
   * integers; the source does it in uint32 arithmetic (see FreePagesGuardAsWritten).
   */
  function FreePagesSpec(usage: seq<bool>, p: Ptr, n: nat): (r: seq<bool>)
    requires |usage| == BLOCK_COUNT
  {
    if p.At? && n > 0 && BlockOf(p.offset) + n <= BLOCK_COUNT then SetRange(usage, BlockOf(p.offset), n, false)
    else usage
  }

  const UINT32_MODULUS: nat := 0x1_0000_0000

  /** The range test of MemoryPool_FreePages as written: `start_block_index + page_count <= BLOCK_COUNT` in uint32. */
  predicate FreePagesGuardAsWritten(start: nat, n: nat)
    requires start < UINT32_MODULUS && n < UINT32_MODULUS
  {
    (start + n) % UINT32_MODULUS <= BLOCK_COUNT
  }

  /** MemoryPool_GetFreeBlocks: the number of free blocks. */
  function CountFree(usage: seq<bool>): (r: nat)
    ensures r <= |usage|
  {
    if |usage| == 0 then 0
    else CountFree(usage[..|usage| - 1]) + (if usage[|usage| - 1] then 0 else 1)
  }

  /** The static `memPool`: the byte arena and its occupancy table. */
  class MemoryPool {
    /** memPool.pool */
    const storage: array<char>
    /** memPool.block_usage */
    const blockUsage: array<bool>

    ghost predicate Valid() {
      storage.Length == MEMORY_POOL_SIZE && blockUsage.Length == BLOCK_COUNT
    }

    /** The static object as the C runtime provides it: all bytes zero, all blocks free. */
    constructor ()
      ensures Valid() && fresh(storage) && fresh(blockUsage)
      ensures forall i :: 0 <= i < BLOCK_COUNT ==> !blockUsage[i]
      ensures forall i :: 0 <= i < MEMORY_POOL_SIZE ==> storage[i] == NUL
    {
      storage := new char[MEMORY_POOL_SIZE](_ => NUL);
      blockUsage := new bool[BLOCK_COUNT](_ => false);
    }

    /** MemoryPool_Init: clears every byte and marks every block free. */
    method Init()
      requires Valid()
      modifies storage, blockUsage
      ensures forall i :: 0 <= i < BLOCK_COUNT ==> !blockUsage[i]
      ensures forall i :: 0 <= i < MEMORY_POOL_SIZE ==> storage[i] == NUL
    {
      var i := 0;
      while i < MEMORY_POOL_SIZE
        invariant 0 <= i <= MEMORY_POOL_SIZE
        invariant forall k :: 0 <= k < i ==> storage[k] == NUL
      {
        storage[i] := NUL;
        i := i + 1;
      }
      i := 0;
      while i < BLOCK_COUNT
        modifies blockUsage
        invariant 0 <= i <= BLOCK_COUNT
        invariant forall k :: 0 <= k < i ==> !blockUsage[k]
      {
        blockUsage[i] := false;
        i := i + 1;
      }
    }

    /** MemoryPool_Allocate */
    method Allocate() returns (p: Ptr)
      requires Valid()
      modifies blockUsage
      ensures Allocation(p, blockUsage[..]) == AllocateSpec(old(blockUsage[..]))
    {
      p := Null;
      var i := 0;
      while i < BLOCK_COUNT
        invariant 0 <= i <= BLOCK_COUNT
        invariant blockUsage[..] == old(blockUsage[..])
        invariant forall j :: 0 <= j < i ==> blockUsage[j]
      {
        if !blockUsage[i] {
          blockUsage[i] := true;
          p := At(i * BLOCK_SIZE);
          break;
        }
        i := i + 1;
      }
    }

    /** MemoryPool_Free */
    method Free(p: Ptr)
      requires Valid()
      modifies blockUsage
      ensures blockUsage[..] == FreeSpec(old(blockUsage[..]), p)
    {
      if p.At? {
        var index := BlockOf(p.offset);
        if index < BLOCK_COUNT {
          blockUsage[index] := false;
        }
      }
    }

    /** MemoryPool_AllocatePages: checks a whole run before marking any of it. */
    method AllocatePages(n: nat) returns (p: Ptr)
      requires Valid()
      modifies blockUsage
      ensures Allocation(p, blockUsage[..]) == AllocatePagesSpec(old(blockUsage[..]), n)
    {
      p := Null;
      if n > 0 && n <= BLOCK_COUNT {
        ghost var u := blockUsage[..];
        var start := 0;
        while start <= BLOCK_COUNT - n
          invariant 0 <= start <= BLOCK_COUNT - n + 1
          invariant blockUsage[..] == u && p == Null
          invariant FirstRunFrom(u, n, 0) == FirstRunFrom(u, n, start)
        {
          var free := true;
          var offset := 0;
          while offset < n
            invariant 0 <= offset <= n
            invariant free
            invariant forall k :: start <= k < start + offset ==> !blockUsage[k]
          {
            if blockUsage[start + offset] {
              free := false;
              break;
            }
            offset := offset + 1;
          }
          if free {
            assert RunFree(u, start, n);
            offset := 0;
            while offset < n
              invariant 0 <= offset <= n
              invariant blockUsage[..] == SetRange(u, start, offset, true)
            {
              blockUsage[start + offset] := true;
              offset := offset + 1;
            }
            p := At(start * BLOCK_SIZE);
            break;
          }
          start := start + 1;
        }
      }
    }

    /** MemoryPool_FreePages */
    method FreePages(p: Ptr, n: nat)
      requires Valid()
      modifies blockUsage
      ensures blockUsage[..] == FreePagesSpec(old(blockUsage[..]), p, n)
    {
      if p.At? && n > 0 {
        var start := BlockOf(p.offset);
        if start + n <= BLOCK_COUNT {
          ghost var u := blockUsage[..];
          var offset := 0;
          while offset < n
            invariant 0 <= offset <= n
            invariant blockUsage[..] == SetRange(u, start, offset, false)
          {
            blockUsage[start + offset] := false;
            offset := offset + 1;
          }
        }
      }
    }

    /** MemoryPool_GetFreeBlocks */
    method GetFreeBlocks() returns (count: nat)
      requires Valid()
      ensures count == CountFree(blockUsage[..])
    {
      count := 0;
      var i := 0;
      while i < BLOCK_COUNT
        invariant 0 <= i <= BLOCK_COUNT
        invariant count == CountFree(blockUsage[..i])
      {
        assert blockUsage[..i + 1][..i] == blockUsage[..i];
        if !blockUsage[i] {
          count := count + 1;
        }
        i := i + 1;
      }
      assert blockUsage[..BLOCK_COUNT] == blockUsage[..];
    }

    /**
     * A store of `bytes` through a pointer into the pool (a run of `p[i] = c`,
     * memset, memcpy or snprintf).  Bytes past the end of the pool are dropped.
     */
    method Write(at: nat, bytes: seq<char>)
      requires Valid()
      modifies storage
      ensures storage[..] == WriteBytes(old(storage[..]), at, bytes)
    {
      var k := 0;
      while k < |bytes|
        invariant 0 <= k <= |bytes|
        invariant storage[..] == WriteBytes(old(storage[..]), at, bytes[..k])
      {
        if at + k < storage.Length {
          storage[at + k] := bytes[k];
        }
        k := k + 1;
      }
      assert bytes[..|bytes|] == bytes;
    }
  }
}
