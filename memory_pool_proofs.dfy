/**
 * Properties of the block pool's specification: occupancy accounting,
 * round trips between allocation and release, and the uint32 wrap-around in
 * the range test of MemoryPool_FreePages.
 */
module MemoryPoolProofs {
  import opened MemoryPool

  /** After MemoryPool_Init every block is free, so MemoryPool_GetFreeBlocks reports them all. */
  lemma {:induction false} AllFreeCount(usage: seq<bool>)
    requires forall i :: 0 <= i < |usage| ==> !usage[i]
    ensures CountFree(usage) == |usage|
  {
    if |usage| > 0 {
      AllFreeCount(usage[..|usage| - 1]);
    }
  }

  /** No free block is counted exactly when every block is in use. */
  lemma {:induction false} NoFreeCountIffAllUsed(usage: seq<bool>)
    ensures CountFree(usage) == 0 <==> forall i :: 0 <= i < |usage| ==> usage[i]
  {
    if |usage| > 0 {
      var init := usage[..|usage| - 1];
      NoFreeCountIffAllUsed(init);
      assert forall i :: 0 <= i < |init| ==> init[i] == usage[i];
    }
  }

  /** Marking one free block takes exactly one block off the free count. */
  lemma {:induction false} MarkBlockCount(usage: seq<bool>, b: nat)
    requires b < |usage| && !usage[b]
    ensures CountFree(usage[b := true]) + 1 == CountFree(usage)
  {
    var last := |usage| - 1;
    if b < last {
      MarkBlockCount(usage[..last], b);
      assert usage[b := true][..last] == usage[..last][b := true];
    } else {
      assert usage[b := true][..last] == usage[..last];
    }
  }

  /** Marking a free run of `n` blocks takes exactly `n` blocks off the free count. */
  lemma {:induction false} MarkRunCount(usage: seq<bool>, s: nat, n: nat)
    requires RunFree(usage, s, n)
    ensures CountFree(SetRange(usage, s, n, true)) + n == CountFree(usage)
  {
    if n == 0 {
      assert SetRange(usage, s, 0, true) == usage;
    } else {
      var shorter := SetRange(usage, s, n - 1, true);
      MarkRunCount(usage, s, n - 1);
      assert SetRange(usage, s, n, true) == shorter[s + n - 1 := true];
      MarkBlockCount(shorter, s + n - 1);
    }
  }

  /**
   * Pool determinism: MemoryPool_Allocate succeeds exactly when some block is
   * free, and a success uses up exactly one block.
   */
  lemma AllocateUsesOneBlock(usage: seq<bool>)
    requires |usage| == BLOCK_COUNT
    ensures AllocateSpec(usage).ptr.At? <==> CountFree(usage) > 0
    ensures AllocateSpec(usage).ptr.At? ==> CountFree(AllocateSpec(usage).usage) + 1 == CountFree(usage)
  {
    NoFreeCountIffAllUsed(usage);
    var a := AllocateSpec(usage);
    if a.ptr.At? {
      MarkBlockCount(usage, BlockOf(a.ptr.offset));
    }
  }

  /** A successful MemoryPool_AllocatePages(n) uses up exactly `n` blocks. */
  lemma AllocatePagesUsesNBlocks(usage: seq<bool>, n: nat)
    requires |usage| == BLOCK_COUNT
    ensures var a := AllocatePagesSpec(usage, n);
      a.ptr.At? ==> CountFree(a.usage) + n == CountFree(usage)
  {
    var a := AllocatePagesSpec(usage, n);
    if a.ptr.At? {
      MarkRunCount(usage, BlockOf(a.ptr.offset), n);
    }
  }

  /** MemoryPool_Allocate followed by MemoryPool_Free of its result restores the table. */
  lemma AllocateThenFreeRestores(usage: seq<bool>)
    requires |usage| == BLOCK_COUNT
    ensures var a := AllocateSpec(usage);
      FreeSpec(a.usage, a.ptr) == usage
  {
    var a := AllocateSpec(usage);
    if a.ptr.At? {
      var b := BlockOf(a.ptr.offset);
      assert usage[b := true][b := false] == usage;
    }
  }

  /** MemoryPool_AllocatePages(n) followed by MemoryPool_FreePages(p, n) restores the table exactly. */
  lemma AllocatePagesThenFreePagesRestores(usage: seq<bool>, n: nat)
    requires |usage| == BLOCK_COUNT
    ensures var a := AllocatePagesSpec(usage, n);
      FreePagesSpec(a.usage, a.ptr, n) == usage
  {
    var a := AllocatePagesSpec(usage, n);
    if a.ptr.At? {
      var s := BlockOf(a.ptr.offset);
      var back := SetRange(SetRange(usage, s, n, true), s, n, false);
      assert forall i :: 0 <= i < |usage| ==> back[i] == usage[i];
    }
  }

  /**
   * MemoryPool_FreePages changes only blocks inside the range it was given,
   * and only from used to free.
   */
  lemma FreePagesStaysInRange(usage: seq<bool>, p: Ptr, n: nat, i: nat)
    requires |usage| == BLOCK_COUNT && i < BLOCK_COUNT
    requires FreePagesSpec(usage, p, n)[i] != usage[i]
    ensures p.At? && 0 < n && BlockOf(p.offset) <= i < BlockOf(p.offset) + n
    ensures usage[i] && !FreePagesSpec(usage, p, n)[i]
  {
  }

  /**
   * The uint32 range test of MemoryPool_FreePages wraps: a pointer to block 1
   * with page_count 0xFFFFFFFF passes it, although the range runs far past
   * the table, so the loop that follows writes outside `block_usage`.
   */
  lemma FreePagesGuardWraps(usage: seq<bool>)
    requires |usage| == BLOCK_COUNT
    ensures FreePagesGuardAsWritten(1, UINT32_MODULUS - 1)
    ensures 1 + (UINT32_MODULUS - 1) > BLOCK_COUNT
    ensures FreePagesSpec(usage, At(BLOCK_SIZE), UINT32_MODULUS - 1) == usage
  {
  }
}
