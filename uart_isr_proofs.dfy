/**
 * Properties of the receive interrupt: the invariant it keeps between
 * interrupts, what it does with each byte, the hand-over of a complete
 * frame, the page it loses when the flag is still taken, and the frame it
 * completes by mistake when a page fills up.
 */
module UartIsrProofs {
  import opened Wrappers
  import opened CStrings
  import opened MemoryPool
  import opened Semaphore
  import opened CommandLine
  import opened CommandLineProofs
  import opened UartIsr

  /** `p` is the start of a page of MEM_BLOCK_NO blocks, all marked used. */
  predicate PageHeld(usage: seq<bool>, p: Ptr)
    requires |usage| == BLOCK_COUNT
  {
    && p.At? && p.offset % BLOCK_SIZE == 0 && BlockOf(p.offset) + MEM_BLOCK_NO <= BLOCK_COUNT
    && forall b :: BlockOf(p.offset) <= b < BlockOf(p.offset) + MEM_BLOCK_NO ==> usage[b]
  }

  /** Every byte of a held page lies in the pool, in a block in use. */
  lemma PageByteUsed(usage: seq<bool>, p: Ptr, k: nat)
    requires |usage| == BLOCK_COUNT && PageHeld(usage, p)
    requires p.offset <= k < p.offset + RAW_CAPACITY
    ensures k < MEMORY_POOL_SIZE && usage[BlockOf(k)]
  {
    assert p.offset == BlockOf(p.offset) * BLOCK_SIZE;
  }

  /**
   * The state the interrupt keeps between calls: the index never passes the
   * page size; while a frame is in progress the raw buffer is a page in use;
   * and while the index is below the page size a terminator sits at it.
   * In particular the NULL-buffer branch of the interrupt is never taken.
   */
  predicate Inv(s: IsrState) {
    && WellSized(s) && s.charIndex <= RAW_CAPACITY
    && (s.charIndex > 0 ==> PageHeld(s.usage, s.raw))
    && (0 < s.charIndex < RAW_CAPACITY ==>
          s.raw.offset + s.charIndex < MEMORY_POOL_SIZE && s.mem[s.raw.offset + s.charIndex] == NUL)
  }

  /** While a frame is in progress, the raw C string and its terminator lie in the raw page. */
  lemma RawResident(s: IsrState)
    requires Inv(s) && 0 < s.charIndex < RAW_CAPACITY
    ensures Resident(s.usage, s.mem, s.raw.offset)
    ensures StrLen(s.mem, s.raw.offset) <= s.charIndex
  {
    var p := s.raw.offset;
    StrLenAtMost(s.mem, p, s.charIndex);
    forall k | p <= k <= p + StrLen(s.mem, p)
      ensures s.usage[BlockOf(k)]
    {
      PageByteUsed(s.usage, s.raw, k);
    }
  }

  /**
   * Storing a byte at `char_index` below the last byte of the page and
   * searching for `</UCL>` keeps the page's other bytes, puts the byte and a
   * terminator in place, and leaves the table alone; the search is on the
   * C string the page then holds.
   */
  lemma StoreAndSearch(s: IsrState, c: char)
    requires WellSized(s) && PageHeld(s.usage, s.raw) && s.charIndex + 1 < RAW_CAPACITY
    ensures var t := StoreByte(s, c);
      var search := FindTagSpec(t.usage, t.mem, t.raw, Some(XML_PARENT_TAG), CLOSE_TAG);
      && search.usage == s.usage
      && search.mem[s.raw.offset + s.charIndex] == c
      && search.mem[s.raw.offset + s.charIndex + 1] == NUL
      && (forall k :: s.raw.offset <= k < s.raw.offset + RAW_CAPACITY
            && k != s.raw.offset + s.charIndex && k != s.raw.offset + s.charIndex + 1
            ==> search.mem[k] == s.mem[k])
      && Resident(s.usage, t.mem, s.raw.offset)
      && (search.loc.At? ==> search.loc == Search(t.mem, s.raw.offset, Pattern(XML_PARENT_TAG, CLOSE_TAG)))
      && ((exists j :: 0 <= j < BLOCK_COUNT && !s.usage[j])
            ==> search.loc == Search(t.mem, s.raw.offset, Pattern(XML_PARENT_TAG, CLOSE_TAG)))
  {
    var p, i := s.raw.offset, s.charIndex;
    var t := StoreByte(s, c);
    PageByteUsed(s.usage, s.raw, p + i + 1);
    var t' := t.(charIndex := i + 1);
    assert Inv(t');
    RawResident(t');
    forall k | p <= k < p + RAW_CAPACITY
      ensures FindTagSpec(t.usage, t.mem, t.raw, Some(XML_PARENT_TAG), CLOSE_TAG).mem[k] == t.mem[k]
    {
      PageByteUsed(s.usage, s.raw, k);
      FindTagKeepsUsedBytes(t.usage, t.mem, t.raw, Some(XML_PARENT_TAG), CLOSE_TAG, k);
    }
    FindTagOnResident(t.usage, t.mem, p, XML_PARENT_TAG, CLOSE_TAG);
  }

  /**
   * A successful start_new_message places the raw buffer on the first free
   * page, marks that page used, stores the byte at its start and a
   * terminator after it; memset clears only the bytes up to the size of a
   * pointer, so the rest of the page keeps whatever it held before.
   */
  lemma StartStoresFirstByte(s: IsrState, c: char)
    requires WellSized(s) && s.charIndex == 0
    requires exists t :: RunFree(s.usage, t, MEM_BLOCK_NO)
    ensures var r, b := UsartIrqSpec(s, c), FirstRunFrom(s.usage, MEM_BLOCK_NO, 0).value;
      && r.raw == At(b * BLOCK_SIZE) && r.charIndex == 1
      && r.usage == SetRange(s.usage, b, MEM_BLOCK_NO, true)
      && r.mem[b * BLOCK_SIZE] == c && r.mem[b * BLOCK_SIZE + 1] == NUL
      && r.mem[b * BLOCK_SIZE + 2] == NUL && r.mem[b * BLOCK_SIZE + 3] == NUL
      && (forall k :: 0 <= k < MEMORY_POOL_SIZE && !(b * BLOCK_SIZE <= k < b * BLOCK_SIZE + |POINTER_CLEAR|)
            ==> r.mem[k] == s.mem[k])
      && r.flag == s.flag && r.main == s.main && Inv(r)
  {
    var b := FirstRunFrom(s.usage, MEM_BLOCK_NO, 0).value;
    assert RunFree(s.usage, b, MEM_BLOCK_NO);
  }

  /** When no page is free, the byte is lost and only the raw pointer changes, to NULL. */
  lemma StartFailureDropsByte(s: IsrState, c: char)
    requires WellSized(s) && s.charIndex == 0
    requires forall t :: !RunFree(s.usage, t, MEM_BLOCK_NO)
    ensures UsartIrqSpec(s, c) == s.(raw := Null)
  {
  }

  /** Every interrupt keeps the invariant. */
  lemma UsartIrqPreservesInv(s: IsrState, c: char)
    requires Inv(s)
    ensures Inv(UsartIrqSpec(s, c))
  {
    var r := UsartIrqSpec(s, c);
    if s.charIndex == 0 {
      if exists t :: RunFree(s.usage, t, MEM_BLOCK_NO) {
        StartStoresFirstByte(s, c);
      }
    } else if s.charIndex < RAW_CAPACITY {
      var v := if s.charIndex == CHECK_PARENT_TAG then ValidateParentTagSpec(s) else Outcome(s, false);
      if !v.exit && s.charIndex + 1 < RAW_CAPACITY {
        StoreAndSearch(v.state, c);
      }
    }
  }

  /** The C string the raw page holds once byte `c` and its terminator are stored at `char_index`. */
  function Received(s: IsrState, c: char): string
    requires WellSized(s) && s.raw.At?
  {
    CStr(WriteBytes(s.mem, s.raw.offset + s.charIndex, [c, NUL]), s.raw.offset)
  }

  /** The state process_received_char starts from: after the parent-tag check at CHECK_PARENT_TAG, else unchanged. */
  function Accepting(s: IsrState): IsrState
    requires WellSized(s)
  {
    if s.charIndex == CHECK_PARENT_TAG then ValidateParentTagSpec(s).state else s
  }

  /** The parent-tag check leaves the raw page's bytes alone and, when it passes, the rest of the state too. */
  lemma AcceptingKeepsPage(s: IsrState)
    requires Inv(s) && 0 < s.charIndex < RAW_CAPACITY
    requires s.charIndex == CHECK_PARENT_TAG ==> !ValidateParentTagSpec(s).exit
    ensures var a := Accepting(s);
      && Inv(a) && a == s.(mem := a.mem)
      && forall k :: s.raw.offset <= k < s.raw.offset + RAW_CAPACITY ==> a.mem[k] == s.mem[k]
  {
    var a := Accepting(s);
    assert a == s.(mem := a.mem) && |a.mem| == |s.mem|;
    forall k | s.raw.offset <= k < s.raw.offset + RAW_CAPACITY
      ensures a.mem[k] == s.mem[k]
    {
      PageByteUsed(s.usage, s.raw, k);
      if s.charIndex == CHECK_PARENT_TAG {
        FindTagKeepsUsedBytes(s.usage, s.mem, s.raw, Some(XML_PARENT_TAG), OPEN_TAG, k);
      }
    }
    assert a.mem[s.raw.offset + s.charIndex] == NUL;
  }

  /** Two states whose raw pages agree hold the same received C string. */
  lemma ReceivedFromPage(s: IsrState, a: IsrState, c: char)
    requires Inv(s) && 0 < s.charIndex && s.charIndex + 1 < RAW_CAPACITY
    requires a == s.(mem := a.mem) && |a.mem| == |s.mem|
    requires forall k :: s.raw.offset <= k < s.raw.offset + RAW_CAPACITY ==> a.mem[k] == s.mem[k]
    ensures Received(a, c) == Received(s, c)
  {
    var p := s.raw.offset;
    var ms := WriteBytes(s.mem, p + s.charIndex, [c, NUL]);
    var ma := WriteBytes(a.mem, p + s.charIndex, [c, NUL]);
    PageByteUsed(s.usage, s.raw, p + s.charIndex + 1);
    StrLenAtMost(ms, p, s.charIndex + 1);
    CStrAgree(ms, ma, p);
  }

  /**
   * An accepted byte below the last byte of the page: either the frame goes
   * on, with the byte and a terminator stored and nothing else of the state
   * changed, or `</UCL>` occurs in the received C string and the index goes
   * back to 0.  When a scratch block is free, the index goes back to 0
   * exactly when `</UCL>` occurs.
   */
  lemma ByteAccepted(s: IsrState, c: char)
    requires Inv(s) && 0 < s.charIndex && s.charIndex + 1 < RAW_CAPACITY
    requires s.charIndex == CHECK_PARENT_TAG ==> !ValidateParentTagSpec(s).exit
    ensures var r, p, i := UsartIrqSpec(s, c), s.raw.offset, s.charIndex;
      && (r.charIndex != 0 ==>
            && r.charIndex == i + 1 && r.mem[p + i] == c && r.mem[p + i + 1] == NUL
            && r.usage == s.usage && r.flag == s.flag && r.main == s.main && r.raw == s.raw)
      && (r.charIndex == 0 ==> exists j :: OccursAt(Received(s, c), Pattern(XML_PARENT_TAG, CLOSE_TAG), j))
      && (((exists b :: 0 <= b < BLOCK_COUNT && !s.usage[b])
             && (exists j :: OccursAt(Received(s, c), Pattern(XML_PARENT_TAG, CLOSE_TAG), j)))
            ==> r.charIndex == 0)
  {
    var a := Accepting(s);
    AcceptingKeepsPage(s);
    ReceivedFromPage(s, a, c);
    assert UsartIrqSpec(s, c) == ProcessReceivedCharSpec(a, c);
    StoreAndSearch(a, c);
  }

  /** A C string copied with its terminator reads back as itself. */
  lemma CopyHoldsString(mem: seq<char>, dst: nat, str: string)
    requires dst + |str| < |mem| && NUL !in str
    ensures CStr(WriteBytes(mem, dst, str + [NUL]), dst) == str
  {
    var m := WriteBytes(mem, dst, str + [NUL]);
    StrLenIs(m, dst, |str|);
    assert m[dst..dst + |str|] == str;
  }

  /** A run of free blocks and a held page never overlap. */
  lemma FreeRunMissesPage(usage: seq<bool>, raw: Ptr, mb: nat)
    requires |usage| == BLOCK_COUNT && PageHeld(usage, raw) && RunFree(usage, mb, MEM_BLOCK_NO)
    ensures mb + MEM_BLOCK_NO <= BlockOf(raw.offset) || BlockOf(raw.offset) + MEM_BLOCK_NO <= mb
  {
    var rb := BlockOf(raw.offset);
    var later := if rb <= mb then mb else rb;
    var held := usage[later];
  }

  /**
   * process_complete_message on a held raw page: the main buffer is the first
   * free page and is now in use, and the raw page is free again.
   */
  lemma HandOverUsage(h: IsrState)
    requires WellSized(h) && PageHeld(h.usage, h.raw)
    ensures var r, rb := ProcessCompleteMessageSpec(h), BlockOf(h.raw.offset);
      && r.main == AllocatePagesSpec(h.usage, MEM_BLOCK_NO).ptr
      && (forall b :: rb <= b < rb + MEM_BLOCK_NO ==> !r.usage[b])
      && (r.main.At? ==> PageHeld(r.usage, r.main))
  {
    var page := AllocatePagesSpec(h.usage, MEM_BLOCK_NO);
    if page.ptr.At? {
      FreeRunMissesPage(h.usage, h.raw, BlockOf(page.ptr.offset));
    }
  }

  /**
   * process_complete_message on a held raw page whose C string ends inside
   * it: the main buffer, when one is free, holds that C string.
   */
  lemma HandOverContent(h: IsrState)
    requires WellSized(h) && PageHeld(h.usage, h.raw) && StrLen(h.mem, h.raw.offset) < RAW_CAPACITY
    ensures var r := ProcessCompleteMessageSpec(h);
      r.main.At? ==> CStr(r.mem, r.main.offset) == CStr(h.mem, h.raw.offset)
  {
    var page := AllocatePagesSpec(h.usage, MEM_BLOCK_NO);
    var p := h.raw.offset;
    if page.ptr.At? {
      var mb := BlockOf(page.ptr.offset);
      var main := page.ptr.offset;
      assert main == mb * BLOCK_SIZE;
      FreeRunMissesPage(h.usage, h.raw, mb);
      var cleared := WriteBytes(h.mem, main, POINTER_CLEAR);
      PageByteUsed(h.usage, h.raw, p + StrLen(h.mem, p));
      forall k | p <= k <= p + StrLen(h.mem, p)
        ensures cleared[k] == h.mem[k]
      {
        PageByteUsed(h.usage, h.raw, k);
      }
      CStrAgree(h.mem, cleared, p);
      CopyHoldsString(cleared, main, CStr(h.mem, p));
    }
  }

  /**
   * A frame completed while the flag is free: the flag is taken, the main
   * buffer is the first free page, in use and holding exactly the received
   * C string, and the raw page is free again.
   */
  lemma CompletionHandsOver(s: IsrState, c: char)
    requires Inv(s) && 0 < s.charIndex && s.charIndex + 1 < RAW_CAPACITY
    requires s.charIndex == CHECK_PARENT_TAG ==> !ValidateParentTagSpec(s).exit
    requires s.flag == SEMAPHORE_UNLOCKED && UsartIrqSpec(s, c).charIndex == 0
    ensures var r, rb := UsartIrqSpec(s, c), BlockOf(s.raw.offset);
      && r.flag == SEMAPHORE_LOCKED && r.raw == s.raw
      && r.main == AllocatePagesSpec(s.usage, MEM_BLOCK_NO).ptr
      && (forall b :: rb <= b < rb + MEM_BLOCK_NO ==> !r.usage[b])
      && (r.main.At? ==> PageHeld(r.usage, r.main) && CStr(r.mem, r.main.offset) == Received(s, c))
  {
    var h := CompletionState(s, c);
    HandOverUsage(h);
    HandOverContent(h);
  }

  /**
   * The state process_complete_message starts from when the interrupt
   * completes a frame with the flag free: the raw page still held, the
   * table untouched, the flag taken, and the received C string in the page.
   */
  lemma CompletionState(s: IsrState, c: char) returns (h: IsrState)
    requires Inv(s) && 0 < s.charIndex && s.charIndex + 1 < RAW_CAPACITY
    requires s.charIndex == CHECK_PARENT_TAG ==> !ValidateParentTagSpec(s).exit
    requires s.flag == SEMAPHORE_UNLOCKED && UsartIrqSpec(s, c).charIndex == 0
    ensures WellSized(h) && h.raw == s.raw && h.usage == s.usage && h.flag == SEMAPHORE_LOCKED
    ensures PageHeld(h.usage, h.raw) && StrLen(h.mem, h.raw.offset) < RAW_CAPACITY
    ensures CStr(h.mem, h.raw.offset) == Received(s, c)
    ensures UsartIrqSpec(s, c) == ProcessCompleteMessageSpec(h).(charIndex := 0)
  {
    var a := Accepting(s);
    AcceptingKeepsPage(s);
    ReceivedFromPage(s, a, c);
    CompletionPath(s, a, c);
    SearchKeepsReceived(a, c);
    var t := StoreByte(a, c);
    var search := FindTagSpec(t.usage, t.mem, t.raw, Some(XML_PARENT_TAG), CLOSE_TAG);
    h := t.(mem := search.mem, flag := SEMAPHORE_LOCKED);
  }

  /** The search for `</UCL>` after a byte is stored keeps the table and the page's C string, which ends in the page. */
  lemma SearchKeepsReceived(a: IsrState, c: char)
    requires WellSized(a) && PageHeld(a.usage, a.raw) && a.charIndex + 1 < RAW_CAPACITY
    ensures var t := StoreByte(a, c);
      var search := FindTagSpec(t.usage, t.mem, t.raw, Some(XML_PARENT_TAG), CLOSE_TAG);
      && search.usage == a.usage
      && StrLen(search.mem, a.raw.offset) <= a.charIndex + 1
      && CStr(search.mem, a.raw.offset) == Received(a, c)
  {
    var p, i := a.raw.offset, a.charIndex;
    var t := StoreByte(a, c);
    var search := FindTagSpec(t.usage, t.mem, t.raw, Some(XML_PARENT_TAG), CLOSE_TAG);
    PageByteUsed(a.usage, a.raw, p + i + 1);
    assert t.mem[p + i + 1] == NUL;
    StrLenAtMost(t.mem, p, i + 1);
    forall k | p <= k <= p + StrLen(t.mem, p)
      ensures search.mem[k] == t.mem[k]
    {
      PageByteUsed(a.usage, a.raw, k);
      FindTagKeepsUsedBytes(t.usage, t.mem, t.raw, Some(XML_PARENT_TAG), CLOSE_TAG, k);
    }
    CStrAgree(t.mem, search.mem, p);
    StrLenAtMost(search.mem, p, i + 1);
  }

  /** The interrupt's path through process_received_char into process_complete_message. */
  lemma CompletionPath(s: IsrState, a: IsrState, c: char)
    requires Inv(s) && 0 < s.charIndex && s.charIndex + 1 < RAW_CAPACITY
    requires s.charIndex == CHECK_PARENT_TAG ==> !ValidateParentTagSpec(s).exit
    requires s.flag == SEMAPHORE_UNLOCKED && UsartIrqSpec(s, c).charIndex == 0
    requires a == Accepting(s) && a == s.(mem := a.mem) && WellSized(a)
    ensures var t := StoreByte(a, c);
      var search := FindTagSpec(t.usage, t.mem, t.raw, Some(XML_PARENT_TAG), CLOSE_TAG);
      UsartIrqSpec(s, c) == ProcessCompleteMessageSpec(t.(mem := search.mem, flag := SEMAPHORE_LOCKED)).(charIndex := 0)
  {
    assert UsartIrqSpec(s, c) == ProcessReceivedCharSpec(a, c);
  }

  /**
   * A frame completed while the flag is already taken: the byte is consumed
   * and the index goes back to 0, but the raw page is neither handed over
   * nor freed; the raw pointer, the main buffer and the table stay as they
   * were.
   */
  lemma LockedCompletionKeepsRawPage(s: IsrState, c: char)
    requires Inv(s) && 0 < s.charIndex && s.charIndex + 1 < RAW_CAPACITY
    requires s.charIndex == CHECK_PARENT_TAG ==> !ValidateParentTagSpec(s).exit
    requires s.flag == SEMAPHORE_LOCKED && UsartIrqSpec(s, c).charIndex == 0
    ensures var r := UsartIrqSpec(s, c);
      && r.flag == SEMAPHORE_LOCKED && r.raw == s.raw && r.main == s.main
      && r.usage == s.usage && PageHeld(r.usage, r.raw)
  {
    var a := Accepting(s);
    AcceptingKeepsPage(s);
    assert UsartIrqSpec(s, c) == ProcessReceivedCharSpec(a, c);
    StoreAndSearch(a, c);
  }

  /**
   * With the index at 0 and the raw page still held, the next byte starts a
   * frame elsewhere: the raw pointer moves off the page (or becomes NULL)
   * and the page stays marked used, with nothing left pointing at it.
   */
  lemma HeldPageIsOrphaned(s: IsrState, c: char)
    requires WellSized(s) && s.charIndex == 0 && PageHeld(s.usage, s.raw) && s.main != s.raw
    ensures var r := UsartIrqSpec(s, c);
      && r.raw != s.raw && r.main == s.main && r.main != s.raw
      && PageHeld(r.usage, s.raw)
  {
    var page := AllocatePagesSpec(s.usage, MEM_BLOCK_NO);
    if page.ptr.At? {
      FreeRunMissesPage(s.usage, s.raw, BlockOf(page.ptr.offset));
    }
  }

  /**
   * A byte arriving with the index at BLOCK_SIZE * MEM_BLOCK_NO drops the
   * frame: the byte is lost, the raw page's blocks are freed, the index
   * goes back to 0, and the raw pointer still names the freed page.
   */
  lemma OverflowDropsFrame(s: IsrState, c: char)
    requires Inv(s) && s.charIndex == RAW_CAPACITY
    ensures var r, rb := UsartIrqSpec(s, c), BlockOf(s.raw.offset);
      && r == s.(charIndex := 0, usage := SetRange(s.usage, rb, MEM_BLOCK_NO, false))
      && forall b :: rb <= b < rb + MEM_BLOCK_NO ==> !r.usage[b]
  {
  }

  /**
   * validate_parent_tag at CHECK_PARENT_TAG: the frame is dropped exactly
   * when `<UCL>` is missing from the raw C string or no scratch block is free
   * for the search; a dropped frame has its page freed, the index at 0 and
   * the raw pointer left on the freed page.
   */
  lemma ParentCheckDecides(s: IsrState)
    requires Inv(s) && s.charIndex == CHECK_PARENT_TAG
    ensures var v, rb := ValidateParentTagSpec(s), BlockOf(s.raw.offset);
      && (v.exit <==>
            ((forall j :: 0 <= j < BLOCK_COUNT ==> s.usage[j])
             || forall j :: !OccursAt(CStr(s.mem, s.raw.offset), Pattern(XML_PARENT_TAG, OPEN_TAG), j)))
      && (v.exit ==> v.state == s.(charIndex := 0, usage := SetRange(s.usage, rb, MEM_BLOCK_NO, false), mem := v.state.mem))
  {
    RawResident(s);
    FindTagOnResident(s.usage, s.mem, s.raw.offset, XML_PARENT_TAG, OPEN_TAG);
  }

  /**
   * A raw page at block 0 holding a 255-byte frame: `<UCL>` followed by `x`
   * up to byte 254, then its terminator at byte 255.  Its first seven bytes
   * hold `<UCL>`, so the frame passes the parent-tag check at
   * CHECK_PARENT_TAG.  The pages from block 8 on are free and so is the flag.
   */
  function FullPage(): (s: IsrState)
    ensures Inv(s) && s.charIndex == RAW_CAPACITY - 1 && s.flag == SEMAPHORE_UNLOCKED
    ensures s.raw == At(0) && OccursAt(s.mem[0..CHECK_PARENT_TAG], Pattern(XML_PARENT_TAG, OPEN_TAG), 0)
  {
    var open := Pattern(XML_PARENT_TAG, OPEN_TAG);
    var s := IsrState(RAW_CAPACITY - 1, At(0), Null, SEMAPHORE_UNLOCKED,
                      seq(BLOCK_COUNT, b => b < MEM_BLOCK_NO),
                      seq(MEMORY_POOL_SIZE, k => if 0 <= k < |open| then open[k] else if k == RAW_CAPACITY - 1 then NUL else 'x'));
    assert PageHeld(s.usage, s.raw);
    assert s.mem[0..CHECK_PARENT_TAG][0..|open|] == open;
    s
  }

  /** The 256 received bytes of FullPage followed by `x` hold no `</UCL>`: none of them is `/`. */
  lemma FullPageHoldsNoCloseTag()
    ensures forall j :: !OccursAt(Received(FullPage(), 'x'), Pattern(XML_PARENT_TAG, CLOSE_TAG), j)
  {
    var s := FullPage();
    var m := WriteBytes(s.mem, RAW_CAPACITY - 1, ['x', NUL]);
    StrLenIs(m, 0, RAW_CAPACITY);
    var h := Received(s, 'x');
    var pat := Pattern(XML_PARENT_TAG, CLOSE_TAG);
    assert h == m[0..RAW_CAPACITY];
    forall j: nat ensures !OccursAt(h, pat, j) {
      if j + |pat| <= |h| {
        assert h[j + 1] == m[j + 1] != '/';
        assert h[j..j + |pat|][1] != pat[1];
      }
    }
  }

  /**
   * On FullPage the terminator stored after byte 255 is the first byte of
   * the next block, which find_tag_location takes as its scratch block and
   * overwrites with `</UCL>`: the raw C string then runs on into the marker
   * and the search finds it.
   */
  lemma FullPageSearchHits()
    ensures var t := StoreByte(FullPage(), 'x');
      FindTagSpec(t.usage, t.mem, t.raw, Some(XML_PARENT_TAG), CLOSE_TAG).loc.At?
  {
    var t := StoreByte(FullPage(), 'x');
    var pat := Pattern(XML_PARENT_TAG, CLOSE_TAG);
    var scratch := AllocateSpec(t.usage);
    assert !t.usage[MEM_BLOCK_NO] && forall j :: 0 <= j < MEM_BLOCK_NO ==> t.usage[j];
    assert scratch.ptr == At(RAW_CAPACITY);
    var m := WriteBytes(t.mem, RAW_CAPACITY, pat + [NUL]);
    StrLenIs(m, 0, RAW_CAPACITY + |pat|);
    var h := CStr(m, 0);
    assert h == m[0..RAW_CAPACITY + |pat|];
    forall i | 0 <= i < |pat|
      ensures h[RAW_CAPACITY + i] == pat[i]
    {
      assert m[RAW_CAPACITY + i] == (pat + [NUL])[i];
    }
    assert h[RAW_CAPACITY..RAW_CAPACITY + |pat|] == pat;
    assert OccursAt(h, pat, RAW_CAPACITY);
  }

  /**
   * USART2_IRQHandler as written takes the flag and hands a frame over from
   * FullPage although the received bytes hold no `</UCL>`; with the bound
   * one lower the same byte drops the frame and leaves the flag free.
   */
  lemma FullPageFalselyCompletes()
    ensures var s := FullPage();
      && (forall j :: !OccursAt(Received(s, 'x'), Pattern(XML_PARENT_TAG, CLOSE_TAG), j))
      && UsartIrqSpec(s, 'x').flag == SEMAPHORE_LOCKED
      && UsartIrqSpec(s, 'x').charIndex == 0
      && UsartIrqIntended(s, 'x').flag == SEMAPHORE_UNLOCKED
  {
    FullPageHoldsNoCloseTag();
    FullPageSearchHits();
  }

  /**
   * With the intended bound, the interrupt takes the flag only on a byte
   * stored inside the raw page that completes a `</UCL>` in the received
   * C string, and the main buffer then holds that C string.
   */
  lemma IntendedCompletionNeedsCloseTag(s: IsrState, c: char)
    requires Inv(s) && 0 < s.charIndex && s.flag == SEMAPHORE_UNLOCKED
    requires UsartIrqIntended(s, c).flag == SEMAPHORE_LOCKED
    ensures s.charIndex + 1 < RAW_CAPACITY
    ensures exists j :: OccursAt(Received(s, c), Pattern(XML_PARENT_TAG, CLOSE_TAG), j)
    ensures var r := UsartIrqIntended(s, c);
      r.main.At? ==> CStr(r.mem, r.main.offset) == Received(s, c)
  {
    assert s.charIndex + 1 < RAW_CAPACITY;
    assert UsartIrqIntended(s, c) == UsartIrqSpec(s, c);
    assert s.charIndex == CHECK_PARENT_TAG ==> !ValidateParentTagSpec(s).exit;
    ByteAccepted(s, c);
    CompletionHandsOver(s, c);
  }
}
