/**
 * The receive side of UART_isr.c: the USART2 interrupt that assembles one
 * `<UCL>...</UCL>` frame per page of MEM_BLOCK_NO pool blocks, checks the
 * parent tag after CHECK_PARENT_TAG bytes, and on the closing tag copies the
 * frame into a fresh page for the main loop and takes the hand-off flag.
 */
module UartIsr {
  import opened Wrappers
  import opened CStrings
  import opened MemoryPool
  import opened Semaphore
  import opened CommandLine

  /** Blocks per receive page. */
  const MEM_BLOCK_NO: nat := 8
  /** The byte count at which the parent tag is checked. */
  const CHECK_PARENT_TAG: nat := 7
  /** `BLOCK_SIZE * MEM_BLOCK_NO`: the bound the interrupt puts on `char_index`. */
  const RAW_CAPACITY: nat := BLOCK_SIZE * MEM_BLOCK_NO

  /**
   * The bytes `memset(buf, 0, sizeof(buf))` clears: the size of a `char *`
   * on the 32-bit target, not the size of the page.
   */
  const POINTER_CLEAR: seq<char> := [NUL, NUL, NUL, NUL]

  /**
   * Everything one interrupt reads and writes: the static `char_index`, the
   * globals `g_uart_xml_raw_buffer`, `g_uart_xml_main_buffer` and
   * `g_semaphore`, and the pool.
   */
  datatype IsrState = IsrState(charIndex: nat, raw: Ptr, main: Ptr, flag: SemaphoreState, usage: seq<bool>, mem: seq<char>)

  predicate WellSized(s: IsrState) {
    |s.usage| == BLOCK_COUNT && |s.mem| == MEMORY_POOL_SIZE
  }

  /** A helper's new state, and whether it asks the interrupt to return at once. */
  datatype Outcome = Outcome(state: IsrState, exit: bool)

  /**
   * start_new_message: takes a fresh page for the raw buffer, clears its
   * first pointer-size bytes, and stores the byte and a terminator at
   * `char_index`.  When no page is free the raw pointer becomes NULL, the
   * index 0, and the interrupt returns.
   */
  function StartNewMessageSpec(s: IsrState, c: char): (r: Outcome)
    requires WellSized(s)
    ensures WellSized(r.state) && r.state.flag == s.flag && r.state.main == s.main
    ensures r.exit <==> AllocatePagesSpec(s.usage, MEM_BLOCK_NO).ptr.Null?
    ensures r.exit ==> r.state == s.(raw := Null, charIndex := 0)
    ensures !r.exit ==> r.state.raw == AllocatePagesSpec(s.usage, MEM_BLOCK_NO).ptr && r.state.charIndex == s.charIndex + 1
  {
    var page := AllocatePagesSpec(s.usage, MEM_BLOCK_NO);
    if page.ptr.At? then
      var cleared := WriteBytes(s.mem, page.ptr.offset, POINTER_CLEAR);
      var stored := WriteBytes(cleared, page.ptr.offset + s.charIndex, [c, NUL]);
      Outcome(s.(raw := page.ptr, usage := page.usage, mem := stored, charIndex := s.charIndex + 1), false)
    else Outcome(s.(raw := Null, charIndex := 0), true)
  }

  /**
   * validate_parent_tag: looks for `<UCL>` in the raw buffer; when it is
   * missing, frees the raw page (if the pointer is not NULL), sets the index
   * to 0 and asks the interrupt to return.  The raw pointer is left as it was.
   */
  function ValidateParentTagSpec(s: IsrState): (r: Outcome)
    requires WellSized(s)
    ensures WellSized(r.state) && r.state.flag == s.flag && r.state.main == s.main && r.state.raw == s.raw
    ensures !r.exit ==> r.state.usage == s.usage && r.state.charIndex == s.charIndex
    ensures r.exit ==> r.state.charIndex == 0 && r.state.usage == FreePagesSpec(s.usage, s.raw, MEM_BLOCK_NO)
  {
    var search := FindTagSpec(s.usage, s.mem, s.raw, Some(XML_PARENT_TAG), OPEN_TAG);
    if search.loc.Null? then
      var usage := if s.raw.At? then FreePagesSpec(search.usage, s.raw, MEM_BLOCK_NO) else search.usage;
      Outcome(s.(usage := usage, mem := search.mem, charIndex := 0), true)
    else Outcome(s.(mem := search.mem), false)
  }

  /**
   * process_complete_message: takes a fresh page for the main buffer (the
   * global becomes NULL when none is free), clears its first pointer-size
   * bytes, copies the raw C string with its terminator into it, and frees
   * the raw page whether or not the copy happened.
   */
  function ProcessCompleteMessageSpec(s: IsrState): (r: IsrState)
    requires WellSized(s) && s.raw.At?
    ensures WellSized(r) && r.flag == s.flag && r.raw == s.raw && r.charIndex == s.charIndex
    ensures r.main == AllocatePagesSpec(s.usage, MEM_BLOCK_NO).ptr
  {
    var page := AllocatePagesSpec(s.usage, MEM_BLOCK_NO);
    var mem :=
      if page.ptr.At? then
        var cleared := WriteBytes(s.mem, page.ptr.offset, POINTER_CLEAR);
        WriteBytes(cleared, page.ptr.offset, CStr(cleared, s.raw.offset) + [NUL])
      else s.mem;
    s.(main := page.ptr, usage := FreePagesSpec(page.usage, s.raw, MEM_BLOCK_NO), mem := mem)
  }

  /** The raw buffer once the byte and its terminator are stored at `char_index`, the index advanced. */
  function StoreByte(s: IsrState, c: char): (r: IsrState)
    requires WellSized(s) && s.raw.At?
    ensures WellSized(r) && r.charIndex == s.charIndex + 1 && r.usage == s.usage
  {
    s.(mem := WriteBytes(s.mem, s.raw.offset + s.charIndex, [c, NUL]), charIndex := s.charIndex + 1)
  }

  /**
   * process_received_char: stores the byte, then looks for `</UCL>` in the
   * raw buffer.  On a match with the flag unlocked it takes the flag and
   * hands the message over; on any match the index goes back to 0.
   */
  function ProcessReceivedCharSpec(s: IsrState, c: char): (r: IsrState)
    requires WellSized(s) && s.raw.At?
    ensures WellSized(r) && r.raw == s.raw
    ensures r.charIndex == 0 || (r.charIndex == s.charIndex + 1 && r.usage == s.usage && r.flag == s.flag && r.main == s.main)
  {
    var stored := StoreByte(s, c);
    var search := FindTagSpec(stored.usage, stored.mem, stored.raw, Some(XML_PARENT_TAG), CLOSE_TAG);
    var searched := stored.(mem := search.mem);
    if search.loc.At? then
      var handed := if searched.flag.SEMAPHORE_UNLOCKED? then ProcessCompleteMessageSpec(searched.(flag := Acquired(searched.flag)))
                    else searched;
      handed.(charIndex := 0)
    else searched
  }

  /** reset_buffer_state: frees the raw page if the pointer is not NULL and sets the index to 0. */
  function ResetBufferStateSpec(s: IsrState): (r: IsrState)
    requires WellSized(s)
    ensures WellSized(r) && r.charIndex == 0
    ensures r == s.(charIndex := 0, usage := r.usage)
  {
    var usage := if s.raw.At? then FreePagesSpec(s.usage, s.raw, MEM_BLOCK_NO) else s.usage;
    s.(usage := usage, charIndex := 0)
  }

  /**
   * One receive interrupt with RXNE set and byte `c`, with `limit` as the
   * bound on `char_index` below which a byte is accepted.
   */
  function IsrStep(s: IsrState, c: char, limit: nat): (r: IsrState)
    requires WellSized(s)
    ensures WellSized(r)
  {
    if s.charIndex == 0 then StartNewMessageSpec(s, c).state
    else if s.charIndex < limit then
      if s.raw.At? then
        if s.charIndex == CHECK_PARENT_TAG then
          var check := ValidateParentTagSpec(s);
          if check.exit then check.state else ProcessReceivedCharSpec(check.state, c)
        else ProcessReceivedCharSpec(s, c)
      else ResetBufferStateSpec(s)
    else ResetBufferStateSpec(s)
  }

  /** USART2_IRQHandler as written: a byte is accepted while `char_index < BLOCK_SIZE * MEM_BLOCK_NO`. */
  function UsartIrqSpec(s: IsrState, c: char): (r: IsrState)
    requires WellSized(s)
    ensures WellSized(r)
  {
    IsrStep(s, c, RAW_CAPACITY)
  }

  /**
   * The interrupt with the bound one lower, so that the terminator stored
   * after the accepted byte always lands inside the raw page.
   */
  function UsartIrqIntended(s: IsrState, c: char): (r: IsrState)
    requires WellSized(s)
    ensures WellSized(r)
  {
    IsrStep(s, c, RAW_CAPACITY - 1)
  }

  /** The interrupt's statics and globals, over the pool and the hand-off flag they live beside. */
  class FrameAssembler {
    const pool: MemoryPool
    const semaphore: BinarySemaphore
    /** The static `char_index` of USART2_IRQHandler. */
    var charIndex: nat
    /** g_uart_xml_raw_buffer */
    var rawBuffer: Ptr
    /** g_uart_xml_main_buffer */
    var mainBuffer: Ptr

    ghost predicate Valid() {
      pool.Valid()
    }

    /** The interrupt's view of the system. */
    ghost function State(): IsrState
      reads this, semaphore, pool.blockUsage, pool.storage
      requires Valid()
    {
      IsrState(charIndex, rawBuffer, mainBuffer, semaphore.state, pool.blockUsage[..], pool.storage[..])
    }

    /** The state at reset: index 0 and both buffer pointers NULL. */
    constructor (pool: MemoryPool, semaphore: BinarySemaphore)
      requires pool.Valid()
      ensures Valid() && this.pool == pool && this.semaphore == semaphore
      ensures charIndex == 0 && rawBuffer == Null && mainBuffer == Null
    {
      this.pool := pool;
      this.semaphore := semaphore;
      charIndex := 0;
      rawBuffer := Null;
      mainBuffer := Null;
    }

    /** start_new_message(MEM_BLOCK_NO, &char_index, c) */
    method StartNewMessage(c: char) returns (exit: bool)
      requires Valid()
      modifies this, pool.blockUsage, pool.storage
      ensures Valid() && Outcome(State(), exit) == StartNewMessageSpec(old(State()), c)
    {
      rawBuffer := pool.AllocatePages(MEM_BLOCK_NO);
      if rawBuffer.At? {
        pool.Write(rawBuffer.offset, POINTER_CLEAR);
        pool.Write(rawBuffer.offset + charIndex, [c, NUL]);
        charIndex := charIndex + 1;
        exit := false;
      } else {
        charIndex := 0;
        exit := true;
      }
    }

    /** validate_parent_tag(MEM_BLOCK_NO, &char_index) */
    method ValidateParentTag() returns (exit: bool)
      requires Valid()
      modifies this, pool.blockUsage, pool.storage
      ensures Valid() && Outcome(State(), exit) == ValidateParentTagSpec(old(State()))
    {
      exit := false;
      var found := FindTagLocation(pool, rawBuffer, Some(XML_PARENT_TAG), OPEN_TAG);
      if found.Null? {
        if rawBuffer.At? {
          pool.FreePages(rawBuffer, MEM_BLOCK_NO);
        }
        charIndex := 0;
        exit := true;
      }
    }

    /** process_complete_message(MEM_BLOCK_NO) */
    method ProcessCompleteMessage()
      requires Valid() && rawBuffer.At?
      modifies this, pool.blockUsage, pool.storage
      ensures Valid() && State() == ProcessCompleteMessageSpec(old(State()))
    {
      mainBuffer := pool.AllocatePages(MEM_BLOCK_NO);
      if mainBuffer.At? {
        pool.Write(mainBuffer.offset, POINTER_CLEAR);
        pool.Write(mainBuffer.offset, CStr(pool.storage[..], rawBuffer.offset) + [NUL]);
      }
      pool.FreePages(rawBuffer, MEM_BLOCK_NO);
    }

    /** process_received_char(c, &char_index, MEM_BLOCK_NO) */
    method ProcessReceivedChar(c: char)
      requires Valid() && rawBuffer.At?
      modifies this, semaphore, pool.blockUsage, pool.storage
      ensures Valid() && State() == ProcessReceivedCharSpec(old(State()), c)
    {
      ghost var before := State();
      pool.Write(rawBuffer.offset + charIndex, [c, NUL]);
      charIndex := charIndex + 1;
      ghost var stored := State();
      assert stored == StoreByte(before, c);
      var found := FindTagLocation(pool, rawBuffer, Some(XML_PARENT_TAG), CLOSE_TAG);
      ghost var search := FindTagSpec(stored.usage, stored.mem, stored.raw, Some(XML_PARENT_TAG), CLOSE_TAG);
      assert found == search.loc && State() == stored.(mem := search.mem);
      if found.At? {
        if semaphore.state == SEMAPHORE_UNLOCKED {
          semaphore.Acquire();
          assert State() == stored.(mem := search.mem, flag := SEMAPHORE_LOCKED);
          ProcessCompleteMessage();
        }
        charIndex := 0;
      }
    }

    /** reset_buffer_state(MEM_BLOCK_NO, &char_index) */
    method ResetBufferState()
      requires Valid()
      modifies this, pool.blockUsage
      ensures Valid() && State() == ResetBufferStateSpec(old(State()))
    {
      if rawBuffer.At? {
        pool.FreePages(rawBuffer, MEM_BLOCK_NO);
      }
      charIndex := 0;
    }

    /** USART2_IRQHandler, entered with RXNE set and `c` in the data register. */
    method UsartIrq(c: char)
      requires Valid()
      modifies this, semaphore, pool.blockUsage, pool.storage
      ensures Valid() && State() == UsartIrqSpec(old(State()), c)
    {
      if charIndex == 0 {
        var exit := StartNewMessage(c);
        if exit {
          return;
        }
      } else if charIndex < BLOCK_SIZE * MEM_BLOCK_NO {
        if rawBuffer.At? {
          if charIndex == CHECK_PARENT_TAG {
            var exit := ValidateParentTag();
            if exit {
              return;
            }
          }
          ProcessReceivedChar(c);
        } else {
          ResetBufferState();
        }
      } else {
        ResetBufferState();
      }
    }
  }
}
