# Interactive UART command line: a Dafny model

This project models the firmware core of the Interactive_Command_Line
repository: an STM32 device that takes XML-framed commands such as
`<UCL><CMD>LightOn</CMD><PARAM>42</PARAM></UCL>` over USART2, one byte per
receive interrupt. The core has four layers, and each has its own module.

- `MemoryPool` (`memory_pool.dfy`) is the fixed-block pool of
  `memory_utility.c`. It is a class over the byte arena `memPool.pool` and the
  occupancy table `memPool.block_usage`. It offers first-fit single-block
  allocation, first-fit allocation of runs of contiguous blocks ("pages"), and
  bounds-checked release.
- `Semaphore` (`semaphore.dfy`) is the hand-off flag `g_semaphore` with
  `acquire_semaphore` and `release_semaphore`.
- `CommandLine` (`command_line.dfy`) is the parser and dispatcher of
  `UART-Command-Line.c`. It covers `find_tag_location` (a `<tag>`/`</tag>`
  marker formatted into a scratch pool block, then `strstr`),
  `extract_value_from_xml`, `find_command_in_list` over the sentinel-terminated
  `g_cmd_list`, `extract_command_and_params_from_xml`,
  `execute_callback_functions`, and the two handlers.
- `UartIsr` (`uart_isr.dfy`) is the frame assembler of `UART_isr.c`. The class
  `FrameAssembler` holds the static `char_index`, the globals
  `g_uart_xml_raw_buffer` and `g_uart_xml_main_buffer`, the flag and the pool.
  Its method `UsartIrq(c)` is one receive interrupt with byte `c`.

The shared modules are `Wrappers` (an `Option` type) and `CStrings`
(`cstrings.dfy`). `CStrings` gives the C view of memory: `strlen`, the C string
at an offset, `strstr`, and a store of bytes.

Every method that changes state is proved against a value-level specification
function. For example, `ensures State() == UsartIrqSpec(old(State()), c)`, or
`ensures Allocation(p, blockUsage[..]) == AllocatePagesSpec(old(blockUsage[..]), n)`.
The properties the firmware promises, and the defects it has, are lemmas about
those functions. They live in `memory_pool_proofs.dfy`,
`command_line_proofs.dfy` and `uart_isr_proofs.dfy`.

Pointers are offsets into the pool (`Ptr = Null | At(offset)`). Bytes are
`char`s. The pool holds BLOCK_COUNT = 32 blocks of BLOCK_SIZE = 32 bytes, so
it is 1024 bytes in all, which matches `MAX_MEMORY_SIZE`. The definitions of
BLOCK_SIZE and BLOCK_COUNT are not part of this model's source files.

Some behaviour of the code departs from what its own comments say. The model
follows the code in each case:

- **Busy consumer.** The comment at `UART_isr.c:116` says the semaphore is
  checked before processing. A frame that completes while the flag is LOCKED
  is neither copied nor freed (`LockedCompletionKeepsRawPage`). The next frame
  allocates a new page. The old page stays marked, and neither buffer pointer
  names it (`HeldPageIsOrphaned`).
- **Acquire reports nothing.** The comments at `semaphore.c:10-12` say that
  acquire prints whether it took the flag or is waiting. `acquire_semaphore`
  prints nothing and returns nothing.
- **Parent-tag check.** The check at `UART_isr.c:69-70` accepts `<UCL>`
  anywhere in the received C string (`ParentCheckDecides`), and it runs only
  at index 7. A `</UCL>` that arrives before index 7 ends the frame before the
  check runs (`ByteAccepted`). The frame is then handed over unchecked
  (`CompletionHandsOver`).
- **Extraction order.** The comments at `UART-Command-Line.c:211-217` describe
  a value that starts after the opening tag. The code takes its start from the
  closing marker, so a well-formed field is rejected
  (`FieldOpeningFirstIsBadXml`, `NoHandlerEverRuns`).

Writes past the end of the pool are dropped, where C would write past the
array. Reads stop at the end of the pool, where C would read on.
The `memset(p, 0, sizeof p)` calls clear the first four bytes of a page, as
the size of a pointer on the 32-bit target.

## Model

| member | source | states |
|---|---|---|
| MemoryPool.AllocateSpec | Command_Line_App/memory_utility/memory_utility.c:78-94 | NULL exactly when every block is in use, with the table unchanged; otherwise the offset of the lowest free block, and that block alone is marked |
| MemoryPool.AllocatePagesSpec | Command_Line_App/memory_utility/memory_utility.c:122-160 | NULL exactly when `n == 0`, `n > BLOCK_COUNT` or no run of `n` free blocks exists, with the table unchanged; otherwise the start of the lowest free run, with exactly that run marked |
| MemoryPool.MemoryPool.constructor | Command_Line_App/memory_utility/memory_utility.c:55 | the static pool starts with every byte zero and every block free |
| MemoryPool.MemoryPool.Init | Command_Line_App/memory_utility/memory_utility.c:65-72 | every byte is cleared and every block is free |
| MemoryPool.MemoryPool.Allocate | Command_Line_App/memory_utility/memory_utility.c:78-94 | the result and the new table are those of AllocateSpec on the old table |
| MemoryPool.MemoryPool.Free | Command_Line_App/memory_utility/memory_utility.c:100-115 | clears the pointer's block when the pointer is non-NULL and its index is in range; otherwise nothing changes |
| MemoryPool.MemoryPool.AllocatePages | Command_Line_App/memory_utility/memory_utility.c:122-160 | the result and the new table are those of AllocatePagesSpec; a run is checked in full before any block of it is marked |
| MemoryPool.MemoryPool.FreePages | Command_Line_App/memory_utility/memory_utility.c:167-187 | clears blocks `[start, start + n)` when the pointer is non-NULL, `n > 0` and the range fits; otherwise nothing changes |
| MemoryPool.MemoryPool.GetFreeBlocks | Command_Line_App/memory_utility/memory_utility.c:193-206 | returns the number of free blocks in the table |
| MemoryPool.MemoryPool.Write | HAL/HAL_ISR/UART_isr.c:30-36 | a store of bytes through a pool pointer changes exactly those bytes |
| MemoryPoolProofs.AllFreeCount | Command_Line_App/memory_utility/memory_utility.c:193-206 | with every block free, as after MemoryPool_Init, the free count is BLOCK_COUNT |
| MemoryPoolProofs.NoFreeCountIffAllUsed | Command_Line_App/memory_utility/memory_utility.c:193-206 | the free count is 0 exactly when every block is in use |
| MemoryPoolProofs.MarkBlockCount | Command_Line_App/memory_utility/memory_utility.c:83-91 | marking one free block lowers the free count by exactly one |
| MemoryPoolProofs.MarkRunCount | Command_Line_App/memory_utility/memory_utility.c:147-155 | marking a free run of `n` blocks lowers the free count by exactly `n` |
| MemoryPoolProofs.AllocateUsesOneBlock | Command_Line_App/memory_utility/memory_utility.c:78-94 | MemoryPool_Allocate succeeds exactly when the free count is positive, and success uses one block |
| MemoryPoolProofs.AllocatePagesUsesNBlocks | Command_Line_App/memory_utility/memory_utility.c:122-160 | a successful MemoryPool_AllocatePages(n) uses exactly `n` blocks |
| MemoryPoolProofs.AllocateThenFreeRestores | Command_Line_App/memory_utility/memory_utility.c:100-115 | MemoryPool_Allocate then MemoryPool_Free of its result restores the table exactly |
| MemoryPoolProofs.AllocatePagesThenFreePagesRestores | Command_Line_App/memory_utility/memory_utility.c:167-187 | MemoryPool_AllocatePages(n) then MemoryPool_FreePages(p, n) restores the table exactly |
| MemoryPoolProofs.FreePagesStaysInRange | Command_Line_App/memory_utility/memory_utility.c:167-187 | every entry MemoryPool_FreePages changes lies in the range it was given, and goes from used to free |
| MemoryPoolProofs.FreePagesGuardWraps | Command_Line_App/memory_utility/memory_utility.c:176 | the uint32 range test accepts start block 1 with page_count 0xFFFFFFFF, a range far beyond the table |
| Semaphore.Encoding | Command_Line_App/semaphore/semaphore.h:7-11 | the enum's values: UNLOCKED is 0, LOCKED is 1, and there are no others |
| Semaphore.Acquired | Command_Line_App/semaphore/semaphore.c:17-24 | the state after acquire is LOCKED, and a LOCKED flag is left as it is |
| Semaphore.Released | Command_Line_App/semaphore/semaphore.c:34-41 | the state after release is UNLOCKED, and an UNLOCKED flag is left as it is |
| Semaphore.BinarySemaphore.constructor | Command_Line_App/semaphore/semaphore.c:5 | `g_semaphore` starts UNLOCKED |
| Semaphore.BinarySemaphore.Acquire | Command_Line_App/semaphore/semaphore.c:17-24 | the flag is LOCKED afterwards whatever it was before, and nothing is reported |
| Semaphore.BinarySemaphore.Release | Command_Line_App/semaphore/semaphore.c:34-41 | the flag is UNLOCKED afterwards whatever it was before |
| Semaphore.HandOffRoundTrip | Command_Line_App/semaphore/semaphore.c:17-41 | both operations are idempotent, and release after acquire from UNLOCKED gives UNLOCKED again |
| CStrings.StrLen | HAL/HAL_ISR/UART_isr.c:166 | `strlen`: the bytes before the result are non-NUL, and the byte at the result is NUL when it lies in memory |
| CStrings.StrStr | Command_Line_App/UART_command_line/UART-Command-Line.c:176 | `strstr`: a hit exactly when the pattern occurs, and then at its first occurrence |
| CommandLine.Pattern | Command_Line_App/UART_command_line/UART-Command-Line.c:165-173 | the marker `<tag>` or `</tag>`: its length, its delimiters, and no NUL inside |
| CommandLine.Search | Command_Line_App/UART_command_line/UART-Command-Line.c:176 | the first occurrence of the marker in the C string at `xml`, or NULL when there is none |
| CommandLine.FindTagSpec | Command_Line_App/UART_command_line/UART-Command-Line.c:144-182 | NULL with the pool untouched for a NULL argument, a kind above 1, or no free block; with valid arguments and a free block, the first occurrence of the marker in the C string read after the marker was written; the table is restored in every case |
| CommandLine.FindTagLocation | Command_Line_App/UART_command_line/UART-Command-Line.c:144-182 | the result and the new pool are those of FindTagSpec |
| CommandLine.SpanAsWritten | Command_Line_App/UART_command_line/UART-Command-Line.c:211-237 | a span exactly when both markers are found, the opening hit lies after the closing hit, and the size_t difference is below `value_size`; the span starts after the closing marker |
| CommandLine.SpanIntended | Command_Line_App/UART_command_line/UART-Command-Line.c:211-219 | the span as the comments describe it: from just after `<tag>` up to `</tag>`, shorter than `value_size` |
| CommandLine.ExtractValueSpec | Command_Line_App/UART_command_line/UART-Command-Line.c:193-240 | INVALID_OPERATION exactly for a NULL argument or `value_size == 0`, with nothing written; otherwise XML_OK, storing at most `value_size` bytes of which the last is NUL, or BAD_XML, storing nothing; the table is unchanged |
| CommandLine.StrNCopy | Command_Line_App/UART_command_line/UART-Command-Line.c:229 | `strncpy`: the first `len` bytes become the C string's bytes, padded with NUL; the rest of the buffer is unchanged |
| CommandLine.ExtractValueFromXml | Command_Line_App/UART_command_line/UART-Command-Line.c:193-240 | the status, the pool and the caller's buffer are those of ExtractValueSpec, and the buffer keeps its bytes past the stored value |
| CommandLine.CommandIndex | Command_Line_App/UART_command_line/UART-Command-Line.c:253-288 | INVALID_OPERATION exactly for NULL; otherwise the first entry naming `cmd`, or NO_COMMAND_FOUND exactly when no entry does; never the sentinel index 2 |
| CommandLine.FindCommandInList | Command_Line_App/UART_command_line/UART-Command-Line.c:253-288 | the scan up to the sentinel returns CommandIndex |
| CommandLine.ExtractCommandSpec | Command_Line_App/UART_command_line/UART-Command-Line.c:303-351 | the callback index is always one of 0, 1, NO_COMMAND_FOUND, INVALID_OPERATION or BAD_XML, and it is INVALID_OPERATION exactly for NULL input; a failed CMD extraction's status becomes the index; after a successful one, `cmd` is the extracted C string; an extracted name in no entry gives NO_COMMAND_FOUND; a name in an entry continues with the PARAM step for that entry's index; an index below 3 names the extracted command |
| CommandLine.ParamSpec | Command_Line_App/UART_command_line/UART-Command-Line.c:326-336 | the PARAM step keeps the command; the index is kept exactly when PARAM extraction succeeds, and `param` is then the extracted C string; otherwise the index becomes BAD_XML and `param` stays empty |
| CommandLine.ExtractParam | Command_Line_App/UART_command_line/UART-Command-Line.c:326-336 | the result and the pool are those of ParamSpec |
| CommandLine.ExtractCommandAndParams | Command_Line_App/UART_command_line/UART-Command-Line.c:303-351 | the result and the pool are those of ExtractCommandSpec |
| CommandLine.LogCommand | Command_Line_App/UART_command_line/UART-Command-Line.c:69-94 | ERROR with the null-pointer message for a NULL argument; otherwise SUCCESS after writing the banner, the command and "Command received and processed." |
| CommandLine.SetLedValue | Command_Line_App/UART_command_line/UART-Command-Line.c:69-94 | SUCCESS exactly for a non-NULL argument, and the first text written is "First Command" or the null-pointer message |
| CommandLine.GetHeaterValue | Command_Line_App/UART_command_line/UART-Command-Line.c:108-134 | SUCCESS exactly for a non-NULL argument, and the first text written is "Second Command" or the null-pointer message |
| CommandLine.ExecuteCallbackFunctions | Command_Line_App/UART_command_line/UART-Command-Line.c:364-430 | NULL gives "Invalid operation"; indices 0 and 1 call exactly their handler; index 2 calls through the NULL sentinel; 0xFB, 0xFC and 0xFD give their messages; 0xFE, and only 0xFE, selects the NULL message; every other index gives "Invalid operation" |
| CommandLine.MessageAtIntended | Command_Line_App/UART_command_line/UART-Command-Line.c:36-42 | a message lookup bounded to the three real messages never yields NULL |
| CommandLine.ExecuteCallbackFunctionsIntended | Command_Line_App/UART_command_line/UART-Command-Line.c:394-410 | the dispatcher with that bounded lookup never reports the NULL message; it agrees with execute_callback_functions on every index except 0xFE, which reports "Invalid operation" |
| CommandLineProofs.ScratchWriteKeepsString | Command_Line_App/UART_command_line/UART-Command-Line.c:158-172 | formatting the marker into a free block leaves a C string held in used blocks unchanged |
| CommandLineProofs.FindTagKeepsUsedBytes | Command_Line_App/UART_command_line/UART-Command-Line.c:158-179 | find_tag_location changes no byte of a block in use |
| CommandLineProofs.FindTagOnResident | Command_Line_App/UART_command_line/UART-Command-Line.c:144-182 | on a C string held in used blocks, find_tag_location keeps the string and reports its first occurrence whenever a scratch block is free |
| CommandLineProofs.ExtractKeepsFrame | Command_Line_App/UART_command_line/UART-Command-Line.c:193-240 | on a frame held in used blocks, with valid arguments, the frame is kept and the status is XML_OK or BAD_XML |
| CommandLineProofs.ExtractOkHits | Command_Line_App/UART_command_line/UART-Command-Line.c:211-215 | on XML_OK both searches hit their first occurrences, and the opening marker's hit lies after the closing marker's |
| CommandLineProofs.ExtractOkOnResident | Command_Line_App/UART_command_line/UART-Command-Line.c:211-232 | XML_OK means `</tag>` occurs in the frame before `<tag>`, and the stored value starts with the `>` of `</tag>` |
| CommandLineProofs.ExtractOkWritten | Command_Line_App/UART_command_line/UART-Command-Line.c:217-230 | the value stored on XML_OK has at least one byte before its NUL, and that byte is `>` |
| CommandLineProofs.SpanStartsAtCloseMarker | Command_Line_App/UART_command_line/UART-Command-Line.c:217-229 | the span as written is never empty and its first copied byte is the `>` of the closing marker |
| CommandLineProofs.FieldOpeningFirstIsBadXml | Command_Line_App/UART_command_line/UART-Command-Line.c:211-215 | a frame that begins with `<tag>`, as every well-formed field does, gives BAD_XML |
| CommandLineProofs.MarkerStartIsNoCommand | Command_Line_App/UART_command_line/UART-Command-Line.c:253-288 | a name starting with `>` matches no entry of g_cmd_list |
| CommandLineProofs.ResidentCommandNeverResolves | Command_Line_App/UART_command_line/UART-Command-Line.c:317-326 | on a frame held in used blocks, the command never resolves: the index is NO_COMMAND_FOUND or BAD_XML |
| CommandLineProofs.NoHandlerEverRuns | Command_Line_App/UART_command_line/UART-Command-Line.c:387-392 | dispatching the parse of such a frame never calls a handler |
| CommandLineProofs.ParserAvoidsSentinels | Command_Line_App/UART_command_line/UART-Command-Line.c:364-430 | dispatching any parse result never calls through the NULL sentinel and never selects the NULL message |
| CommandLineProofs.FieldHits | Command_Line_App/UART_command_line/UART-Command-Line.c:211-212 | in `<t>v</t>` the first `<t>` is at 0, the first `</t>` is right after `v`, and the bytes between them are `v` |
| CommandLineProofs.IntendedExtractRoundTrip | Command_Line_App/UART_command_line/UART-Command-Line.c:211-219 | for `<t>v</t>` the intended span is exactly `v`, while the span as written rejects the field |
| UartIsr.StartNewMessageSpec | HAL/HAL_ISR/UART_isr.c:13-47 | the interrupt exits exactly when no page is free, and then the raw pointer is NULL and the index 0; otherwise the raw buffer is the new page and the index advances |
| UartIsr.ValidateParentTagSpec | HAL/HAL_ISR/UART_isr.c:58-85 | keeps the raw pointer; a pass changes neither the table nor the index; a failure frees the page and sets the index to 0 |
| UartIsr.ProcessCompleteMessageSpec | HAL/HAL_ISR/UART_isr.c:146-178 | the main buffer is the result of a fresh page allocation; the raw pointer, the flag and the index are kept |
| UartIsr.StoreByte | HAL/HAL_ISR/UART_isr.c:107-111 | the index advances by one and the table is unchanged |
| UartIsr.ProcessReceivedCharSpec | HAL/HAL_ISR/UART_isr.c:96-136 | either the index returns to 0, or it advances by one with the table, the flag and the main buffer unchanged |
| UartIsr.ResetBufferStateSpec | HAL/HAL_ISR/UART_isr.c:188-214 | only the table and the index change, and the index becomes 0 |
| UartIsr.FrameAssembler.constructor | HAL/HAL_ISR/UART_isr.c:228 | the index starts at 0 and both buffer pointers start NULL |
| UartIsr.FrameAssembler.StartNewMessage | HAL/HAL_ISR/UART_isr.c:13-47 | the new state and the exit flag are those of StartNewMessageSpec |
| UartIsr.FrameAssembler.ValidateParentTag | HAL/HAL_ISR/UART_isr.c:58-85 | the new state and the exit flag are those of ValidateParentTagSpec |
| UartIsr.FrameAssembler.ProcessCompleteMessage | HAL/HAL_ISR/UART_isr.c:146-178 | the new state is that of ProcessCompleteMessageSpec |
| UartIsr.FrameAssembler.ProcessReceivedChar | HAL/HAL_ISR/UART_isr.c:96-136 | the new state is that of ProcessReceivedCharSpec |
| UartIsr.FrameAssembler.ResetBufferState | HAL/HAL_ISR/UART_isr.c:188-214 | the new state is that of ResetBufferStateSpec |
| UartIsr.FrameAssembler.UsartIrq | HAL/HAL_ISR/UART_isr.c:226-273 | the new state is that of UsartIrqSpec, one interrupt with the received byte |
| UartIsrProofs.RawResident | HAL/HAL_ISR/UART_isr.c:107-114 | while a frame is in progress, the raw C string and its NUL lie in the raw page, and the string is no longer than the index |
| UartIsrProofs.StoreAndSearch | HAL/HAL_ISR/UART_isr.c:107-114 | storing a byte puts it and a NUL at the index, keeps the rest of the page, and the `</UCL>` search is the search of the page's C string |
| UartIsrProofs.StartStoresFirstByte | HAL/HAL_ISR/UART_isr.c:25-36 | a new frame takes the first free page and marks exactly it; the byte goes to offset 0 and NUL to offset 1; only the first four bytes of the page are cleared |
| UartIsrProofs.StartFailureDropsByte | HAL/HAL_ISR/UART_isr.c:38-43 | with no free page the byte is lost, and only the raw pointer changes, to NULL |
| UartIsrProofs.UsartIrqPreservesInv | HAL/HAL_ISR/UART_isr.c:226-273 | every interrupt keeps the invariant: the index is at most BLOCK_SIZE*8, a frame in progress holds its page, and a NUL follows the stored bytes |
| UartIsrProofs.AcceptingKeepsPage | HAL/HAL_ISR/UART_isr.c:250-256 | a passed parent-tag check changes no byte of the raw page and nothing else of the state |
| UartIsrProofs.ByteAccepted | HAL/HAL_ISR/UART_isr.c:107-128 | an accepted byte either continues the frame, stored and NUL-terminated with nothing else changed, or resets the index because `</UCL>` occurs in the received string; with a free scratch block, the reset happens exactly when `</UCL>` occurs |
| UartIsrProofs.CopyHoldsString | HAL/HAL_ISR/UART_isr.c:166 | copying `strlen + 1` bytes copies the C string |
| UartIsrProofs.HandOverUsage | HAL/HAL_ISR/UART_isr.c:157-170 | on completion the main buffer is the first free page and is marked used, and the raw page's blocks are freed |
| UartIsrProofs.HandOverContent | HAL/HAL_ISR/UART_isr.c:160-167 | on completion the main buffer holds the raw C string |
| UartIsrProofs.CompletionHandsOver | HAL/HAL_ISR/UART_isr.c:114-124 | a frame completed with the flag UNLOCKED takes the flag, frees the raw page, and leaves the received string in the main buffer when a page was free |
| UartIsrProofs.SearchKeepsReceived | HAL/HAL_ISR/UART_isr.c:111-114 | the `</UCL>` search keeps the table and the received C string |
| UartIsrProofs.LockedCompletionKeepsRawPage | HAL/HAL_ISR/UART_isr.c:114-128 | a frame completed with the flag LOCKED leaves the table unchanged, so the raw page stays marked, and the flag stays LOCKED |
| UartIsrProofs.HeldPageIsOrphaned | HAL/HAL_ISR/UART_isr.c:25 | the next frame moves the raw pointer off the still-marked page, and the main pointer stays where it was, on another page, so neither pointer names the page |
| UartIsrProofs.OverflowDropsFrame | HAL/HAL_ISR/UART_isr.c:267-271 | a byte at index BLOCK_SIZE*8 is dropped, the raw page is freed, and the index returns to 0 |
| UartIsrProofs.ParentCheckDecides | HAL/HAL_ISR/UART_isr.c:58-85 | the check at index 7 rejects exactly when `<UCL>` occurs nowhere in the received string or no scratch block is free; a rejection frees the page and keeps the raw pointer on it |
| UartIsrProofs.FullPage | HAL/HAL_ISR/UART_isr.c:244 | a state meeting the interrupt's invariant with 255 bytes stored in the page at block 0: `<UCL>` in its first seven bytes, so it passes the parent-tag check, then `x` |
| UartIsrProofs.FullPageHoldsNoCloseTag | HAL/HAL_ISR/UART_isr.c:108-111 | the received string of that state holds no `</UCL>` |
| UartIsrProofs.FullPageSearchHits | HAL/HAL_ISR/UART_isr.c:108-114 | the NUL stored past the page lands in the scratch block, and the search then finds the marker written there |
| UartIsrProofs.FullPageFalselyCompletes | HAL/HAL_ISR/UART_isr.c:244 | the interrupt as written takes the flag and hands that frame over without any `</UCL>`; with the bound one lower it does not |
| UartIsrProofs.IntendedCompletionNeedsCloseTag | HAL/HAL_ISR/UART_isr.c:244 | with the bound one lower, the flag is taken only when `</UCL>` occurs in the received string, and the main buffer then holds that string |

## Left out

- The USART and GPIO set-up, the system clock, and the register reads of the interrupt (`USART_GetFlagStatus`, `USART_ReceiveData`). These are hardware. The received byte is a parameter of `UsartIrq`, and an interrupt without RXNE set, which does nothing, is not modelled.
- `UART_WriteData`. It is output whose body is not part of this model. The handlers record the texts they pass to it as a list. `execute_callback_functions` returns the message it chooses instead of writing it.
- The main loop and the consumer of the main buffer. `main.c` calls the parser without an argument, and no shown code releases the flag or frees the main buffer.
- `Headers/UART_Command_Line.h` and `Source Files/UART-Command-Line.c`. They are an older, delimiter-based parser with its own functions (`SetLedValue`, `GetHeaterValue`, `splitingInputString`, `ParseCommand`), and the core does not call them.
- `allocate_memory` and `obtain_semaphore`, which are declared without bodies, and the unused global `g_extracted_data`.
- Interleaving of the interrupt with the main loop. This is concurrency; the model runs every operation to completion, one after the other.
- The parameter checks of the interrupt helpers (`char_index == NULL`, `mem_blocks == 0`). The handler always passes a valid pointer and 8, so these branches are never taken.
- `snprintf` truncation in `find_tag_location`. `ValidTag` requires the marker and its NUL to fit one block, which "UCL", "CMD" and "PARAM" do.
- `memcpy` with overlapping ranges. The copy is modelled as a read of the memory before the copy. The main and raw pages are disjoint (`FreeRunMissesPage`). But when the raw C string runs past its page (the `UART_isr.c:244` finding), the copied range reaches into the main page. That is undefined behaviour in C, and the model does not capture it.
- Reads past the end of the pool. `StrLen`, `CStr` and the `strstr` model stop at the last byte of `memPool.pool`, where C would read on into whatever memory follows it. While a frame is in progress its terminator lies inside its page (`RawResident`). The exception is the byte at index 255 of the `UART_isr.c:244` finding. On the last page of the pool, the terminator that byte stores, and the reads after it, fall outside the pool.
- A struct field the parser never writes. C leaves `cmd` or `param` uninitialised there; the model holds the empty string.
- MemoryPool.FreePagesSpec: checks the range without uint32 wrap-around, which is the evidently intended test. The as-written test is `FreePagesGuardAsWritten` (see Findings).
- The call through the NULL entry of `g_cmd_list` at index 2. It is undefined behaviour, so `execute_callback_functions` returns the outcome `NullCallback` there.

## Findings

| source | as written | input that shows it | evidently intended | confidence | as-written member | corrected member |
|---|---|---|---|---|---|---|
| Command_Line_App/UART_command_line/UART-Command-Line.c:211-215 | `start` is the closing marker's hit, `end` the opening marker's, and success needs `end > start` | `<CMD>LightOn</CMD>`: `<CMD>` is at 0, before `</CMD>`, so the result is BAD_XML | the value between `<tag>` and `</tag>` is extracted | high (proved; not executed) | CommandLineProofs.FieldOpeningFirstIsBadXml | CommandLineProofs.IntendedExtractRoundTrip |
| Command_Line_App/memory_utility/memory_utility.c:176 | `start_block_index + page_count <= BLOCK_COUNT` in uint32 arithmetic | a pointer to block 1 with page_count 0xFFFFFFFF passes the test | only ranges inside the table are freed | high (proved; not executed) | MemoryPoolProofs.FreePagesGuardWraps | MemoryPoolProofs.FreePagesStaysInRange |
| Command_Line_App/UART_command_line/UART-Command-Line.c:394-403 | a status below 0xFF selects slot `status - 0xFB` when that is below 4 | callback index 0xFE selects slot 3, the NULL sentinel, which is passed to UART_WriteData | a slot always names one of the three messages | high (proved; not executed) | CommandLine.ExecuteCallbackFunctions | CommandLine.ExecuteCallbackFunctionsIntended |
| HAL/HAL_ISR/UART_isr.c:244 | bytes are accepted while `char_index < BLOCK_SIZE * MEM_BLOCK_NO`, and the NUL after the byte at 255 lands one past the page | a frame of `<UCL>` then `x` up to byte 254 in the page at block 0, so it passed the check at index 7, with blocks 8 on free; then byte `x`: the search marker overwrites that NUL and `</UCL>` is found | the NUL always lands inside the raw page | high (proved; not executed) | UartIsrProofs.FullPageFalselyCompletes | UartIsrProofs.IntendedCompletionNeedsCloseTag |
