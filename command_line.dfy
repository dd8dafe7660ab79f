/**
 * The request parser and dispatcher of UART-Command-Line.c: locating
 * `<tag>`/`</tag>` markers in a NUL-terminated buffer held in the block pool,
 * copying a tag's value into a bounded buffer, looking a command name up in
 * the sentinel-terminated command table, and choosing the handler or the
 * diagnostic message for a parse result.
 */
module CommandLine {
  import opened Wrappers
  import opened CStrings
  import opened MemoryPool
  import opened MemoryPoolProofs

  /** uint8_t */
  type u8 = x: int | 0 <= x < 256

  const XML_PARENT_TAG: string := "UCL"
  const XML_TAG_CMD: string := "CMD"
  const XML_TAG_PARAMETER: string := "PARAM"

  /** Size of the `cmd` and `param` fields of a parse result. */
  const CMD_AND_PARAM_LENGTH: nat := 32

  const OPEN_TAG: u8 := 0
  const CLOSE_TAG: u8 := 1

  // XML_Parser_Status_t; the same byte also carries command indices.
  const XML_OK: u8 := 0xFA
  const NO_COMMAND_FOUND: u8 := 0xFB
  const INVALID_OPERATION: u8 := 0xFC
  const BAD_XML: u8 := 0xFD
  const NO_OF_PARSER_MESSAGES: u8 := 0xFF

  /** size_t on the 32-bit target. */
  const SIZE_T_MODULUS: nat := 0x1_0000_0000

  /**
   * A tag name that find_tag_location formats into one pool block without
   * snprintf truncating it: a C string with room for `</`, `>` and the NUL.
   */
  predicate ValidTag(tag: string) {
    |tag| + 4 <= BLOCK_SIZE && NUL !in tag
  }

  /** The marker find_tag_location searches for: `<tag>` for OPEN_TAG, `</tag>` for CLOSE_TAG. */
  function Pattern(tag: string, kind: u8): (pat: string)
    requires kind <= CLOSE_TAG
    ensures |pat| == |tag| + 2 + kind
    ensures pat[0] == '<' && pat[|pat| - 1] == '>'
    ensures NUL !in tag ==> NUL !in pat
  {
    if kind == OPEN_TAG then "<" + tag + ">" else "</" + tag + ">"
  }

  /** Outcome of find_tag_location: the match, and the pool it leaves behind. */
  datatype TagSearch = TagSearch(loc: Ptr, usage: seq<bool>, mem: seq<char>)

  /** The strstr step of find_tag_location: where `pat` first occurs in the C string at `xml`. */
  function Search(mem: seq<char>, xml: nat, pat: string): (loc: Ptr)
    ensures loc.At? ==> xml <= loc.offset && OccursAt(CStr(mem, xml), pat, loc.offset - xml)
    ensures loc.At? ==> forall j: nat :: j < loc.offset - xml ==> !OccursAt(CStr(mem, xml), pat, j)
    ensures loc.Null? ==> forall j :: !OccursAt(CStr(mem, xml), pat, j)
  {
    var hit := StrStr(CStr(mem, xml), pat);
    if hit.Some? then At(xml + hit.value) else Null
  }

  /**
   * find_tag_location: takes a scratch block, formats the marker into it,
   * searches the C string at `xml` for the marker (strstr), and frees the
   * scratch block.  The search reads the pool after the marker was written.
   */
  function FindTagSpec(usage: seq<bool>, mem: seq<char>, xml: Ptr, tag: Option<string>, kind: u8): (r: TagSearch)
    requires |usage| == BLOCK_COUNT && |mem| == MEMORY_POOL_SIZE
    requires tag.Some? ==> ValidTag(tag.value)
    ensures r.usage == usage && |r.mem| == |mem|
    ensures (xml.Null? || tag.None? || kind > CLOSE_TAG || forall j :: 0 <= j < BLOCK_COUNT ==> usage[j])
      ==> r.loc.Null? && r.mem == mem
    ensures xml.At? && tag.Some? && kind <= CLOSE_TAG && (exists j :: 0 <= j < BLOCK_COUNT && !usage[j])
      ==> r.loc == Search(r.mem, xml.offset, Pattern(tag.value, kind))
  {
    if xml.Null? || tag.None? || kind > CLOSE_TAG then TagSearch(Null, usage, mem)
    else
      var scratch := AllocateSpec(usage);
      if scratch.ptr.Null? then TagSearch(Null, usage, mem)
      else
        var pat := Pattern(tag.value, kind);
        var m := WriteBytes(mem, scratch.ptr.offset, pat + [NUL]);
        AllocateThenFreeRestores(usage);
        TagSearch(Search(m, xml.offset, pat), FreeSpec(scratch.usage, scratch.ptr), m)
  }

  /** find_tag_location */
  method FindTagLocation(pool: MemoryPool, xml: Ptr, tag: Option<string>, kind: u8) returns (loc: Ptr)
    requires pool.Valid()
    requires tag.Some? ==> ValidTag(tag.value)
    modifies pool.blockUsage, pool.storage
    ensures TagSearch(loc, pool.blockUsage[..], pool.storage[..])
         == FindTagSpec(old(pool.blockUsage[..]), old(pool.storage[..]), xml, tag, kind)
  {
    if xml.Null? || tag.None? || kind > CLOSE_TAG {
      return Null;
    }
    var formatted := pool.Allocate();
    if formatted.Null? {
      return Null;
    }
    var pat := Pattern(tag.value, kind);
    pool.Write(formatted.offset, pat + [NUL]);
    loc := Search(pool.storage[..], xml.offset, pat);
    pool.Free(formatted);
  }

  /** The bytes strncpy(dst, src, len) stores: the C string at `from`, cut or NUL-padded to `len`. */
  function StrNCpy(mem: seq<char>, from: nat, len: nat): (r: seq<char>)
    ensures |r| == len
  {
    seq(len, i requires 0 <= i < len => if i < StrLen(mem, from) then mem[from + i] else NUL)
  }

  /** The value span extract_value_from_xml copies: its start in the pool and its length. */
  datatype Span = Span(from: nat, len: nat)

  /**
   * The span as extract_value_from_xml computes it.  Its `start` holds the
   * closing-marker match and its `end` the opening-marker match; it demands
   * `end > start`, skips `strlen(tag) + 2` bytes from `start`, and takes the
   * size_t difference to `end` as the length, which must be below `valueSize`.
   */
  function SpanAsWritten(start: Ptr, end: Ptr, tagLen: nat, valueSize: nat): (r: Option<Span>)
    ensures r.Some? <==> (start.At? && end.At? && end.offset > start.offset
      && (end.offset - (start.offset + tagLen + 2)) % SIZE_T_MODULUS < valueSize)
    ensures r.Some? ==> r.value.from == start.offset + tagLen + 2 && r.value.len < valueSize
    ensures r.Some? && r.value.from <= end.offset < SIZE_T_MODULUS ==> r.value.len == end.offset - r.value.from
  {
    if start.At? && end.At? && end.offset > start.offset then
      var from := start.offset + tagLen + 2;
      var len := (end.offset - from) % SIZE_T_MODULUS;
      if len >= valueSize then None else Some(Span(from, len))
    else None
  }

  /**
   * The span the comments of extract_value_from_xml describe: the value runs
   * from just after the opening marker `<tag>` to the closing marker `</tag>`,
   * which must come after it.
   */
  function SpanIntended(open: Ptr, close: Ptr, tagLen: nat, valueSize: nat): (r: Option<Span>)
    ensures r.Some? ==> open.At? && close.At? && r.value.from == open.offset + tagLen + 2
    ensures r.Some? ==> r.value.from + r.value.len == close.offset && r.value.len < valueSize
  {
    if open.At? && close.At? && close.offset >= open.offset + tagLen + 2
      && close.offset - (open.offset + tagLen + 2) < valueSize
    then Some(Span(open.offset + tagLen + 2, close.offset - (open.offset + tagLen + 2)))
    else None
  }

  /** Outcome of extract_value_from_xml: the status, the pool, and the bytes stored into `tag_value`. */
  datatype Extraction = Extraction(status: u8, usage: seq<bool>, mem: seq<char>, written: seq<char>)

  /** extract_value_from_xml, on the pool state; `hasOut` says whether `tag_value` is non-NULL. */
  function ExtractValueSpec(usage: seq<bool>, mem: seq<char>, xml: Ptr, tag: Option<string>, hasOut: bool, valueSize: nat)
    : (r: Extraction)
    requires |usage| == BLOCK_COUNT && |mem| == MEMORY_POOL_SIZE
    requires tag.Some? ==> ValidTag(tag.value)
    ensures r.usage == usage && |r.mem| == |mem|
    ensures r.status == XML_OK || r.status == BAD_XML || r.status == INVALID_OPERATION
    ensures r.status == INVALID_OPERATION <==> xml.Null? || tag.None? || !hasOut || valueSize == 0
    ensures r.status == INVALID_OPERATION ==> r.mem == mem
    ensures r.status == XML_OK ==> 0 < |r.written| <= valueSize && r.written[|r.written| - 1] == NUL
    ensures r.status != XML_OK ==> r.written == []
  {
    if xml.Null? || tag.None? || !hasOut || valueSize == 0 then Extraction(INVALID_OPERATION, usage, mem, [])
    else
      var start := FindTagSpec(usage, mem, xml, tag, CLOSE_TAG);
      var end := FindTagSpec(start.usage, start.mem, xml, tag, OPEN_TAG);
      match SpanAsWritten(start.loc, end.loc, |tag.value|, valueSize)
      case None => Extraction(BAD_XML, end.usage, end.mem, [])
      case Some(span) => Extraction(XML_OK, end.usage, end.mem, StrNCpy(end.mem, span.from, span.len) + [NUL])
  }

  /** strncpy(dst, pool + from, len) */
  method StrNCopy(pool: MemoryPool, dst: array<char>, from: nat, len: nat)
    requires pool.Valid() && dst != pool.storage && len <= dst.Length
    modifies dst
    ensures dst[..] == StrNCpy(pool.storage[..], from, len) + old(dst[..])[len..]
  {
    ghost var mem := pool.storage[..];
    ghost var n := StrLen(mem, from);
    ghost var copied := StrNCpy(mem, from, len);
    var i := 0;
    var ended := false;
    while i < len
      invariant 0 <= i <= len
      invariant !ended <==> i <= n
      invariant forall k :: 0 <= k < i ==> dst[k] == copied[k]
      invariant forall k :: i <= k < dst.Length ==> dst[k] == old(dst[k])
    {
      if !ended && from + i < pool.storage.Length && pool.storage[from + i] != NUL {
        dst[i] := pool.storage[from + i];
      } else {
        ended := true;
        dst[i] := NUL;
      }
      i := i + 1;
    }
    assert dst[..] == copied + old(dst[..])[len..];
  }

  /** Storing a NUL right after a copied prefix extends the prefix by that NUL. */
  lemma Terminate(copied: seq<char>, buffer: seq<char>)
    requires |copied| < |buffer|
    ensures (copied + buffer[|copied|..])[|copied| := NUL] == (copied + [NUL]) + buffer[|copied| + 1..]
  {
    var lhs := (copied + buffer[|copied|..])[|copied| := NUL];
    var rhs := (copied + [NUL]) + buffer[|copied| + 1..];
    assert forall k :: 0 <= k < |lhs| ==> lhs[k] == rhs[k];
  }

  /** extract_value_from_xml */
  method ExtractValueFromXml(pool: MemoryPool, xml: Ptr, tag: Option<string>, tagValue: array?<char>, valueSize: nat)
    returns (status: u8)
    requires pool.Valid() && tagValue != pool.storage
    requires tag.Some? ==> ValidTag(tag.value)
    requires tagValue != null ==> valueSize <= tagValue.Length
    modifies pool.blockUsage, pool.storage, tagValue
    ensures var e := ExtractValueSpec(old(pool.blockUsage[..]), old(pool.storage[..]), xml, tag, tagValue != null, valueSize);
      && status == e.status && pool.blockUsage[..] == e.usage && pool.storage[..] == e.mem
      && (tagValue != null ==> tagValue[..] == e.written + old(tagValue[..])[|e.written|..])
  {
    if xml.Null? || tag.None? || tagValue == null || valueSize == 0 {
      return INVALID_OPERATION;
    }
    ghost var u, m := pool.blockUsage[..], pool.storage[..];
    var start := FindTagLocation(pool, xml, tag, CLOSE_TAG);
    ghost var s1 := FindTagSpec(u, m, xml, tag, CLOSE_TAG);
    assert start == s1.loc && pool.storage[..] == s1.mem;
    var end := FindTagLocation(pool, xml, tag, OPEN_TAG);
    ghost var s2 := FindTagSpec(u, s1.mem, xml, tag, OPEN_TAG);
    assert end == s2.loc && pool.storage[..] == s2.mem && pool.blockUsage[..] == u;
    ghost var before := tagValue[..];
    var span := SpanAsWritten(start, end, |tag.value|, valueSize);
    if span.None? {
      status := BAD_XML;
      assert ExtractValueSpec(u, m, xml, tag, true, valueSize) == Extraction(BAD_XML, u, s2.mem, []);
    } else {
      var from, tagLength := span.value.from, span.value.len;
      StrNCopy(pool, tagValue, from, tagLength);
      ghost var copied := StrNCpy(s2.mem, from, tagLength);
      assert tagValue[..] == copied + before[tagLength..];
      tagValue[tagLength] := NUL;
      Terminate(copied, before);
      status := XML_OK;
      assert ExtractValueSpec(u, m, xml, tag, true, valueSize) == Extraction(XML_OK, u, s2.mem, copied + [NUL]);
    }
  }

  /** g_cmd_list: command names, ending in the NULL sentinel entry. */
  const COMMAND_LIST: seq<Option<string>> := [Some("LightOn"), Some("GetHeater"), None]
  const NUMBER_OF_COMMANDS: nat := 3

  /** The index find_command_in_list reports for `name`, scanning from entry `i`. */
  function LookupFrom(name: string, i: nat): (r: u8)
    requires i < |COMMAND_LIST|
    decreases |COMMAND_LIST| - i
  {
    if COMMAND_LIST[i].None? then NO_COMMAND_FOUND
    else if COMMAND_LIST[i].value == name then i
    else LookupFrom(name, i + 1)
  }

  /**
   * The result of find_command_in_list: INVALID_OPERATION for NULL, the first
   * entry whose name equals `cmd`, or NO_COMMAND_FOUND; never the sentinel.
   */
  function CommandIndex(cmd: Option<string>): (r: u8)
    ensures cmd.None? <==> r == INVALID_OPERATION
    ensures r != NUMBER_OF_COMMANDS - 1
    ensures r < NUMBER_OF_COMMANDS ==> cmd.Some? && COMMAND_LIST[r] == cmd
    ensures r < NUMBER_OF_COMMANDS ==> forall j :: 0 <= j < r ==> COMMAND_LIST[j] != cmd
    ensures cmd.Some? ==> (r == NO_COMMAND_FOUND <==> cmd !in COMMAND_LIST)
    ensures r < NUMBER_OF_COMMANDS || r == NO_COMMAND_FOUND || r == INVALID_OPERATION
  {
    if cmd.None? then INVALID_OPERATION else LookupFrom(cmd.value, 0)
  }

  /** find_command_in_list: a linear scan of g_cmd_list up to its sentinel. */
  method FindCommandInList(cmd: Option<string>) returns (index: u8)
    ensures index == CommandIndex(cmd)
  {
    var found := false;
    index := 0;
    if cmd.Some? {
      while COMMAND_LIST[index].Some?
        invariant 0 <= index < |COMMAND_LIST|
        invariant LookupFrom(cmd.value, index) == LookupFrom(cmd.value, 0)
        decreases |COMMAND_LIST| - index
      {
        if COMMAND_LIST[index].value == cmd.value {
          found := true;
          break;
        }
        index := index + 1;
      }
      if !found {
        index := NO_COMMAND_FOUND;
      }
    } else {
      index := INVALID_OPERATION;
    }
  }

  /**
   * struct XMLDataExtractionResult, with `cmd` and `param` as the C strings
   * their 32-byte fields hold.  A field the parser never wrote is left
   * uninitialised by the source; the model holds the empty string there.
   */
  datatype ParsedResult = ParsedResult(callbackIndex: u8, cmd: string, param: string)

  /** Outcome of extract_command_and_params_from_xml, with the pool it leaves behind. */
  datatype Parse = Parse(result: ParsedResult, usage: seq<bool>, mem: seq<char>)

  /** extract_command_and_params_from_xml, on the pool state. */
  function ExtractCommandSpec(usage: seq<bool>, mem: seq<char>, xml: Ptr): (r: Parse)
    requires |usage| == BLOCK_COUNT && |mem| == MEMORY_POOL_SIZE
    ensures r.usage == usage && |r.mem| == |mem|
    ensures var i := r.result.callbackIndex;
      i == 0 || i == 1 || i == NO_COMMAND_FOUND || i == INVALID_OPERATION || i == BAD_XML
    ensures xml.Null? <==> r.result.callbackIndex == INVALID_OPERATION
    ensures r.result.callbackIndex < NUMBER_OF_COMMANDS ==> COMMAND_LIST[r.result.callbackIndex] == Some(r.result.cmd)
    ensures r.result.callbackIndex == NO_COMMAND_FOUND ==> Some(r.result.cmd) !in COMMAND_LIST
    ensures var c := ExtractValueSpec(usage, mem, xml, Some(XML_TAG_CMD), true, CMD_AND_PARAM_LENGTH);
      && (xml.At? && c.status != XML_OK ==> r.result.callbackIndex == c.status)
      && (xml.At? && c.status == XML_OK ==> r.result.cmd == CStr(c.written, 0))
      && (xml.At? && c.status == XML_OK ==> var name := CStr(c.written, 0);
            && (Some(name) !in COMMAND_LIST ==> r.result.callbackIndex == NO_COMMAND_FOUND)
            && (Some(name) in COMMAND_LIST ==> r.result == ParamSpec(c.usage, c.mem, xml, CommandIndex(Some(name)), name).result))
  {
    if xml.Null? then Parse(ParsedResult(INVALID_OPERATION, "", ""), usage, mem)
    else
      var c := ExtractValueSpec(usage, mem, xml, Some(XML_TAG_CMD), true, CMD_AND_PARAM_LENGTH);
      if c.status != XML_OK then Parse(ParsedResult(c.status, "", ""), c.usage, c.mem)
      else
        var cmd := CStr(c.written, 0);
        var index := CommandIndex(Some(cmd));
        if index < NO_COMMAND_FOUND then ParamSpec(c.usage, c.mem, xml, index, cmd)
        else Parse(ParsedResult(index, cmd, ""), c.usage, c.mem)
  }

  /** The second half of extract_command_and_params_from_xml: the PARAM field of a known command. */
  function ParamSpec(usage: seq<bool>, mem: seq<char>, xml: Ptr, index: u8, cmd: string): (r: Parse)
    requires |usage| == BLOCK_COUNT && |mem| == MEMORY_POOL_SIZE && xml.At? && index < NUMBER_OF_COMMANDS
    ensures r.usage == usage && |r.mem| == |mem| && r.result.cmd == cmd
    ensures r.result.callbackIndex == index || r.result.callbackIndex == BAD_XML
    ensures var p := ExtractValueSpec(usage, mem, xml, Some(XML_TAG_PARAMETER), true, CMD_AND_PARAM_LENGTH);
      && (p.status == XML_OK <==> r.result.callbackIndex == index)
      && (p.status == XML_OK ==> r.result.param == CStr(p.written, 0))
      && (p.status != XML_OK ==> r.result.callbackIndex == BAD_XML && r.result.param == "")
  {
    var p := ExtractValueSpec(usage, mem, xml, Some(XML_TAG_PARAMETER), true, CMD_AND_PARAM_LENGTH);
    if p.status != XML_OK then Parse(ParsedResult(p.status, cmd, ""), p.usage, p.mem)
    else Parse(ParsedResult(index, cmd, CStr(p.written, 0)), p.usage, p.mem)
  }

  /** The C string held in a buffer whose stored bytes end in a NUL is the C string of those bytes. */
  lemma CStrOfStored(written: seq<char>, rest: seq<char>)
    requires |written| > 0 && written[|written| - 1] == NUL
    ensures CStr(written + rest, 0) == CStr(written, 0)
  {
    var n := StrLen(written, 0);
    assert n < |written|;
    StrLenIs(written + rest, 0, n);
  }

  /** The PARAM half of extract_command_and_params_from_xml, storing into the 32-byte field `param`. */
  method ExtractParam(pool: MemoryPool, xml: Ptr, index: u8, name: string, param: array<char>) returns (result: ParsedResult)
    requires pool.Valid() && xml.At? && index < NUMBER_OF_COMMANDS
    requires param != pool.storage && param.Length == CMD_AND_PARAM_LENGTH
    modifies pool.blockUsage, pool.storage, param
    ensures var p := ParamSpec(old(pool.blockUsage[..]), old(pool.storage[..]), xml, index, name);
      result == p.result && pool.blockUsage[..] == p.usage && pool.storage[..] == p.mem
  {
    ghost var q := ExtractValueSpec(pool.blockUsage[..], pool.storage[..], xml, Some(XML_TAG_PARAMETER), true, CMD_AND_PARAM_LENGTH);
    ghost var param0 := param[..];
    var status := ExtractValueFromXml(pool, xml, Some(XML_TAG_PARAMETER), param, CMD_AND_PARAM_LENGTH);
    if status != XML_OK {
      result := ParsedResult(status, name, "");
    } else {
      CStrOfStored(q.written, param0[|q.written|..]);
      result := ParsedResult(index, name, CStr(param[..], 0));
    }
  }

  /** extract_command_and_params_from_xml */
  method ExtractCommandAndParams(pool: MemoryPool, xml: Ptr) returns (result: ParsedResult)
    requires pool.Valid()
    modifies pool.blockUsage, pool.storage
    ensures var p := ExtractCommandSpec(old(pool.blockUsage[..]), old(pool.storage[..]), xml);
      result == p.result && pool.blockUsage[..] == p.usage && pool.storage[..] == p.mem
  {
    var cmd := new char[CMD_AND_PARAM_LENGTH](_ => NUL);
    var param := new char[CMD_AND_PARAM_LENGTH](_ => NUL);
    ghost var cmd0 := cmd[..];
    assert CStr(cmd0, 0) == "";
    result := ParsedResult(0, "", "");
    if xml.At? {
      ghost var u, m := pool.blockUsage[..], pool.storage[..];
      ghost var c := ExtractValueSpec(u, m, xml, Some(XML_TAG_CMD), true, CMD_AND_PARAM_LENGTH);
      var status := ExtractValueFromXml(pool, xml, Some(XML_TAG_CMD), cmd, CMD_AND_PARAM_LENGTH);
      if status == XML_OK {
        CStrOfStored(c.written, cmd0[|c.written|..]);
        var name := CStr(cmd[..], 0);
        var index := FindCommandInList(Some(name));
        result := result.(callbackIndex := index, cmd := name);
        if index < NO_COMMAND_FOUND {
          result := ExtractParam(pool, xml, index, name, param);
        } else {
          assert ExtractCommandSpec(u, m, xml) == Parse(ParsedResult(index, name, ""), u, c.mem);
        }
      } else {
        result := result.(callbackIndex := status);
        assert ExtractCommandSpec(u, m, xml) == Parse(ParsedResult(c.status, "", ""), u, c.mem);
      }
    } else {
      result := result.(callbackIndex := INVALID_OPERATION);
    }
  }

  /** ErrorStatus of the device library. */
  datatype ErrorStatus = ERROR | SUCCESS

  /** UART_Message: texts the handlers write, ending in a NULL entry. */
  const UART_MESSAGE: seq<Option<string>> := [
    Some("Error: CommandContent pointer is null.\n"),
    Some("Command received and processed.\n"),
    Some("\nFirst Command: %s\n"),
    Some("\nSecond Command: %s\n"),
    None
  ]
  const ERR_NULL_POINTER: nat := 0
  const CMD_PROCESSED: nat := 1
  const FIRST_CMD: nat := 2
  const SECOND_CMD: nat := 3

  /** A handler's return value and the strings it passes to UART_WriteData, in order. */
  datatype HandlerRun = HandlerRun(status: ErrorStatus, writes: seq<Option<string>>)

  /** The run of a handler that logs `banner`, then the command, then CMD_PROCESSED. */
  function LogCommand(content: Option<ParsedResult>, banner: nat): (r: HandlerRun)
    requires banner < |UART_MESSAGE|
    ensures r.status == SUCCESS <==> content.Some?
    ensures content.None? ==> r.writes == [UART_MESSAGE[ERR_NULL_POINTER]]
    ensures |r.writes| > 0
    ensures r.writes[0] == if content.Some? then UART_MESSAGE[banner] else UART_MESSAGE[ERR_NULL_POINTER]
    ensures content.Some? ==> r.writes[1..] == [Some(content.value.cmd), UART_MESSAGE[CMD_PROCESSED]]
  {
    if content.None? then HandlerRun(ERROR, [UART_MESSAGE[ERR_NULL_POINTER]])
    else HandlerRun(SUCCESS, [UART_MESSAGE[banner], Some(content.value.cmd), UART_MESSAGE[CMD_PROCESSED]])
  }

  /** SetLedValue: ERROR for a NULL argument, SUCCESS otherwise. */
  function SetLedValue(content: Option<ParsedResult>): (r: HandlerRun)
    ensures r.status == SUCCESS <==> content.Some?
    ensures |r.writes| > 0
    ensures r.writes[0] == if content.Some? then Some("\nFirst Command: %s\n") else Some("Error: CommandContent pointer is null.\n")
  {
    LogCommand(content, FIRST_CMD)
  }

  /** GetHeaterValue: ERROR for a NULL argument, SUCCESS otherwise. */
  function GetHeaterValue(content: Option<ParsedResult>): (r: HandlerRun)
    ensures r.status == SUCCESS <==> content.Some?
    ensures |r.writes| > 0
    ensures r.writes[0] == if content.Some? then Some("\nSecond Command: %s\n") else Some("Error: CommandContent pointer is null.\n")
  {
    LogCommand(content, SECOND_CMD)
  }

  /** XML_Proccessing_Messages: diagnostics for the parser statuses, ending in a NULL sentinel. */
  const XML_PROCESSING_MESSAGES: seq<Option<string>> := [
    Some("\nNo command was found\n"),
    Some("\nInvalid operation\n"),
    Some("\nBad XML\n"),
    None
  ]
  const XML_MSG_ARRAY_SIZE: nat := 4
  const INVALID_OPERATION_INDX: nat := 1

  /** The table entry chosen for a uint8_t slot: the slot itself if below XML_MSG_ARRAY_SIZE, else "Invalid operation". */
  function MessageAt(slot: u8): Option<string> {
    if slot < XML_MSG_ARRAY_SIZE then XML_PROCESSING_MESSAGES[slot] else XML_PROCESSING_MESSAGES[INVALID_OPERATION_INDX]
  }

  /** `status - NO_COMMAND_FOUND` in uint8_t arithmetic. */
  function SlotOf(status: u8): u8 {
    (status - NO_COMMAND_FOUND) % 256
  }

  /** What execute_callback_functions does: one handler call, a call through the NULL sentinel, or one message. */
  datatype Dispatch = Handled(handler: nat, run: HandlerRun) | NullCallback | Reported(message: Option<string>)

  /** execute_callback_functions */
  function ExecuteCallbackFunctions(content: Option<ParsedResult>): (d: Dispatch)
    ensures content.None? ==> d == Reported(Some("\nInvalid operation\n"))
    ensures content.Some? ==> var i := content.value.callbackIndex;
      && (i == 0 <==> d == Handled(0, SetLedValue(content)))
      && (i == 1 <==> d == Handled(1, GetHeaterValue(content)))
      && (i == 2 <==> d == NullCallback)
      && (i == NO_COMMAND_FOUND ==> d == Reported(Some("\nNo command was found\n")))
      && (i == INVALID_OPERATION ==> d == Reported(Some("\nInvalid operation\n")))
      && (i == BAD_XML ==> d == Reported(Some("\nBad XML\n")))
      && (i == 0xFE <==> d == Reported(None))
      && (3 <= i < NO_COMMAND_FOUND || i == NO_OF_PARSER_MESSAGES ==> d == Reported(Some("\nInvalid operation\n")))
  {
    if content.None? then Reported(MessageAt(SlotOf(INVALID_OPERATION)))
    else
      var i := content.value.callbackIndex;
      if i < NUMBER_OF_COMMANDS then
        if i == 0 then Handled(0, SetLedValue(content))
        else if i == 1 then Handled(1, GetHeaterValue(content))
        else NullCallback
      else if i < NO_OF_PARSER_MESSAGES then Reported(MessageAt(SlotOf(i)))
      else Reported(MessageAt(SlotOf(INVALID_OPERATION)))
  }

  /**
   * The message lookup with the bound the table's comment implies: a slot
   * must name one of the three real messages, never the NULL sentinel.
   */
  function MessageAtIntended(slot: u8): (r: Option<string>)
    ensures r.Some?
    ensures slot < XML_MSG_ARRAY_SIZE - 1 ==> r == XML_PROCESSING_MESSAGES[slot]
  {
    if slot < XML_MSG_ARRAY_SIZE - 1 then XML_PROCESSING_MESSAGES[slot] else XML_PROCESSING_MESSAGES[INVALID_OPERATION_INDX]
  }

  /**
   * execute_callback_functions with the message lookup bounded to the three
   * real messages: every status from NO_COMMAND_FOUND up reports a text, and
   * 0xFE reports "Invalid operation" instead of the NULL entry.
   */
  function ExecuteCallbackFunctionsIntended(content: Option<ParsedResult>): (d: Dispatch)
    ensures d != Reported(None)
    ensures content.None? || content.value.callbackIndex != 0xFE ==> d == ExecuteCallbackFunctions(content)
    ensures content.Some? && content.value.callbackIndex == 0xFE ==> d == Reported(Some("\nInvalid operation\n"))
  {
    if content.None? then Reported(MessageAtIntended(SlotOf(INVALID_OPERATION)))
    else
      var i := content.value.callbackIndex;
      if i < NUMBER_OF_COMMANDS then
        if i == 0 then Handled(0, SetLedValue(content))
        else if i == 1 then Handled(1, GetHeaterValue(content))
        else NullCallback
      else if i < NO_OF_PARSER_MESSAGES then Reported(MessageAtIntended(SlotOf(i)))
      else Reported(MessageAtIntended(SlotOf(INVALID_OPERATION)))
  }
}
