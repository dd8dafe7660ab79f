/**
 * Properties of the request parser: what find_tag_location finds in a frame
 * that lives in allocated pool blocks, the consequences of
 * extract_value_from_xml matching the closing marker first, and the value
 * span the function's comments describe.
 */
module CommandLineProofs {
  import opened Wrappers
  import opened CStrings
  import opened MemoryPool
  import opened CommandLine

  /**
   * The C string at `p` and its terminator lie inside the pool, in blocks
   * that are in use, so scratch blocks taken by the parser never overlap it.
   */
  predicate Resident(usage: seq<bool>, mem: seq<char>, p: nat)
    requires |usage| == BLOCK_COUNT && |mem| == MEMORY_POOL_SIZE
  {
    p + StrLen(mem, p) < MEMORY_POOL_SIZE
    && forall k :: p <= k <= p + StrLen(mem, p) ==> usage[BlockOf(k)]
  }

  /** Writing at most one block into a free block leaves a resident C string as it was. */
  lemma ScratchWriteKeepsString(usage: seq<bool>, mem: seq<char>, p: nat, b: nat, bytes: seq<char>)
    requires |usage| == BLOCK_COUNT && |mem| == MEMORY_POOL_SIZE
    requires Resident(usage, mem, p) && b < BLOCK_COUNT && !usage[b] && |bytes| <= BLOCK_SIZE
    ensures var m := WriteBytes(mem, b * BLOCK_SIZE, bytes);
      StrLen(m, p) == StrLen(mem, p) && CStr(m, p) == CStr(mem, p) && Resident(usage, m, p)
  {
    var m := WriteBytes(mem, b * BLOCK_SIZE, bytes);
    var n := StrLen(mem, p);
    forall k | p <= k <= p + n
      ensures m[k] == mem[k]
    {
      assert usage[BlockOf(k)];
      assert !(b * BLOCK_SIZE <= k < b * BLOCK_SIZE + BLOCK_SIZE);
    }
    CStrAgree(mem, m, p);
  }

  /** find_tag_location writes only into a free block, so bytes of blocks in use keep their value. */
  lemma FindTagKeepsUsedBytes(usage: seq<bool>, mem: seq<char>, xml: Ptr, tag: Option<string>, kind: u8, k: nat)
    requires |usage| == BLOCK_COUNT && |mem| == MEMORY_POOL_SIZE
    requires tag.Some? ==> ValidTag(tag.value)
    requires k < MEMORY_POOL_SIZE && usage[BlockOf(k)]
    ensures FindTagSpec(usage, mem, xml, tag, kind).mem[k] == mem[k]
  {
    var scratch := AllocateSpec(usage);
    if xml.At? && tag.Some? && kind <= CLOSE_TAG && scratch.ptr.At? {
      var b := BlockOf(scratch.ptr.offset);
      assert scratch.ptr.offset == b * BLOCK_SIZE;
      assert !(b * BLOCK_SIZE <= k < b * BLOCK_SIZE + BLOCK_SIZE);
    }
  }

  /**
   * On a resident frame find_tag_location reports the first occurrence of the
   * marker in the frame as it was, whenever a scratch block is free, and it
   * leaves the frame intact.
   */
  lemma FindTagOnResident(usage: seq<bool>, mem: seq<char>, p: nat, t: string, kind: u8)
    requires |usage| == BLOCK_COUNT && |mem| == MEMORY_POOL_SIZE
    requires Resident(usage, mem, p) && ValidTag(t) && kind <= CLOSE_TAG
    ensures var r := FindTagSpec(usage, mem, At(p), Some(t), kind);
      && CStr(r.mem, p) == CStr(mem, p) && Resident(usage, r.mem, p)
      && (r.loc.At? ==> r.loc == Search(mem, p, Pattern(t, kind)))
      && ((exists j :: 0 <= j < BLOCK_COUNT && !usage[j]) ==> r.loc == Search(mem, p, Pattern(t, kind)))
  {
    var scratch := AllocateSpec(usage);
    var r := FindTagSpec(usage, mem, At(p), Some(t), kind);
    var pat := Pattern(t, kind);
    if scratch.ptr.At? {
      var b := BlockOf(scratch.ptr.offset);
      assert scratch.ptr.offset == b * BLOCK_SIZE;
      var m := WriteBytes(mem, b * BLOCK_SIZE, pat + [NUL]);
      assert r.mem == m && r.loc == Search(m, p, pat);
      ScratchWriteKeepsString(usage, mem, p, b, pat + [NUL]);
      assert Search(m, p, pat) == Search(mem, p, pat);
    } else {
      assert r.mem == mem && r.loc == Null;
    }
  }

  /** A successful `OccursAt` fixes the character at each position of the match. */
  lemma OccursAtChar(h: seq<char>, pat: seq<char>, i: nat, k: nat)
    requires OccursAt(h, pat, i) && k < |pat|
    ensures h[i + k] == pat[k]
  {
    assert h[i..i + |pat|][k] == h[i + k];
  }

  /** A non-zero difference of two 32-bit offsets stays non-zero as a size_t. */
  lemma SizeTNonZero(x: int)
    requires -(SIZE_T_MODULUS as int) < x < SIZE_T_MODULUS && x != 0
    ensures x % SIZE_T_MODULUS > 0
  {
  }

  /** strncpy of at least one byte from a non-NUL character starts with that character. */
  lemma FirstCopied(m: seq<char>, from: nat, len: nat)
    requires from < |m| && m[from] != NUL && len > 0
    ensures StrNCpy(m, from, len)[0] == m[from]
  {
    assert StrLen(m, from) > 0;
  }

  /** The character at offset `k` of a C string is the byte at `p + k`. */
  lemma CStrChar(m: seq<char>, p: nat, k: nat)
    requires p <= |m| && k < |CStr(m, p)|
    ensures m[p + k] == CStr(m, p)[k]
  {
  }

  /** extract_value_from_xml leaves a resident frame intact and, given valid arguments, reports XML_OK or BAD_XML. */
  lemma ExtractKeepsFrame(usage: seq<bool>, mem: seq<char>, p: nat, t: string, valueSize: nat)
    requires |usage| == BLOCK_COUNT && |mem| == MEMORY_POOL_SIZE
    requires Resident(usage, mem, p) && ValidTag(t) && valueSize > 0
    ensures var e := ExtractValueSpec(usage, mem, At(p), Some(t), true, valueSize);
      && CStr(e.mem, p) == CStr(mem, p) && Resident(usage, e.mem, p)
      && (e.status == XML_OK || e.status == BAD_XML)
  {
    var r1 := FindTagSpec(usage, mem, At(p), Some(t), CLOSE_TAG);
    FindTagOnResident(usage, mem, p, t, CLOSE_TAG);
    FindTagOnResident(usage, r1.mem, p, t, OPEN_TAG);
  }

  /**
   * When extract_value_from_xml succeeds on a resident frame, both searches
   * hit, the opening marker's hit lies after the closing marker's, and both
   * are the first occurrences in the frame as it was.
   */
  lemma ExtractOkHits(usage: seq<bool>, mem: seq<char>, p: nat, t: string, valueSize: nat)
    requires |usage| == BLOCK_COUNT && |mem| == MEMORY_POOL_SIZE
    requires Resident(usage, mem, p) && ValidTag(t) && valueSize > 0
    requires ExtractValueSpec(usage, mem, At(p), Some(t), true, valueSize).status == XML_OK
    ensures var r1 := FindTagSpec(usage, mem, At(p), Some(t), CLOSE_TAG);
      var r2 := FindTagSpec(usage, r1.mem, At(p), Some(t), OPEN_TAG);
      && r1.loc == Search(mem, p, Pattern(t, CLOSE_TAG)) && r1.loc.At?
      && r2.loc == Search(mem, p, Pattern(t, OPEN_TAG)) && r2.loc.At?
      && r1.loc.offset < r2.loc.offset
      && SpanAsWritten(r1.loc, r2.loc, |t|, valueSize).Some?
      && CStr(r2.mem, p) == CStr(mem, p) && Resident(usage, r2.mem, p)
  {
    var r1 := FindTagSpec(usage, mem, At(p), Some(t), CLOSE_TAG);
    FindTagOnResident(usage, mem, p, t, CLOSE_TAG);
    FindTagOnResident(usage, r1.mem, p, t, OPEN_TAG);
    var r2 := FindTagSpec(usage, r1.mem, At(p), Some(t), OPEN_TAG);
    assert SpanAsWritten(r1.loc, r2.loc, |t|, valueSize).Some?;
  }

  /**
   * When extract_value_from_xml succeeds on a resident frame `s`, the closing
   * marker occurs in `s` before the opening marker, and the stored value
   * starts with the `>` of the closing marker.
   */
  lemma ExtractOkOnResident(usage: seq<bool>, mem: seq<char>, p: nat, t: string, valueSize: nat)
    requires |usage| == BLOCK_COUNT && |mem| == MEMORY_POOL_SIZE
    requires Resident(usage, mem, p) && ValidTag(t) && valueSize > 0
    requires ExtractValueSpec(usage, mem, At(p), Some(t), true, valueSize).status == XML_OK
    ensures var s := CStr(mem, p);
      var close, open := StrStr(s, Pattern(t, CLOSE_TAG)), StrStr(s, Pattern(t, OPEN_TAG));
      close.Some? && open.Some? && close.value < open.value
    ensures var e := ExtractValueSpec(usage, mem, At(p), Some(t), true, valueSize);
      |e.written| >= 2 && e.written[0] == '>'
  {
    ExtractOkHits(usage, mem, p, t, valueSize);
    ExtractOkWritten(usage, mem, p, t, valueSize);
  }

  /** The value a successful extract_value_from_xml stores starts with the `>` of the closing marker. */
  lemma ExtractOkWritten(usage: seq<bool>, mem: seq<char>, p: nat, t: string, valueSize: nat)
    requires |usage| == BLOCK_COUNT && |mem| == MEMORY_POOL_SIZE
    requires Resident(usage, mem, p) && ValidTag(t) && valueSize > 0
    requires ExtractValueSpec(usage, mem, At(p), Some(t), true, valueSize).status == XML_OK
    ensures var e := ExtractValueSpec(usage, mem, At(p), Some(t), true, valueSize);
      |e.written| >= 2 && e.written[0] == '>'
  {
    ExtractOkHits(usage, mem, p, t, valueSize);
    var r1 := FindTagSpec(usage, mem, At(p), Some(t), CLOSE_TAG);
    var r2 := FindTagSpec(usage, r1.mem, At(p), Some(t), OPEN_TAG);
    ExtractOkStores(usage, mem, p, t, valueSize);
    WrittenFromHits(mem, r2.mem, p, r1.loc, r2.loc, t, valueSize);
  }

  /** The span between the first closing and the later first opening marker starts with `>`. */
  lemma WrittenFromHits(m0: seq<char>, m: seq<char>, p: nat, close: Ptr, open: Ptr, t: string, valueSize: nat)
    requires |m0| == |m| == MEMORY_POOL_SIZE && ValidTag(t) && CStr(m, p) == CStr(m0, p)
    requires close == Search(m0, p, Pattern(t, CLOSE_TAG)) && open == Search(m0, p, Pattern(t, OPEN_TAG))
    requires close.At? && open.At? && SpanAsWritten(close, open, |t|, valueSize).Some?
    ensures var span := SpanAsWritten(close, open, |t|, valueSize).value;
      span.len > 0 && StrNCpy(m, span.from, span.len)[0] == '>'
  {
    SpanStartsAtCloseMarker(m0, m, p, close.offset, open.offset, t, valueSize);
  }

  /** A successful extract_value_from_xml stores the strncpy of the span as written, and a terminator. */
  lemma ExtractOkStores(usage: seq<bool>, mem: seq<char>, p: nat, t: string, valueSize: nat)
    requires |usage| == BLOCK_COUNT && |mem| == MEMORY_POOL_SIZE && ValidTag(t) && valueSize > 0
    requires ExtractValueSpec(usage, mem, At(p), Some(t), true, valueSize).status == XML_OK
    ensures var r1 := FindTagSpec(usage, mem, At(p), Some(t), CLOSE_TAG);
      var r2 := FindTagSpec(usage, r1.mem, At(p), Some(t), OPEN_TAG);
      var span := SpanAsWritten(r1.loc, r2.loc, |t|, valueSize);
      && span.Some?
      && ExtractValueSpec(usage, mem, At(p), Some(t), true, valueSize).written
         == StrNCpy(r2.mem, span.value.from, span.value.len) + [NUL]
  {
  }

  /**
   * With the closing marker's hit as start and the opening marker's later
   * hit as end, the span as written is not empty and its first byte is the
   * `>` of the closing marker.
   */
  lemma SpanStartsAtCloseMarker(m0: seq<char>, m: seq<char>, p: nat, closeAt: nat, openAt: nat, t: string, valueSize: nat)
    requires |m0| == |m| == MEMORY_POOL_SIZE && ValidTag(t) && p <= closeAt < openAt
    requires CStr(m, p) == CStr(m0, p)
    requires OccursAt(CStr(m0, p), Pattern(t, CLOSE_TAG), closeAt - p)
    requires OccursAt(CStr(m0, p), Pattern(t, OPEN_TAG), openAt - p)
    requires SpanAsWritten(At(closeAt), At(openAt), |t|, valueSize).Some?
    ensures var span := SpanAsWritten(At(closeAt), At(openAt), |t|, valueSize).value;
      span.len > 0 && StrNCpy(m, span.from, span.len)[0] == '>'
  {
    var s := CStr(m0, p);
    var span := SpanAsWritten(At(closeAt), At(openAt), |t|, valueSize).value;
    var j, i := closeAt - p, openAt - p;
    OccursAtChar(s, Pattern(t, CLOSE_TAG), j, |t| + 2);
    OccursAtChar(s, Pattern(t, OPEN_TAG), i, 0);
    assert i < |s| && p + |s| <= |m|;
    SizeTNonZero(openAt - span.from);
    CStrChar(m, p, j + |t| + 2);
    FirstCopied(m, span.from, span.len);
  }

  /**
   * Any resident frame that begins with the opening marker `<tag>` — every
   * well-formed field — is rejected by extract_value_from_xml as BAD_XML.
   */
  lemma FieldOpeningFirstIsBadXml(usage: seq<bool>, mem: seq<char>, p: nat, t: string, valueSize: nat)
    requires |usage| == BLOCK_COUNT && |mem| == MEMORY_POOL_SIZE
    requires Resident(usage, mem, p) && ValidTag(t) && valueSize > 0
    requires OccursAt(CStr(mem, p), Pattern(t, OPEN_TAG), 0)
    ensures ExtractValueSpec(usage, mem, At(p), Some(t), true, valueSize).status == BAD_XML
  {
    ExtractKeepsFrame(usage, mem, p, t, valueSize);
    if ExtractValueSpec(usage, mem, At(p), Some(t), true, valueSize).status == XML_OK {
      ExtractOkOnResident(usage, mem, p, t, valueSize);
    }
  }

  /**
   * extract_command_and_params_from_xml never resolves a command in a
   * resident frame: every command value it extracts starts with `>`, so no
   * entry of g_cmd_list matches.
   */
  lemma ResidentCommandNeverResolves(usage: seq<bool>, mem: seq<char>, p: nat)
    requires |usage| == BLOCK_COUNT && |mem| == MEMORY_POOL_SIZE
    requires Resident(usage, mem, p)
    ensures var i := ExtractCommandSpec(usage, mem, At(p)).result.callbackIndex;
      i == NO_COMMAND_FOUND || i == BAD_XML
  {
    var c := ExtractValueSpec(usage, mem, At(p), Some(XML_TAG_CMD), true, CMD_AND_PARAM_LENGTH);
    ExtractKeepsFrame(usage, mem, p, XML_TAG_CMD, CMD_AND_PARAM_LENGTH);
    if c.status == XML_OK {
      ExtractOkOnResident(usage, mem, p, XML_TAG_CMD, CMD_AND_PARAM_LENGTH);
      MarkerStartIsNoCommand(c.written);
    }
  }

  /** A stored value starting with `>` names no entry of g_cmd_list. */
  lemma MarkerStartIsNoCommand(written: seq<char>)
    requires |written| >= 2 && written[0] == '>'
    ensures CommandIndex(Some(CStr(written, 0))) == NO_COMMAND_FOUND
  {
    var cmd := CStr(written, 0);
    assert StrLen(written, 0) > 0;
    assert cmd[0] == '>';
    assert Some(cmd) !in COMMAND_LIST by {
      assert COMMAND_LIST[0] == Some("LightOn") && COMMAND_LIST[1] == Some("GetHeater");
    }
  }

  /** Hence execute_callback_functions never runs a handler for a resident frame. */
  lemma NoHandlerEverRuns(usage: seq<bool>, mem: seq<char>, p: nat)
    requires |usage| == BLOCK_COUNT && |mem| == MEMORY_POOL_SIZE
    requires Resident(usage, mem, p)
    ensures var d := ExecuteCallbackFunctions(Some(ExtractCommandSpec(usage, mem, At(p)).result));
      d == Reported(Some("\nNo command was found\n")) || d == Reported(Some("\nBad XML\n"))
  {
    ResidentCommandNeverResolves(usage, mem, p);
  }

  /**
   * Whatever the frame, the parser's result never steers
   * execute_callback_functions into the NULL command entry or the NULL message.
   */
  lemma ParserAvoidsSentinels(usage: seq<bool>, mem: seq<char>, xml: Ptr)
    requires |usage| == BLOCK_COUNT && |mem| == MEMORY_POOL_SIZE
    ensures var d := ExecuteCallbackFunctions(Some(ExtractCommandSpec(usage, mem, xml).result));
      !d.NullCallback? && d != Reported(None)
  {
  }

  /** A character sequence holding neither `<` nor `/`, as the firmware's tag names do. */
  predicate PlainName(t: string) {
    forall k :: 0 <= k < |t| ==> t[k] != '<' && t[k] != '/'
  }

  /** A value holding no `<`. */
  predicate PlainValue(v: string) {
    forall k :: 0 <= k < |v| ==> v[k] != '<'
  }

  /** The well-formed field `<t>v</t>`. */
  function Field(t: string, v: string): (s: string)
    ensures |s| == 2 * |t| + |v| + 5
  {
    Pattern(t, OPEN_TAG) + v + Pattern(t, CLOSE_TAG)
  }

  /** A match that no earlier index has is what strstr reports. */
  lemma FirstOccurrence(h: seq<char>, pat: seq<char>, k: nat)
    requires OccursAt(h, pat, k)
    requires forall j: nat :: j < k ==> !OccursAt(h, pat, j)
    ensures StrStr(h, pat) == Some(k)
  {
  }

  /** In `<t>v</t>` the closing marker occurs nowhere before the end of `v`. */
  lemma NoEarlyClose(t: string, v: string)
    requires PlainName(t) && PlainValue(v)
    ensures forall j: nat :: j < |t| + 2 + |v| ==> !OccursAt(Field(t, v), Pattern(t, CLOSE_TAG), j)
  {
    var s, closePat := Field(t, v), Pattern(t, CLOSE_TAG);
    forall j: nat | j < |t| + 2 + |v|
      ensures !OccursAt(s, closePat, j)
    {
      assert s[j] != '<' || s[j + 1] != '/' by {
        if j == 0 {
          assert s[1] == if |t| > 0 then t[0] else '>';
        } else if j <= |t| {
          assert s[j] == t[j - 1];
        } else if j == |t| + 1 {
          assert s[j] == '>';
        } else {
          assert s[j] == v[j - |t| - 2];
        }
      }
      if OccursAt(s, closePat, j) {
        OccursAtChar(s, closePat, j, 0);
        OccursAtChar(s, closePat, j, 1);
      }
    }
  }

  /**
   * For a well-formed field `<t>v</t>` at offset `p`, the opening marker is
   * found at its start and the closing marker right after the value; the
   * span the comments of extract_value_from_xml describe is exactly `v`,
   * while the span as written rejects the field.
   */
  lemma IntendedExtractRoundTrip(p: nat, t: string, v: string, valueSize: nat)
    requires PlainName(t) && PlainValue(v) && |v| < valueSize
    ensures var s := Field(t, v);
      var open, close := StrStr(s, Pattern(t, OPEN_TAG)), StrStr(s, Pattern(t, CLOSE_TAG));
      && open == Some(0) && close == Some(|t| + 2 + |v|)
      && SpanIntended(At(p + open.value), At(p + close.value), |t|, valueSize) == Some(Span(p + |t| + 2, |v|))
      && s[|t| + 2..|t| + 2 + |v|] == v
      && SpanAsWritten(At(p + close.value), At(p + open.value), |t|, valueSize).None?
  {
    FieldHits(t, v);
  }

  /** In `<t>v</t>` strstr finds the opening marker at 0 and the closing marker right after `v`. */
  lemma FieldHits(t: string, v: string)
    requires PlainName(t) && PlainValue(v)
    ensures var s := Field(t, v);
      && StrStr(s, Pattern(t, OPEN_TAG)) == Some(0)
      && StrStr(s, Pattern(t, CLOSE_TAG)) == Some(|t| + 2 + |v|)
      && s[|t| + 2..|t| + 2 + |v|] == v
  {
    var openPat, closePat := Pattern(t, OPEN_TAG), Pattern(t, CLOSE_TAG);
    var s := Field(t, v);
    var k := |t| + 2 + |v|;
    assert s[..|openPat|] == openPat;
    FirstOccurrence(s, openPat, 0);
    assert s[k..k + |closePat|] == closePat;
    NoEarlyClose(t, v);
    FirstOccurrence(s, closePat, k);
    assert s[|t| + 2..k] == v;
  }
}
