/**
 * Byte memory and NUL-terminated strings, as the firmware's C code sees them.
 * Memory is a sequence of characters; a C string at an offset runs up to the
 * first NUL.  The model stops a string at the end of the memory it is given,
 * where C would go on reading whatever follows.
 */
module CStrings {
  import opened Wrappers

  const NUL: char := '\0'

  /** strlen: the number of characters before the first NUL at or after `p`. */
  function StrLen(mem: seq<char>, p: nat): (n: nat)
    ensures p <= |mem| ==> p + n <= |mem|
    ensures p >= |mem| ==> n == 0
    ensures forall k :: p <= k < p + n ==> mem[k] != NUL
    ensures p + n < |mem| ==> mem[p + n] == NUL
    decreases |mem| - p
  {
    if p >= |mem| || mem[p] == NUL then 0 else 1 + StrLen(mem, p + 1)
  }

  /** The C string stored at offset `p`, without its terminator. */
  function CStr(mem: seq<char>, p: nat): (s: seq<char>)
    ensures NUL !in s
    ensures p <= |mem| ==> p + |s| <= |mem|
  {
    if p >= |mem| then [] else mem[p..p + StrLen(mem, p)]
  }

  /**
   * `bytes` written into `mem` from offset `at`; bytes that would land past
   * the end of `mem` are dropped.
   */
  function WriteBytes(mem: seq<char>, at: nat, bytes: seq<char>): (r: seq<char>)
    ensures |r| == |mem|
  {
    seq(|mem|, i requires 0 <= i < |mem| => if at <= i < at + |bytes| then bytes[i - at] else mem[i])
  }

  /** `pat` occurs in `h` starting at index `i`. */
  predicate OccursAt(h: seq<char>, pat: seq<char>, i: nat) {
    i + |pat| <= |h| && h[i..i + |pat|] == pat
  }

  /** strstr from index `from` on: the first index at which `pat` occurs. */
  function FindFrom(h: seq<char>, pat: seq<char>, from: nat): (r: Option<nat>)
    ensures r.Some? ==> from <= r.value && OccursAt(h, pat, r.value)
    ensures r.Some? ==> forall j :: from <= j < r.value ==> !OccursAt(h, pat, j)
    ensures r.None? ==> forall j :: from <= j ==> !OccursAt(h, pat, j)
    decreases |h| - from
  {
    if from + |pat| > |h| then None
    else if h[from..from + |pat|] == pat then Some(from)
    else FindFrom(h, pat, from + 1)
  }

  /** strstr: the index of the first occurrence of `pat` in `h`, if any. */
  function StrStr(h: seq<char>, pat: seq<char>): (r: Option<nat>)
    ensures r.Some? <==> exists j :: OccursAt(h, pat, j)
    ensures r.Some? ==> OccursAt(h, pat, r.value) && forall j: nat :: j < r.value ==> !OccursAt(h, pat, j)
  {
    FindFrom(h, pat, 0)
  }

  /** strlen is determined by where the first NUL is. */
  lemma StrLenIs(mem: seq<char>, p: nat, n: nat)
    requires p + n < |mem| && mem[p + n] == NUL
    requires forall k :: p <= k < p + n ==> mem[k] != NUL
    ensures StrLen(mem, p) == n
  {
  }

  /**
   * Two memories that agree on a C string and its terminator hold the same
   * C string there.
   */
  lemma CStrAgree(mem: seq<char>, mem': seq<char>, p: nat)
    requires |mem'| == |mem| && p + StrLen(mem, p) < |mem|
    requires forall k :: p <= k <= p + StrLen(mem, p) ==> mem'[k] == mem[k]
    ensures StrLen(mem', p) == StrLen(mem, p)
    ensures CStr(mem', p) == CStr(mem, p)
  {
    StrLenIs(mem', p, StrLen(mem, p));
  }

  /** A NUL `k` bytes after `p` bounds the C string there by `k`. */
  lemma {:induction false} StrLenAtMost(mem: seq<char>, p: nat, k: nat)
    requires p + k < |mem| && mem[p + k] == NUL
    ensures StrLen(mem, p) <= k
    decreases k
  {
    if mem[p] != NUL {
      StrLenAtMost(mem, p + 1, k - 1);
    }
  }
}
