/** The handful of Python `str` operations the modelled code relies on:
    `startswith`, `find`/`in`, `split(sep)`, `sep.join(parts)`, `strip()`
    and `lower()` (restricted to ASCII, see `LowerAscii`). */
module Strings {

  /** Python's `s.startswith(prefix)`. */
  predicate StartsWith(s: string, prefix: string) {
    |prefix| <= |s| && s[..|prefix|] == prefix
  }

  lemma StartsWithAppend(prefix: string, a: string, b: string)
    ensures StartsWith(prefix + a + b, prefix)
  {
    assert (prefix + a + b)[..|prefix|] == prefix;
  }

  /** `sep` occurs in `s` starting at index `i`. */
  predicate OccursAt(s: string, sep: string, i: int) {
    0 <= i && i + |sep| <= |s| && s[i..i + |sep|] == sep
  }

  /** Index of the first occurrence of a non-empty `sep` in `s`, or `|s|`
      when there is none (Python's `s.find(sep)` with -1 read as `|s|`). */
  function Find(s: string, sep: string): (i: nat)
    requires |sep| > 0
    ensures i <= |s|
    ensures i < |s| ==> OccursAt(s, sep, i)
    ensures forall k :: 0 <= k < i ==> !OccursAt(s, sep, k)
    decreases |s|
  {
    if |s| < |sep| then |s|
    else if s[..|sep|] == sep then 0
    else
      var i := 1 + Find(s[1..], sep);
      OccursShift(s, sep);
      i
  }

  /** An occurrence at `k >= 1` in `s` is an occurrence at `k - 1` in `s[1..]`. */
  lemma OccursShift(s: string, sep: string)
    requires |s| > 0
    ensures forall k :: 1 <= k ==> OccursAt(s, sep, k) == OccursAt(s[1..], sep, k - 1)
  {
    forall k | 1 <= k
      ensures OccursAt(s, sep, k) == OccursAt(s[1..], sep, k - 1)
    {
      if k + |sep| <= |s| {
        var a, b := s[k..k + |sep|], s[1..][k - 1..k - 1 + |sep|];
        forall j | 0 <= j < |sep|
          ensures a[j] == b[j]
        {
          assert a[j] == s[k + j];
          assert b[j] == s[1..][k - 1 + j];
        }
        assert a == b;
      }
    }
  }

  /** Python's `sep in s`. */
  predicate Contains(s: string, sep: string)
    requires |sep| > 0
  {
    Find(s, sep) < |s|
  }

  /** Python's `sep.join(parts)`. */
  function Join(parts: seq<string>, sep: string): string
  {
    if |parts| == 0 then ""
    else if |parts| == 1 then parts[0]
    else parts[0] + sep + Join(parts[1..], sep)
  }

  /** The text before the first occurrence of `sep` never contains `sep`. */
  lemma BeforeFirstHasNoSeparator(s: string, sep: string)
    requires |sep| > 0
    ensures !Contains(s[..Find(s, sep)], sep)
  {
    var i := Find(s, sep);
    var p := s[..i];
    if Contains(p, sep) {
      var k := Find(p, sep);
      assert p[k..k + |sep|] == s[k..k + |sep|];
      assert OccursAt(s, sep, k);
      assert false;
    }
  }

  /** Python's `s.split(sep)` for a non-empty separator: the pieces between
      the non-overlapping occurrences of `sep`, scanned left to right. The
      pieces joined back with `sep` give `s`, and no piece holds `sep`. */
  function Split(s: string, sep: string): (parts: seq<string>)
    requires |sep| > 0
    ensures |parts| >= 1
    ensures parts[0] == s[..Find(s, sep)]
    ensures |parts| >= 2 <==> Contains(s, sep)
    ensures Join(parts, sep) == s
    ensures forall p :: p in parts ==> !Contains(p, sep)
    decreases |s|
  {
    var i := Find(s, sep);
    BeforeFirstHasNoSeparator(s, sep);
    if i == |s| then
      assert s[..i] == s;
      [s]
    else
      var rest := Split(s[i + |sep|..], sep);
      assert s == s[..i] + sep + s[i + |sep|..];
      [s[..i]] + rest
  }

  /** Splitting on one character undoes joining on it, provided no part
      contains that character: `"\n".join(ls).split("\n") == ls`. */
  lemma {:induction false} SplitJoinSingleChar(parts: seq<string>, c: char)
    requires |parts| >= 1
    requires forall p :: p in parts ==> c !in p
    ensures Split(Join(parts, [c]), [c]) == parts
    decreases |parts|
  {
    var sep := [c];
    var s := Join(parts, sep);
    if |parts| == 1 {
      NoCharNoOccurrence(parts[0], c);
      assert s[..Find(s, sep)] == s;
    } else {
      var p := parts[0];
      var tail := Join(parts[1..], sep);
      assert s == p + sep + tail;
      NoCharNoOccurrence(p, c);
      assert OccursAt(s, sep, |p|);
      forall k | 0 <= k < |p|
        ensures !OccursAt(s, sep, k)
      {
        assert s[k] == p[k];
      }
      assert Find(s, sep) == |p|;
      assert s[|p| + 1..] == tail;
      assert s[..|p|] == p;
      SplitJoinSingleChar(parts[1..], c);
    }
  }

  lemma NoCharNoOccurrence(s: string, c: char)
    requires c !in s
    ensures Find(s, [c]) == |s|
  {
    forall k | 0 <= k < |s|
      ensures !OccursAt(s, [c], k)
    {
      assert s[k..k + 1][0] == s[k];
    }
  }

  /** Python's `str.isspace()` for one character: the Unicode whitespace
      set that `str.strip()` removes by default. */
  predicate IsSpace(c: char) {
    || ('\U{0009}' <= c <= '\U{000D}')
    || ('\U{001C}' <= c <= '\U{0020}')
    || c == '\U{0085}' || c == '\U{00A0}' || c == '\U{1680}'
    || ('\U{2000}' <= c <= '\U{200A}')
    || c == '\U{2028}' || c == '\U{2029}' || c == '\U{202F}'
    || c == '\U{205F}' || c == '\U{3000}'
  }

  predicate AllSpace(s: string) {
    forall k :: 0 <= k < |s| ==> IsSpace(s[k])
  }

  /** `s.lstrip()`: `s` without its leading whitespace. */
  function StripStart(s: string): (r: string)
    ensures exists pre :: AllSpace(pre) && s == pre + r
    ensures |r| > 0 ==> !IsSpace(r[0])
    decreases |s|
  {
    if |s| > 0 && IsSpace(s[0]) then
      var r := StripStart(s[1..]);
      ghost var pre :| AllSpace(pre) && s[1..] == pre + r;
      assert s == [s[0]] + pre + r;
      assert AllSpace([s[0]] + pre);
      r
    else
      assert s == [] + s;
      s
  }

  /** `s.rstrip()`: `s` without its trailing whitespace; a prefix of `s`. */
  function StripEnd(s: string): (r: string)
    ensures |r| <= |s| && r == s[..|r|]
    ensures AllSpace(s[|r|..])
    ensures |r| > 0 ==> !IsSpace(r[|r| - 1])
    decreases |s|
  {
    if |s| > 0 && IsSpace(s[|s| - 1]) then
      var t := s[..|s| - 1];
      var r := StripEnd(t);
      assert r == s[..|r|];
      assert s[|r|..] == t[|r|..] + [s[|s| - 1]];
      r
    else
      s
  }

  /** Python's `s.strip()`: `s` is the result with only whitespace added on
      either side, and the result neither starts nor ends with whitespace. */
  function Strip(s: string): (r: string)
    ensures exists pre, post :: AllSpace(pre) && AllSpace(post) && s == pre + r + post
    ensures |r| > 0 ==> !IsSpace(r[0]) && !IsSpace(r[|r| - 1])
  {
    var t := StripStart(s);
    var r := StripEnd(t);
    ghost var pre :| AllSpace(pre) && s == pre + t;
    assert t == r + t[|r|..];
    assert s == pre + r + t[|r|..];
    assert |r| > 0 ==> r[0] == t[0];
    r
  }

  /** Stripping twice is stripping once. */
  lemma StripIdempotent(s: string)
    ensures Strip(Strip(s)) == Strip(s)
  {
    var r := Strip(s);
    assert StripStart(r) == r;
    assert StripEnd(r) == r;
  }

  /** Python's `c.lower()` on the ASCII capitals; every other character is
      left alone. */
  function LowerChar(c: char): (d: char)
    ensures 'A' <= c <= 'Z' ==> 'a' <= d <= 'z' && d as int - c as int == 32
    ensures !('A' <= c <= 'Z') ==> d == c
  {
    if 'A' <= c <= 'Z' then (c as int + 32) as char else c
  }

  /** `s.lower()` restricted to ASCII capitals. Compared with an all-ASCII
      lower-case word that contains no `k` this is exact: the only other
      characters Python lowers to ASCII are U+212A (to `k`) and U+0130
      (to `i` followed by U+0307, which changes the length). */
  function LowerAscii(s: string): (r: string)
    ensures |r| == |s|
    ensures forall k :: 0 <= k < |s| ==> r[k] == LowerChar(s[k])
  {
    seq(|s|, k requires 0 <= k < |s| => LowerChar(s[k]))
  }
}
