/**
 * The Python string operations the pipeline relies on, with their documented
 * semantics: `str.startswith`, slicing `s[:n]`, `str.strip()`, `str.split(sep)`,
 * `sep.join(parts)`, `str.find`, `str.rfind` and `str(int)`.
 * Characters are Unicode code points, as in Python 3 strings.
 */
module Strings {

  /** `s.startswith(p)` */
  predicate StartsWith(s: string, p: string) {
    |p| <= |s| && s[..|p|] == p
  }

  /** `s[:n]` for a non-negative `n`: at most the first `n` characters. */
  function Take(s: string, n: nat): (r: string)
    ensures |r| <= n && |r| <= |s|
    ensures |s| <= n ==> r == s
    ensures |s| > n ==> |r| == n
    ensures StartsWith(s, r)
  {
    if |s| <= n then s else s[..n]
  }

  /** The characters for which Python's `str.isspace()` holds; `str.strip()` removes exactly these. */
  predicate IsSpace(c: char) {
    || c == ' ' || c == '\t' || c == '\n' || c == '\r' || c == '\U{B}' || c == '\U{C}'
    || ('\U{1C}' <= c <= '\U{1F}') || c == '\U{85}' || c == '\U{A0}' || c == '\U{1680}'
    || ('\U{2000}' <= c <= '\U{200A}') || c == '\U{2028}' || c == '\U{2029}'
    || c == '\U{202F}' || c == '\U{205F}' || c == '\U{3000}'
  }

  predicate AllSpace(s: string) {
    forall k :: 0 <= k < |s| ==> IsSpace(s[k])
  }

  /** `s.lstrip()`: the suffix of `s` left after dropping leading whitespace. */
  function StripStart(s: string): (r: string)
    ensures |r| <= |s| && r == s[|s| - |r|..]
    ensures AllSpace(s[..|s| - |r|])
    ensures r == [] || !IsSpace(r[0])
    decreases |s|
  {
    if s != [] && IsSpace(s[0]) then
      var r := StripStart(s[1..]);
      assert s[..|s| - |r|] == [s[0]] + s[1..][..|s| - 1 - |r|];
      r
    else
      s
  }

  /** `s.rstrip()`: the prefix of `s` left after dropping trailing whitespace. */
  function StripEnd(s: string): (r: string)
    ensures |r| <= |s| && r == s[..|r|]
    ensures AllSpace(s[|r|..])
    ensures r == [] || !IsSpace(r[|r| - 1])
    decreases |s|
  {
    if s != [] && IsSpace(s[|s| - 1]) then
      var r := StripEnd(s[..|s| - 1]);
      assert s[|r|..] == s[..|s| - 1][|r|..] + [s[|s| - 1]];
      r
    else
      s
  }

  /** `r` is the slice of `s` that starts at index `i`. */
  predicate SliceAt(r: string, s: string, i: int) {
    0 <= i && i + |r| <= |s| && s[i..i + |r|] == r
  }

  lemma AllSpaceConcat(a: string, b: string)
    requires AllSpace(a) && AllSpace(b)
    ensures AllSpace(a + b)
  {
  }

  /** Stripping both ends keeps a slice; it is empty exactly when everything removed was whitespace. */
  lemma StripSlice(s: string, t: string, r: string)
    requires |t| <= |s| && t == s[|s| - |t|..] && AllSpace(s[..|s| - |t|])
    requires |r| <= |t| && r == t[..|r|] && AllSpace(t[|r|..])
    requires r == [] || !IsSpace(r[0])
    ensures SliceAt(r, s, |s| - |t|)
    ensures AllSpace(s[|s| - |t| + |r|..])
    ensures r == [] <==> AllSpace(s)
  {
    var m := |s| - |t|;
    assert s == s[..m] + t;
    assert s[m + |r|..] == t[|r|..];
    if r == [] {
      assert t[|r|..] == t;
      AllSpaceConcat(s[..m], t);
    } else {
      assert s[m] == r[0];
    }
  }

  /**
   * `s.strip()`: a slice of `s` that neither starts nor ends with whitespace,
   * and is empty exactly when `s` is all whitespace; everything cut off
   * before and after it is whitespace.
   */
  function Strip(s: string): (r: string)
    ensures r == [] || (!IsSpace(r[0]) && !IsSpace(r[|r| - 1]))
    ensures r == [] <==> AllSpace(s)
    ensures SliceAt(r, s, LeadingSpace(s))
    ensures AllSpace(s[..LeadingSpace(s)]) && AllSpace(s[LeadingSpace(s) + |r|..])
  {
    var t := StripStart(s);
    var r := StripEnd(t);
    StripSlice(s, t, r);
    assert LeadingSpace(s) == |s| - |t|;
    r
  }

  /** How many characters `strip()` cuts from the front of `s`. */
  function LeadingSpace(s: string): nat {
    |s| - |StripStart(s)|
  }

  /** `sep` occurs in `s` starting at index `i`. */
  predicate OccursAt(s: string, sep: string, i: int) {
    0 <= i && i + |sep| <= |s| && s[i..i + |sep|] == sep
  }

  /** `sep in s` */
  ghost predicate Contains(s: string, sep: string) {
    exists i :: OccursAt(s, sep, i)
  }

  /** `s.find(sep)`: the index of the first occurrence of `sep`, or -1. */
  function IndexOf(s: string, sep: string): (i: int)
    requires |sep| > 0
    ensures -1 <= i < |s|
    ensures i >= 0 ==> OccursAt(s, sep, i)
    ensures forall k :: 0 <= k && (i < 0 || k < i) ==> !OccursAt(s, sep, k)
    decreases |s|
  {
    if |s| < |sep| then -1
    else if s[..|sep|] == sep then 0
    else
      var j := IndexOf(s[1..], sep);
      ShiftOccurrence(s, sep);
      assert s[0..|sep|] == s[..|sep|];
      if j < 0 then -1 else j + 1
  }

  /** An occurrence in `s[1..]` at `k - 1` is an occurrence in `s` at `k`. */
  lemma ShiftOccurrence(s: string, sep: string)
    requires |s| > 0
    ensures forall k :: 1 <= k ==> (OccursAt(s[1..], sep, k - 1) <==> OccursAt(s, sep, k))
  {
    forall k | 1 <= k
      ensures OccursAt(s[1..], sep, k - 1) <==> OccursAt(s, sep, k)
    {
      if k + |sep| <= |s| {
        assert s[1..][k - 1..k - 1 + |sep|] == s[k..k + |sep|];
      }
    }
  }

  /** `sep.join(parts)` */
  function Join(parts: seq<string>, sep: string): string {
    if |parts| == 0 then ""
    else if |parts| == 1 then parts[0]
    else parts[0] + sep + Join(parts[1..], sep)
  }

  /**
   * `s.split(sep)`: the pieces between non-overlapping occurrences of `sep`,
   * found left to right. Joining the pieces with `sep` gives back `s`, and no
   * piece contains `sep`.
   */
  function SplitOn(s: string, sep: string): (parts: seq<string>)
    requires |sep| > 0
    ensures |parts| >= 1
    ensures Join(parts, sep) == s
    ensures forall k :: 0 <= k < |parts| ==> !Contains(parts[k], sep)
    decreases |s|
  {
    var i := IndexOf(s, sep);
    if i < 0 then
      [s]
    else
      var rest := SplitOn(s[i + |sep|..], sep);
      PrefixBeforeFirstOccurrence(s, sep, i);
      assert s == s[..i] + sep + s[i + |sep|..];
      [s[..i]] + rest
  }

  /**
   * No occurrence of `sep` starts inside `piece` when a separator follows it,
   * not even one running into that separator.
   */
  ghost predicate CutAtFirst(piece: string, sep: string)
    requires |sep| > 0
  {
    !Contains(piece + sep[..|sep| - 1], sep)
  }

  /**
   * `split` cuts at the leftmost occurrence each time: every piece but the
   * last is cut at the first occurrence of `sep` after its start.
   */
  lemma {:induction false} SplitOnLeftmost(s: string, sep: string)
    requires |sep| > 0
    ensures forall k :: 0 <= k < |SplitOn(s, sep)| - 1 ==> CutAtFirst(SplitOn(s, sep)[k], sep)
    decreases |s|
  {
    var i := IndexOf(s, sep);
    if i >= 0 {
      var rest := SplitOn(s[i + |sep|..], sep);
      SplitOnLeftmost(s[i + |sep|..], sep);
      FirstCut(s, sep, i);
      CutsCons(s[..i], rest, sep);
    }
  }

  /** The text before the first occurrence of `sep` is cut at that occurrence. */
  lemma FirstCut(s: string, sep: string, i: int)
    requires |sep| > 0 && OccursAt(s, sep, i)
    requires forall k :: 0 <= k < i ==> !OccursAt(s, sep, k)
    ensures CutAtFirst(s[..i], sep)
  {
    NoOccurrenceBefore(s, sep, i);
    var pre := s[..i + |sep| - 1];
    forall j | i <= j < |pre|
      ensures pre[j] == sep[j - i]
    {
      assert s[i..i + |sep|][j - i] == s[j];
    }
    assert pre == s[..i] + sep[..|sep| - 1];
  }

  /** Prepending a piece cut at its first occurrence keeps every piece but the last cut there. */
  lemma CutsCons(head: string, rest: seq<string>, sep: string)
    requires |sep| > 0 && |rest| >= 1 && CutAtFirst(head, sep)
    requires forall j :: 0 <= j < |rest| - 1 ==> CutAtFirst(rest[j], sep)
    ensures forall k :: 0 <= k < |[head] + rest| - 1 ==> CutAtFirst(([head] + rest)[k], sep)
  {
    forall k | 1 <= k < |[head] + rest| - 1
      ensures CutAtFirst(([head] + rest)[k], sep)
    {
      assert ([head] + rest)[k] == rest[k - 1];
    }
  }

  /** When `sep` first occurs at `i`, no occurrence fits in the text before `i + |sep| - 1`. */
  lemma NoOccurrenceBefore(s: string, sep: string, i: int)
    requires |sep| > 0 && 0 <= i && i + |sep| <= |s|
    requires forall k :: 0 <= k < i ==> !OccursAt(s, sep, k)
    ensures !Contains(s[..i + |sep| - 1], sep)
  {
    var m := i + |sep| - 1;
    forall k | 0 <= k && k + |sep| <= m
      ensures !OccursAt(s[..m], sep, k)
    {
      assert s[..m][k..k + |sep|] == s[k..k + |sep|];
      assert !OccursAt(s, sep, k);
    }
  }

  /** The text before the first occurrence of `sep` does not contain `sep`. */
  lemma PrefixBeforeFirstOccurrence(s: string, sep: string, i: int)
    requires |sep| > 0 && 0 <= i <= |s|
    requires forall k :: 0 <= k < i ==> !OccursAt(s, sep, k)
    ensures !Contains(s[..i], sep)
  {
    if Contains(s[..i], sep) {
      var k :| OccursAt(s[..i], sep, k);
      assert s[..i][k..k + |sep|] == s[k..k + |sep|];
      assert OccursAt(s, sep, k);
      assert false;
    }
  }

  /** `s.find(c)` for a single character: the first index of `c`, or -1. */
  function Find(s: string, c: char): (i: int)
    ensures -1 <= i < |s|
    ensures i == -1 <==> c !in s
    ensures i >= 0 ==> s[i] == c && c !in s[..i]
    decreases |s|
  {
    if s == [] then -1
    else if s[0] == c then 0
    else
      var j := Find(s[1..], c);
      assert s == [s[0]] + s[1..];
      if j < 0 then -1
      else
        assert s[..j + 1] == [s[0]] + s[1..][..j];
        j + 1
  }

  /** `s.rfind(c)` for a single character: the last index of `c`, or -1. */
  function RFind(s: string, c: char): (i: int)
    ensures -1 <= i < |s|
    ensures i == -1 <==> c !in s
    ensures i >= 0 ==> s[i] == c && c !in s[i + 1..]
    decreases |s|
  {
    if s == [] then -1
    else if s[|s| - 1] == c then |s| - 1
    else
      var j := RFind(s[..|s| - 1], c);
      assert s == s[..|s| - 1] + [s[|s| - 1]];
      if j >= 0 then
        assert s[j + 1..] == s[..|s| - 1][j + 1..] + [s[|s| - 1]];
        j
      else
        j
  }

  predicate IsDigit(c: char) {
    '0' <= c <= '9'
  }

  predicate AllDigits(s: string) {
    forall k :: 0 <= k < |s| ==> IsDigit(s[k])
  }

  function DigitValue(c: char): nat
    requires IsDigit(c)
  {
    (c as int) - ('0' as int)
  }

  /** The number a string of decimal digits denotes. */
  function DecimalValue(s: string): nat
    requires AllDigits(s)
  {
    if s == [] then 0 else DecimalValue(s[..|s| - 1]) * 10 + DigitValue(s[|s| - 1])
  }

  function DigitChar(d: nat): (c: char)
    requires d < 10
    ensures IsDigit(c) && DigitValue(c) == d
  {
    "0123456789"[d]
  }

  /** `str(n)` for `n >= 0`: the shortest decimal numeral of `n`, read back by `DecimalValue`. */
  function NatToString(n: nat): (r: string)
    ensures |r| >= 1 && AllDigits(r) && DecimalValue(r) == n
    ensures |r| > 1 ==> r[0] != '0'
    ensures n < 10 <==> |r| == 1
    decreases n
  {
    if n < 10 then
      [DigitChar(n)]
    else
      var p := NatToString(n / 10);
      var r := p + [DigitChar(n % 10)];
      assert r[..|r| - 1] == p;
      r
  }

  /** `str(n)` for any integer: a minus sign before the numeral of `-n` when negative. */
  function IntToString(n: int): (r: string)
    ensures |r| >= 1
    ensures n >= 0 ==> r == NatToString(n)
    ensures n < 0 ==> |r| >= 2 && r[0] == '-' && r[1..] == NatToString(-n)
  {
    if n < 0 then "-" + NatToString(-n) else NatToString(n)
  }
}
