/**
 * The few `String.prototype` operations the core relies on: `indexOf`,
 * `includes`, `trim` and `slice`, with the semantics ECMAScript gives them
 * (strings as sequences of characters).
 */
module JsString {

  /** `t` occurs in `s` starting at index `i`. */
  predicate OccursAt(s: string, t: string, i: int)
  {
    0 <= i && i + |t| <= |s| && s[i..i + |t|] == t
  }

  /** `t` occurs somewhere in `s`. */
  ghost predicate Occurs(s: string, t: string)
  {
    exists i :: OccursAt(s, t, i)
  }

  /** The search of `indexOf`, starting at index `k`. */
  function IndexFrom(s: string, t: string, k: nat): (r: int)
    decreases |s| - k
    ensures r == -1 || (k <= r && OccursAt(s, t, r))
    ensures r == -1 ==> forall i :: k <= i ==> !OccursAt(s, t, i)
    ensures r >= 0 ==> forall i :: k <= i < r ==> !OccursAt(s, t, i)
  {
    if k + |t| > |s| then -1
    else if s[k..k + |t|] == t then k
    else IndexFrom(s, t, k + 1)
  }

  /** `s.indexOf(t)`: the first index at which `t` occurs in `s`, or -1. */
  function IndexOf(s: string, t: string): (r: int)
    ensures r >= -1
    ensures r == -1 <==> !Occurs(s, t)
    ensures r >= 0 ==> OccursAt(s, t, r) && forall i :: 0 <= i < r ==> !OccursAt(s, t, i)
  {
    IndexFrom(s, t, 0)
  }

  /** `s.includes(t)`. */
  function Includes(s: string, t: string): (b: bool)
    ensures b <==> Occurs(s, t)
  {
    IndexOf(s, t) >= 0
  }

  /** The characters `trim` removes: ECMAScript WhiteSpace and LineTerminator. */
  predicate IsJsWhitespace(c: char)
  {
    var n := c as int;
    n == 0x09 || n == 0x0A || n == 0x0B || n == 0x0C || n == 0x0D || n == 0x20
    || n == 0xA0 || n == 0x1680 || (0x2000 <= n <= 0x200A) || n == 0x2028
    || n == 0x2029 || n == 0x202F || n == 0x205F || n == 0x3000 || n == 0xFEFF
  }

  /** Every character of `s` is whitespace. */
  predicate AllWhitespace(s: string)
  {
    forall i :: 0 <= i < |s| ==> IsJsWhitespace(s[i])
  }

  /** `s` with its leading whitespace removed: a suffix of `s`. */
  function TrimStart(s: string): (r: string)
    ensures |r| <= |s| && r == s[|s| - |r|..]
    ensures AllWhitespace(s[..|s| - |r|])
    ensures r != [] ==> !IsJsWhitespace(r[0])
  {
    if s != [] && IsJsWhitespace(s[0]) then
      var r := TrimStart(s[1..]);
      assert s[..|s| - |r|] == [s[0]] + s[1..][..|s[1..]| - |r|];
      r
    else s
  }

  /** `s` with its trailing whitespace removed: a prefix of `s`. */
  function TrimEnd(s: string): (r: string)
    ensures |r| <= |s| && r == s[..|r|]
    ensures AllWhitespace(s[|r|..])
    ensures r != [] ==> !IsJsWhitespace(r[|r| - 1])
  {
    if s != [] && IsJsWhitespace(s[|s| - 1]) then
      var r := TrimEnd(s[..|s| - 1]);
      assert s[|r|..] == s[..|s| - 1][|r|..] + [s[|s| - 1]];
      r
    else s
  }

  /** The number of whitespace characters `trim` removes from the front of `s`. */
  function LeadingWhitespace(s: string): (n: nat)
    ensures n <= |s| && AllWhitespace(s[..n])
    ensures n < |s| ==> !IsJsWhitespace(s[n])
  {
    |s| - |TrimStart(s)|
  }

  /**
   * `s.trim()`: the part of `s` between its leading and its trailing
   * whitespace, neither end of which is whitespace.
   */
  function Trim(s: string): (r: string)
    ensures |r| <= |s|
    ensures OccursAt(s, r, LeadingWhitespace(s))
    ensures AllWhitespace(s[LeadingWhitespace(s) + |r|..])
    ensures r != [] ==> !IsJsWhitespace(r[0]) && !IsJsWhitespace(r[|r| - 1])
  {
    var a := TrimStart(s);
    var i := |s| - |a|;
    var r := TrimEnd(a);
    assert a == s[i..];
    assert r == a[..|r|];
    assert a[..|r|] == s[i..i + |r|];
    assert a[|r|..] == s[i + |r|..];
    r
  }

  /** `trim` leaves a string alone when neither of its ends is whitespace. */
  lemma TrimUnchanged(s: string)
    requires s != [] && !IsJsWhitespace(s[0]) && !IsJsWhitespace(s[|s| - 1])
    ensures Trim(s) == s
  {
    assert TrimStart(s) == s;
    assert TrimEnd(s) == s;
  }

  /** How `slice` turns a relative index into a position in a string of length `n`. */
  function ClampIndex(i: int, n: nat): (r: nat)
    ensures r <= n
    ensures 0 <= i <= n ==> r == i
    ensures i < 0 && n + i >= 0 ==> r == n + i
    ensures n + i < 0 ==> r == 0
    ensures i > n ==> r == n
  {
    if i < 0 then (if n + i < 0 then 0 else n + i)
    else if i > n then n
    else i
  }

  /**
   * `s.slice(from, to)`: negative positions count from the end, positions
   * are clamped to the string, and an empty string results when the
   * clamped start is not before the clamped end.
   */
  function Slice(s: string, from: int, to: int): (r: string)
    ensures var a, b := ClampIndex(from, |s|), ClampIndex(to, |s|);
      |r| == (if a < b then b - a else 0)
  {
    var a, b := ClampIndex(from, |s|), ClampIndex(to, |s|);
    if a < b then s[a..b] else []
  }

  /** The characters of a slice are those of the string from the clamped start on. */
  lemma SliceContents(s: string, from: int, to: int)
    ensures var a := ClampIndex(from, |s|);
      forall k :: 0 <= k < |Slice(s, from, to)| ==> Slice(s, from, to)[k] == s[a + k]
  {
  }

  /** Within bounds, `slice` is plain sub-sequence extraction. */
  lemma SliceInBounds(s: string, from: int, to: int)
    requires 0 <= from <= to <= |s|
    ensures Slice(s, from, to) == s[from..to]
  {
    SliceContents(s, from, to);
  }

  /** An end position past the string is clamped to the string's end. */
  lemma SlicePastEnd(s: string, from: int, to: int)
    requires 0 <= from <= |s| <= to
    ensures Slice(s, from, to) == s[from..]
  {
    SliceContents(s, from, to);
  }

  /** Positions at or after each other give the empty string. */
  lemma SliceCrossed(s: string, from: int, to: int)
    requires 0 <= to <= from
    ensures Slice(s, from, to) == []
  {
  }
}
