/**
 * The cache key of a content (`hashContent`): the content itself when it is
 * at most 100 characters long, otherwise the `String.hashCode` recurrence
 * `hash*31 + code` kept in a signed 32-bit integer and rendered by
 * `Number.prototype.toString(16)`.
 */
module Fingerprint {
  import opened Wrappers
  import opened JsString

  /** Contents up to this length are their own key. */
  const MaxRawLength := 100

  const TwoTo31 := 0x8000_0000
  const TwoTo32 := 0x1_0000_0000

  predicate IsInt32(x: int)
  {
    -TwoTo31 <= x < TwoTo31
  }

  /** ECMAScript ToInt32: the signed 32-bit integer congruent to `x` modulo 2^32. */
  function Wrap32(x: int): (r: int)
    ensures IsInt32(r)
    ensures (x - r) % TwoTo32 == 0
  {
    (x + TwoTo31) % TwoTo32 - TwoTo31
  }

  /** Two integers that differ by a multiple of 2^32 wrap to the same value. */
  lemma Wrap32Shift(x: int, k: int)
    ensures Wrap32(x + k * TwoTo32) == Wrap32(x)
  {
    var a, b := x + k * TwoTo32, x;
    var ra, rb := Wrap32(a), Wrap32(b);
    var qa, qb := (a + TwoTo31) / TwoTo32, (b + TwoTo31) / TwoTo32;
    assert a + TwoTo31 == qa * TwoTo32 + (ra + TwoTo31);
    assert b + TwoTo31 == qb * TwoTo32 + (rb + TwoTo31);
    assert (ra - rb) == (k + qb - qa) * TwoTo32;
  }

  /**
   * One step of the source's loop: `hash = ((hash << 5) - hash) + code`
   * followed by `hash |= 0`, where `<<` wraps its result to 32 bits, is the
   * same as wrapping `hash*31 + code` once.
   */
  lemma ShiftStep(h: int, code: int)
    ensures Wrap32(Wrap32(h * 32) - h + code) == Wrap32(h * 31 + code)
  {
    var w := Wrap32(h * 32);
    var k := (h * 32 - w) / TwoTo32;
    assert h * 32 - w == k * TwoTo32;
    Wrap32Shift(w - h + code, k);
    assert w - h + code + k * TwoTo32 == h * 31 + code;
  }

  /** The 32-bit rolling hash of `s`, folded from the left starting at 0. */
  function HashCode(s: string): (h: int)
    ensures IsInt32(h)
  {
    if s == [] then 0 else Wrap32(31 * HashCode(s[..|s| - 1]) + s[|s| - 1] as int)
  }

  function HexDigit(d: nat): (c: char)
    requires d < 16
    ensures DigitValue(c) == Some(d)
  {
    "0123456789abcdef"[d]
  }

  /** The value of a lower-case hexadecimal digit. */
  function DigitValue(c: char): (r: Option<nat>)
    ensures r.Some? ==> r.value < 16
  {
    if '0' <= c <= '9' then Some(c as int - '0' as int)
    else if 'a' <= c <= 'f' then Some(c as int - 'a' as int + 10)
    else None
  }

  /** `n.toString(16)` for a non-negative integer `n`. */
  function Hex(n: nat): (r: string)
    ensures |r| >= 1
    ensures forall i :: 0 <= i < |r| ==> DigitValue(r[i]).Some?
  {
    if n < 16 then [HexDigit(n)] else Hex(n / 16) + [HexDigit(n % 16)]
  }

  /** `h.toString(16)` for any integer: a minus sign, then the digits of |h|. */
  function SignedHex(h: int): (r: string)
    ensures |r| >= 1
    ensures r[0] == '-' <==> h < 0
  {
    if h < 0 then "-" + Hex(-h)
    else DigitIsNotSign(Hex(h)[0]); Hex(h)
  }

  /** Reads a non-empty run of lower-case hexadecimal digits. */
  function ParseHex(s: string): (r: Option<nat>)
  {
    if s == [] then None
    else
      var d := DigitValue(s[|s| - 1]);
      if d.None? then None
      else if |s| == 1 then Some(d.value)
      else
        var high := ParseHex(s[..|s| - 1]);
        if high.None? then None else Some(high.value * 16 + d.value)
  }

  /** Reads what `SignedHex` writes. */
  function ParseSignedHex(s: string): (r: Option<int>)
  {
    if s != [] && s[0] == '-' then
      var m := ParseHex(s[1..]);
      if m.Some? && m.value > 0 then Some(0 - m.value as int) else None
    else ParseHex(s)
  }

  lemma {:induction false} HexRoundTrip(n: nat)
    ensures ParseHex(Hex(n)) == Some(n)
  {
    var d := n % 16;
    assert DigitValue(HexDigit(d)) == Some(d);
    if n >= 16 {
      var s := Hex(n);
      var high := Hex(n / 16);
      assert s == high + [HexDigit(d)];
      assert s[|s| - 1] == HexDigit(d);
      assert s[..|s| - 1] == high;
      HexRoundTrip(n / 16);
      assert ParseHex(s) == Some((n / 16) * 16 + d);
    }
  }

  /** The rendering of a hash code can be read back: distinct hashes give distinct keys. */
  lemma SignedHexRoundTrip(h: int)
    ensures ParseSignedHex(SignedHex(h)) == Some(h)
  {
    if h < 0 {
      NegativeHexRoundTrip(h);
    } else {
      NonNegativeHexRoundTrip(h);
    }
  }

  lemma NegativeHexRoundTrip(h: int)
    requires h < 0
    ensures ParseSignedHex(SignedHex(h)) == Some(h)
  {
    HexRoundTrip(-h);
    ParseNegative(Hex(-h), -h);
  }

  /** A minus sign before digits worth `m > 0` reads as `-m`. */
  lemma ParseNegative(digits: string, m: nat)
    requires m > 0 && ParseHex(digits) == Some(m)
    ensures ParseSignedHex("-" + digits) == Some(0 - m)
  {
    var s := "-" + digits;
    assert s[0] == '-' && s[1..] == digits;
  }

  lemma NonNegativeHexRoundTrip(n: nat)
    ensures ParseSignedHex(SignedHex(n)) == Some(n)
  {
    var digits := Hex(n);
    assert SignedHex(n) == digits;
    HexRoundTrip(n);
    DigitIsNotSign(digits[0]);
  }

  lemma DigitIsNotSign(c: char)
    requires DigitValue(c).Some?
    ensures c != '-'
  {
  }

  function Pow16(k: nat): (p: nat)
    ensures p >= 1
  {
    if k == 0 then 1 else 16 * Pow16(k - 1)
  }

  lemma {:induction false} HexLength(n: nat, k: nat)
    requires 1 <= k && n < Pow16(k)
    ensures |Hex(n)| <= k
  {
    if n >= 16 {
      HexLength(n / 16, k - 1);
    }
  }

  /** The rendering of a 32-bit hash has at most 9 characters (a sign and 8 digits). */
  lemma SignedHexLength(h: int)
    requires IsInt32(h)
    ensures 1 <= |SignedHex(h)| <= 9
  {
    assert Pow16(8) == TwoTo32;
    if h < 0 { HexLength(-h, 8); } else { HexLength(h, 8); }
  }

  /** `hashContent(content)` as a value. */
  function FingerprintOf(content: string): (key: string)
    ensures |content| <= MaxRawLength ==> key == content
    ensures |content| > MaxRawLength ==>
      1 <= |key| <= 9 && ParseSignedHex(key) == Some(HashCode(content))
  {
    if |content| > MaxRawLength then
      var h := HashCode(content);
      SignedHexLength(h);
      SignedHexRoundTrip(h);
      SignedHex(h)
    else content
  }

  /**
   * Every content that reaches a cache lookup has at least `minTrimmed`
   * non-blank characters (15 in the coordinator). For such contents two keys
   * are equal only if both contents are long and share a hash code: a short
   * content is never confused with another content.
   */
  lemma FingerprintCollision(a: string, b: string, minTrimmed: nat)
    requires minTrimmed >= 10
    requires |Trim(a)| >= minTrimmed && |Trim(b)| >= minTrimmed
    requires a != b && FingerprintOf(a) == FingerprintOf(b)
    ensures |a| > MaxRawLength && |b| > MaxRawLength
    ensures HashCode(a) == HashCode(b)
  {
  }

  /** `hashContent`: the loop over the content's characters. */
  method HashContent(content: string) returns (key: string)
    ensures key == FingerprintOf(content)
  {
    if |content| > MaxRawLength {
      var hash := 0;
      var i := 0;
      while i < |content|
        invariant 0 <= i <= |content|
        invariant hash == HashCode(content[..i])
      {
        var shifted := Wrap32(hash * 32);
        ShiftStep(hash, content[i] as int);
        assert content[..i + 1][..i] == content[..i];
        hash := Wrap32(shifted - hash + content[i] as int);
        i := i + 1;
      }
      assert content[..i] == content;
      key := SignedHex(hash);
      return;
    }
    key := content;
  }
}
