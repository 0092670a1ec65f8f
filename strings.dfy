/**
 * String utilities shared by the server (PHP) and the client (JavaScript) models:
 * decimal rendering of naturals, the value of a digit string, trimming by a
 * whitespace class, and joining with a separator.
 */
module Strings {

  predicate IsDigit(c: char) {
    '0' <= c <= '9'
  }

  predicate AllDigits(s: string) {
    forall i :: 0 <= i < |s| ==> IsDigit(s[i])
  }

  function DigitChar(d: nat): (c: char)
    requires d < 10
    ensures IsDigit(c) && c as int - '0' as int == d
  {
    (d + '0' as int) as char
  }

  function DigitValue(c: char): (d: nat)
    requires IsDigit(c)
    ensures d < 10
  {
    c as int - '0' as int
  }

  /** The canonical decimal rendering of a natural number (no sign, no leading zeros). */
  function NatToDecimal(n: nat): (s: string)
    ensures |s| >= 1 && AllDigits(s)
    ensures s[0] == '0' ==> n == 0
    decreases n
  {
    if n < 10 then [DigitChar(n)] else NatToDecimal(n / 10) + [DigitChar(n % 10)]
  }

  /** The value of a string of decimal digits; the empty string is worth 0. */
  function DecimalValue(s: string): nat
    requires AllDigits(s)
  {
    if s == [] then 0 else 10 * DecimalValue(s[..|s| - 1]) + DigitValue(s[|s| - 1])
  }

  /** Reading back the decimal rendering of n gives n. */
  lemma {:induction false} DecimalRoundTrip(n: nat)
    ensures DecimalValue(NatToDecimal(n)) == n
    decreases n
  {
    var s := NatToDecimal(n);
    if n < 10 {
      assert s == [DigitChar(n)];
      assert s[..|s| - 1] == [];
    } else {
      DecimalRoundTrip(n / 10);
      assert s[..|s| - 1] == NatToDecimal(n / 10);
      assert s[|s| - 1] == DigitChar(n % 10);
    }
  }

  /** Distinct naturals have distinct renderings. */
  lemma DecimalInjective(m: nat, n: nat)
    requires NatToDecimal(m) == NatToDecimal(n)
    ensures m == n
  {
    DecimalRoundTrip(m);
    DecimalRoundTrip(n);
  }

  /** The longest prefix of s made only of digits. */
  function DigitPrefix(s: string): (r: string)
    ensures AllDigits(r) && r <= s
    ensures |r| < |s| ==> !IsDigit(s[|r|])
  {
    if s == [] || !IsDigit(s[0]) then [] else [s[0]] + DigitPrefix(s[1..])
  }

  lemma {:induction false} DigitPrefixOfDigits(s: string)
    requires AllDigits(s)
    ensures DigitPrefix(s) == s
  {
    if s != [] {
      DigitPrefixOfDigits(s[1..]);
    }
  }

  /** s without its leading characters of class sp. */
  function DropLeading(s: string, sp: char -> bool): (r: string)
    ensures |r| <= |s| && r == s[|s| - |r|..]
    ensures forall i :: 0 <= i < |s| - |r| ==> sp(s[i])
    ensures r != [] ==> !sp(r[0])
  {
    if s != [] && sp(s[0]) then DropLeading(s[1..], sp) else s
  }

  /** The number of leading characters of class sp. */
  function LeadingCount(s: string, sp: char -> bool): (n: nat)
    ensures n <= |s| && forall i :: 0 <= i < n ==> sp(s[i])
    ensures n < |s| ==> !sp(s[n])
  {
    if s == [] || !sp(s[0]) then 0 else 1 + LeadingCount(s[1..], sp)
  }

  /** The end of s[lo..hi] once its trailing characters of class sp are cut off. */
  function TrailingCut(s: string, sp: char -> bool, lo: nat, hi: nat): (n: nat)
    requires lo <= hi <= |s|
    ensures lo <= n <= hi && forall i :: n <= i < hi ==> sp(s[i])
    ensures lo < n ==> !sp(s[n - 1])
    decreases hi
  {
    if lo < hi && sp(s[hi - 1]) then TrailingCut(s, sp, lo, hi - 1) else hi
  }

  /** r is s[a..b], and everything before a and from b on is of class sp. */
  predicate TrimmedAt(s: string, sp: char -> bool, r: string, a: int, b: int) {
    && 0 <= a <= b <= |s| && r == s[a..b]
    && (forall i :: 0 <= i < a ==> sp(s[i]))
    && (forall i :: b <= i < |s| ==> sp(s[i]))
  }

  /**
   * s without leading and trailing characters of class sp: the result is a
   * contiguous slice of s, everything cut off is of class sp, and the result
   * neither starts nor ends with such a character.
   */
  function TrimBy(s: string, sp: char -> bool): (r: string)
    ensures exists a, b :: TrimmedAt(s, sp, r, a, b)
    ensures r != [] ==> !sp(r[0]) && !sp(r[|r| - 1])
  {
    var a := LeadingCount(s, sp);
    var b := TrailingCut(s, sp, a, |s|);
    assert TrimmedAt(s, sp, s[a..b], a, b);
    s[a..b]
  }

  /** Trimming leaves nothing exactly when every character is of class sp. */
  lemma TrimEmptyIffAllSpace(s: string, sp: char -> bool)
    ensures TrimBy(s, sp) == [] <==> forall i :: 0 <= i < |s| ==> sp(s[i])
  {
    var r := TrimBy(s, sp);
    if r == [] {
      var a, b :| 0 <= a <= b <= |s| && r == s[a..b]
        && (forall i :: 0 <= i < a ==> sp(s[i])) && (forall i :: b <= i < |s| ==> sp(s[i]));
      assert a == b;
    } else {
      var a, b :| 0 <= a <= b <= |s| && r == s[a..b];
      assert !sp(s[a]);
    }
  }

  /** The parts joined with sep between consecutive parts (PHP implode, JavaScript join). */
  function Join(parts: seq<string>, sep: string): (r: string)
    ensures parts == [] ==> r == []
    ensures |parts| == 1 ==> r == parts[0]
    ensures |parts| >= 1 ==> |r| == SumLengths(parts) + (|parts| - 1) * |sep|
  {
    if parts == [] then []
    else if |parts| == 1 then parts[0]
    else parts[0] + sep + Join(parts[1..], sep)
  }

  function SumLengths(parts: seq<string>): nat {
    if parts == [] then 0 else |parts[0]| + SumLengths(parts[1..])
  }

  /** sub occurs in s starting at offset off. */
  predicate OccursAt(s: string, sub: string, off: int) {
    0 <= off <= |s| - |sub| && s[off..off + |sub|] == sub
  }

  /** Every part occurs in the joined string. */
  lemma {:induction false} JoinContainsParts(parts: seq<string>, sep: string, k: nat)
    requires k < |parts|
    ensures exists off :: OccursAt(Join(parts, sep), parts[k], off)
  {
    var r := Join(parts, sep);
    if |parts| == 1 || k == 0 {
      assert r[0..|parts[0]|] == parts[0];
      assert OccursAt(r, parts[k], 0);
    } else {
      JoinContainsParts(parts[1..], sep, k - 1);
      var rest := Join(parts[1..], sep);
      assert parts[1..][k - 1] == parts[k];
      var off :| OccursAt(rest, parts[k], off);
      var shift := |parts[0]| + |sep|;
      assert r == parts[0] + sep + rest;
      assert r[shift + off..shift + off + |parts[k]|] == rest[off..off + |parts[k]|];
      assert OccursAt(r, parts[k], shift + off);
    }
  }
}
