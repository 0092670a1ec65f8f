/**
 * The PHP value semantics the plugin's server code relies on: truthiness and
 * `empty` of strings and integers, `trim` with its default character list,
 * the `(int)` cast of a string and `absint`.
 */
module Php {
  import opened Wrappers
  import opened Strings

  /** A string is truthy unless it is "" or "0"; `empty($s)` is its negation. */
  predicate Truthy(s: string) {
    s != "" && s != "0"
  }

  predicate IntTruthy(n: int) {
    n != 0
  }

  /** A request parameter is truthy when present and truthy (null is falsy). */
  predicate OptTruthy(o: Option<string>) {
    o.Some? && Truthy(o.value)
  }

  predicate OptIntTruthy(o: Option<int>) {
    o.Some? && IntTruthy(o.value)
  }

  /** The characters `trim` strips by default: space, tab, LF, CR, NUL and vertical tab. */
  predicate IsTrimSpace(c: char) {
    c == ' ' || c == '\t' || c == '\n' || c == '\r' || c == '\U{0}' || c == '\U{B}'
  }

  function Trim(s: string): string {
    TrimBy(s, IsTrimSpace)
  }

  /** The leading white space the `(int)` cast skips. */
  predicate IsNumericSpace(c: char) {
    c == ' ' || c == '\t' || c == '\n' || c == '\r' || c == '\U{B}' || c == '\U{C}'
  }

  /**
   * `(int) $s`: optional leading white space, an optional sign, then the
   * longest run of digits; a string without leading digits is worth 0.
   */
  function IntCast(s: string): int {
    var t := DropLeading(s, IsNumericSpace);
    if |t| > 0 && t[0] == '-' then -(DecimalValue(DigitPrefix(t[1..])) as int)
    else if |t| > 0 && t[0] == '+' then DecimalValue(DigitPrefix(t[1..]))
    else DecimalValue(DigitPrefix(t))
  }

  /** A scalar request value as the REST layer hands it on: a JSON integer or a string. */
  datatype JsonValue = JsonInt(n: int) | JsonText(s: string)

  /** Every character is white space that may surround a numeric string. */
  predicate AllNumericSpace(s: string) {
    s == [] || (IsNumericSpace(s[0]) && AllNumericSpace(s[1..]))
  }

  /** s without its leading white space and then without one leading sign. */
  function Unsigned(s: string): string {
    var t := DropLeading(s, IsNumericSpace);
    if |t| > 0 && (t[0] == '-' || t[0] == '+') then t[1..] else t
  }

  /**
   * An integer numeric string in PHP 8: optional white space, an optional
   * sign, at least one digit, then optional white space.
   */
  predicate IsNumericText(s: string) {
    var u := Unsigned(s);
    var d := DigitPrefix(u);
    |d| > 0 && AllNumericSpace(u[|d|..])
  }

  /** `strcmp`, by character code: -1, 0 or 1. */
  function StrCmp(a: string, b: string): (r: int)
    ensures -1 <= r <= 1
    ensures r == 0 <==> a == b
  {
    if a == [] && b == [] then 0
    else if a == [] then -1
    else if b == [] then 1
    else if a[0] < b[0] then -1
    else if a[0] > b[0] then 1
    else
      var r := StrCmp(a[1..], b[1..]);
      assert r == 0 ==> a == [a[0]] + a[1..] && b == [b[0]] + b[1..];
      r
  }

  function Sign(n: int): int {
    if n < 0 then -1 else if n > 0 then 1 else 0
  }

  /**
   * PHP 8's `$s <=> $n` for a string and a natural (or the numeric string of
   * a natural): by value when s is numeric, otherwise as strings against the
   * decimal text of n.
   */
  function CompareTextNat(s: string, n: nat): int {
    if IsNumericText(s) then Sign(IntCast(s) - n) else StrCmp(s, NatToDecimal(n))
  }

  /** `intval` of a request value. */
  function Intval(v: JsonValue): int {
    match v
    case JsonInt(n) => n
    case JsonText(s) => IntCast(s)
  }

  /** The decimal text of a natural is a numeric string. */
  lemma DecimalIsNumeric(n: nat)
    ensures IsNumericText(NatToDecimal(n))
  {
    var s := NatToDecimal(n);
    assert !IsNumericSpace(s[0]);
    assert DropLeading(s, IsNumericSpace) == s;
    DigitPrefixOfDigits(s);
    assert Unsigned(s) == s && s[|s|..] == [];
  }

  /** `absint($n)`: the absolute value of the integer. */
  function Absint(n: int): (r: nat)
    ensures r == n || r == -n
  {
    if n < 0 then -n else n
  }

  /** The decimal text stored in the meta table when an integer is written. */
  function IntMeta(n: nat): string {
    NatToDecimal(n)
  }

  /** A non-zero number stored as meta text reads back as truthy. */
  lemma IntMetaTruthy(n: nat)
    requires n != 0
    ensures Truthy(IntMeta(n))
  {
    var s := IntMeta(n);
    assert s[0] != '0';
  }

  /** Casting the stored decimal of n back to an integer gives n. */
  lemma {:induction false} IntCastOfDecimal(n: nat)
    ensures IntCast(NatToDecimal(n)) == n
  {
    var s := NatToDecimal(n);
    assert !IsNumericSpace(s[0]);
    assert DropLeading(s, IsNumericSpace) == s;
    DigitPrefixOfDigits(s);
    DecimalRoundTrip(n);
  }

  /**
   * What the admin form stores for a numeric field: `absint` of the posted
   * text, written as decimal digits. Reading the stored text back gives a
   * non-negative integer equal to the sanitised value, and sanitising the
   * stored text again leaves it as it is.
   */
  function AbsintText(s: string): (r: string)
    ensures |r| >= 1 && AllDigits(r)
    ensures IntCast(r) == Absint(IntCast(s)) && IntCast(r) >= 0
  {
    IntCastOfDecimal(Absint(IntCast(s)));
    NatToDecimal(Absint(IntCast(s)))
  }

  lemma AbsintTextIdempotent(s: string)
    ensures AbsintText(AbsintText(s)) == AbsintText(s)
  {
  }
}
