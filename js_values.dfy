/**
 * The JavaScript value semantics the grade pages rely on: spreadsheet cell
 * values, truthiness and `||`, `trim`, `toUpperCase`/`toLowerCase`,
 * `includes`, `parseInt(_, 10)`, `parseFloat` and `toFixed(2)`.
 *
 * Numbers are exact rationals (`real`), not IEEE-754 doubles.
 */
module JsValues {
  import opened Wrappers

  /** A cell value as `XLSX.utils.sheet_to_json` and a JSON round trip deliver it. */
  datatype Value = Missing | Text(s: string) | Number(n: real)

  /** JavaScript truthiness: `undefined`, `""` and `0` are falsy. */
  predicate Truthy(v: Value) {
    match v
    case Missing => false
    case Text(s) => s != ""
    case Number(n) => n != 0.0
  }

  /** JavaScript `v || fallback`. */
  function Or(v: Value, fallback: Value): Value {
    if Truthy(v) then v else fallback
  }

  // ---------------------------------------------------------------- strings

  /** ECMAScript WhiteSpace and LineTerminator code points (what `trim` removes). */
  predicate IsSpace(c: char) {
    c == ' ' || c == '\t' || c == '\n' || c == '\r' || c == '\U{000B}' || c == '\U{000C}'
    || c == '\U{00A0}' || c == '\U{FEFF}' || c == '\U{1680}'
    || ('\U{2000}' <= c <= '\U{200A}') || c == '\U{2028}' || c == '\U{2029}'
    || c == '\U{202F}' || c == '\U{205F}' || c == '\U{3000}'
  }

  /** The first position at or after `i` that does not hold white space. */
  function SkipSpaces(s: string, i: nat): (j: nat)
    requires i <= |s|
    ensures i <= j <= |s|
    ensures j < |s| ==> !IsSpace(s[j])
    ensures forall k :: i <= k < j ==> IsSpace(s[k])
    decreases |s| - i
  {
    if i < |s| && IsSpace(s[i]) then SkipSpaces(s, i + 1) else i
  }

  /** The last position at or before `j` not preceded by white space. */
  function SpacesBefore(s: string, j: nat): (i: nat)
    requires j <= |s|
    ensures i <= j
    ensures i > 0 ==> !IsSpace(s[i - 1])
    ensures forall k :: i <= k < j ==> IsSpace(s[k])
  {
    if j > 0 && IsSpace(s[j - 1]) then SpacesBefore(s, j - 1) else j
  }

  /** Removes leading white space: the longest suffix not starting with a space. */
  function TrimStart(s: string): string {
    s[SkipSpaces(s, 0)..]
  }

  /** Removes trailing white space: the longest prefix not ending with a space. */
  function TrimEnd(s: string): string {
    s[..SpacesBefore(s, |s|)]
  }

  /** `String.prototype.trim`. */
  function Trim(s: string): string {
    TrimEnd(TrimStart(s))
  }

  function UpperChar(c: char): char {
    if 'a' <= c <= 'z' then (c as int - 32) as char else c
  }

  function LowerChar(c: char): char {
    if 'A' <= c <= 'Z' then (c as int + 32) as char else c
  }

  /** `toUpperCase`, on the ASCII letters. */
  function Upper(s: string): (r: string)
    ensures |r| == |s|
    ensures forall i :: 0 <= i < |s| ==> r[i] == UpperChar(s[i])
  {
    seq(|s|, i requires 0 <= i < |s| => UpperChar(s[i]))
  }

  /** `toLowerCase`, on the ASCII letters. */
  function Lower(s: string): (r: string)
    ensures |r| == |s|
    ensures forall i :: 0 <= i < |s| ==> r[i] == LowerChar(s[i])
  {
    seq(|s|, i requires 0 <= i < |s| => LowerChar(s[i]))
  }

  /**
   * On the ASCII letters, upper-casing leaves no lower-case letter and
   * lower-casing no capital; each is idempotent, and casing one way after
   * the other way is the same as casing that way alone, so two strings that
   * differ only in the case of their letters upper-case alike.
   */
  lemma CaseMapping(s: string, t: string)
    ensures forall i :: 0 <= i < |s| ==> !('a' <= Upper(s)[i] <= 'z') && !('A' <= Lower(s)[i] <= 'Z')
    ensures Upper(Upper(s)) == Upper(s) && Lower(Lower(s)) == Lower(s)
    ensures Upper(Lower(s)) == Upper(s) && Lower(Upper(s)) == Lower(s)
    ensures Lower(s) == Lower(t) ==> Upper(s) == Upper(t)
  {
    if Lower(s) == Lower(t) {
      assert Upper(s) == Upper(Lower(s));
      assert Upper(t) == Upper(Lower(t));
    }
  }

  /** `s.includes(part)`. */
  predicate Includes(s: string, part: string) {
    exists i | 0 <= i <= |s| :: part <= s[i..]
  }

  // ---------------------------------------------------------------- numbers

  predicate IsDigit(c: char) {
    '0' <= c <= '9'
  }

  predicate AllDigits(s: string) {
    forall i :: 0 <= i < |s| ==> IsDigit(s[i])
  }

  /** The first position at or after `i` that does not hold a decimal digit. */
  function DigitEnd(s: string, i: nat): (j: nat)
    requires i <= |s|
    ensures i <= j <= |s|
    ensures j < |s| ==> !IsDigit(s[j])
    ensures forall k :: i <= k < j ==> IsDigit(s[k])
    decreases |s| - i
  {
    if i < |s| && IsDigit(s[i]) then DigitEnd(s, i + 1) else i
  }

  /** A run of digits from `i` that stops at `j` ends at `j`. */
  lemma {:induction false} DigitEndAt(s: string, i: nat, j: nat)
    requires i <= j <= |s|
    requires forall k :: i <= k < j ==> IsDigit(s[k])
    requires j < |s| ==> !IsDigit(s[j])
    ensures DigitEnd(s, i) == j
    decreases j - i
  {
    if i < j {
      DigitEndAt(s, i + 1, j);
    }
  }

  function Pow10(k: nat): (r: nat)
    ensures r >= 1
  {
    if k == 0 then 1 else 10 * Pow10(k - 1)
  }

  function DigitValue(c: char): nat {
    if IsDigit(c) then c as int - '0' as int else 0
  }

  /** The number the decimal digits `s[lo..hi]` denote. */
  function DigitsValue(s: string, lo: nat, hi: nat): nat
    requires lo <= hi <= |s|
    decreases hi - lo
  {
    if lo == hi then 0 else 10 * DigitsValue(s, lo, hi - 1) + DigitValue(s[hi - 1])
  }

  /** The value of the digits `s[lo..hi]` read after a decimal point: `0.d1d2...` is `(d1 + 0.d2...) / 10`. */
  function Fraction(s: string, lo: nat, hi: nat): (r: real)
    requires lo <= hi <= |s|
    ensures 0.0 <= r < 1.0
    decreases hi - lo
  {
    if lo == hi then 0.0 else (DigitValue(s[lo]) as real + Fraction(s, lo + 1, hi)) / 10.0
  }

  lemma {:induction false} DigitsValueBound(s: string, lo: nat, hi: nat)
    requires lo <= hi <= |s|
    ensures DigitsValue(s, lo, hi) < Pow10(hi - lo)
    decreases hi - lo
  {
    if lo < hi {
      DigitsValueBound(s, lo, hi - 1);
    }
  }

  /** Where the number `parseInt`/`parseFloat` read starts: after white space and an optional sign. */
  function NumberStart(s: string): (p: nat)
    ensures p <= |s|
  {
    var t := SkipSpaces(s, 0);
    if t < |s| && (s[t] == '-' || s[t] == '+') then t + 1 else t
  }

  /** Whether that number carries a minus sign. */
  predicate Negative(s: string) {
    var t := SkipSpaces(s, 0);
    t < |s| && s[t] == '-'
  }

  /** `parseInt(s, 10)` on a string: leading white space, an optional sign and the longest run of digits. */
  function ParseIntText(s: string): Option<int> {
    var p := NumberStart(s);
    var q := DigitEnd(s, p);
    if q == p then None
    else Some(if Negative(s) then -(DigitsValue(s, p, q) as int) else DigitsValue(s, p, q))
  }

  /** `parseInt` reads a non-empty digit string as the number it spells. */
  lemma ParseIntOfDigits(s: string)
    requires AllDigits(s) && s != ""
    ensures ParseIntText(s) == Some(DigitsValue(s, 0, |s|) as int)
  {
    assert IsDigit(s[0]);
    DigitEndAt(s, 0, |s|);
  }

  /** Truncation toward zero: what `parseInt` reads from the decimal rendering of a number. */
  function Trunc(n: real): int {
    if n >= 0.0 then n.Floor else -((-n).Floor)
  }

  /** `parseInt(v, 10)`; `None` is NaN. */
  function ParseInt(v: Value): Option<int> {
    match v
    case Missing => None
    case Text(s) => ParseIntText(s)
    case Number(n) => Some(Trunc(n))
  }

  /** `parseInt(v, 10) || 0`: NaN counts as 0. */
  function IntOrZero(v: Value): int {
    ParseInt(v).GetOr(0)
  }

  /** Where the digits after a decimal point at `q` end; `q` itself when there is no point. */
  function FractionEnd(s: string, q: nat): (e: nat)
    requires q <= |s|
    ensures q <= e <= |s|
  {
    if q < |s| && s[q] == '.' then DigitEnd(s, q + 1) else q
  }

  /**
   * `parseFloat(s)` on a string: leading white space, an optional sign, then
   * the longest decimal prefix `digits [. digits]` or `. digits`.
   */
  function ParseFloatText(s: string): Option<real> {
    var p := NumberStart(s);
    var q := DigitEnd(s, p);
    var e := FractionEnd(s, q);
    if q == p && e <= q + 1 then None
    else
      var m := DigitsValue(s, p, q) as real + (if e == q then 0.0 else Fraction(s, q + 1, e));
      Some(if Negative(s) then -m else m)
  }

  /** `parseFloat` reads digits, a point at `k` and digits as the decimal they spell; a lone point is NaN. */
  lemma PointedDecimal(s: string, k: nat)
    requires k < |s| && s[k] == '.'
    requires forall i :: 0 <= i < |s| && i != k ==> IsDigit(s[i])
    ensures ParseFloatText(s)
      == if |s| == 1 then None else Some(DigitsValue(s, 0, k) as real + Fraction(s, k + 1, |s|))
  {
    assert !IsSpace(s[0]) && s[0] != '-' && s[0] != '+';
    DigitEndAt(s, 0, k);
    DigitEndAt(s, k + 1, |s|);
  }

  /** `parseFloat` reads a non-empty digit string as the number it spells. */
  lemma DigitsDecimal(s: string)
    requires AllDigits(s) && s != []
    ensures ParseFloatText(s) == Some(DigitsValue(s, 0, |s|) as real)
  {
    assert IsDigit(s[0]);
    DigitEndAt(s, 0, |s|);
  }

  /** `parseFloat(v)`; `None` is NaN. */
  function ParseFloat(v: Value): Option<real> {
    match v
    case Missing => None
    case Text(s) => ParseFloatText(s)
    case Number(n) => Some(n)
  }

  /**
   * The number `x.toFixed(2)` denotes: the nearest multiple of 1/100, a tie
   * going away from zero (the sign is set aside first).
   */
  function ToFixed2(x: real): (r: real)
    ensures x >= 0.0 ==> x - 0.005 < r <= x + 0.005
    ensures x < 0.0 ==> x - 0.005 <= r < x + 0.005
  {
    if x >= 0.0 then (x * 100.0 + 0.5).Floor as real / 100.0
    else -(((-x) * 100.0 + 0.5).Floor as real / 100.0)
  }

  /** Rounding to two decimals never reverses an order. */
  lemma ToFixed2Monotone(x: real, y: real)
    requires x <= y
    ensures ToFixed2(x) <= ToFixed2(y)
  {
    if 0.0 <= x {
      assert (x * 100.0 + 0.5).Floor <= (y * 100.0 + 0.5).Floor;
    } else if y < 0.0 {
      assert ((-y) * 100.0 + 0.5).Floor <= ((-x) * 100.0 + 0.5).Floor;
    }
  }

  /** A number with at most two decimals is rendered exactly. */
  lemma ToFixed2Exact(k: int)
    ensures ToFixed2(k as real / 100.0) == k as real / 100.0
  {
    var x := k as real / 100.0;
    assert x * 100.0 == k as real;
    if k >= 0 {
      assert (k as real + 0.5).Floor == k;
    } else {
      assert (-x) * 100.0 == (-k) as real;
      assert ((-k) as real + 0.5).Floor == -k;
    }
  }
}
