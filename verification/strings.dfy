/**
 * The JavaScript string and array built-ins that the remote utilities rely
 * on, stated over `seq<char>`: `String.prototype.indexOf`,
 * `Array.prototype.join`, and `parseInt` of a run of decimal digits.
 */
module Strings {

  predicate IsDigit(c: char) {
    '0' <= c <= '9'
  }

  predicate AllDigits(s: string) {
    forall i :: 0 <= i < |s| ==> IsDigit(s[i])
  }

  /** A character that ends a line for `.`, `^` and `$` in a JavaScript regular expression. */
  predicate IsLineTerminator(c: char) {
    c == '\n' || c == '\r' || c == '\U{2028}' || c == '\U{2029}'
  }

  function Pow10(n: nat): (r: nat)
    ensures r >= 1
  {
    if n == 0 then 1 else 10 * Pow10(n - 1)
  }

  /** The decimal value of a run of digits, as `parseInt(d, 10)` reads it: below `10^|d|`. */
  function DigitsValue(d: string): (r: nat)
    requires AllDigits(d)
    ensures r < Pow10(|d|)
  {
    if |d| == 0 then 0
    else DigitsValue(d[..|d| - 1]) * 10 + (d[|d| - 1] as int - '0' as int)
  }

  /** `n` written in decimal without leading zeros (`String(n)`). */
  function Decimal(n: nat): (r: string)
    ensures 0 < |r| && AllDigits(r)
    ensures |r| > 1 ==> r[0] != '0'
  {
    if n < 10 then [('0' as int + n) as char]
    else Decimal(n / 10) + [('0' as int + n % 10) as char]
  }

  /** `parseInt` reads back the number that `String` wrote. */
  lemma {:induction false} DigitsValueOfDecimal(n: nat)
    ensures DigitsValue(Decimal(n)) == n
  {
    if n >= 10 {
      var d := Decimal(n);
      assert d[..|d| - 1] == Decimal(n / 10);
      DigitsValueOfDecimal(n / 10);
    }
  }

  /** `parseInt` ignores leading zeros. */
  lemma {:induction false} DigitsValueLeadingZero(d: string)
    requires AllDigits(d)
    ensures AllDigits("0" + d) && DigitsValue("0" + d) == DigitsValue(d)
  {
    var z := "0" + d;
    assert AllDigits(z) by {
      assert forall i :: 0 < i < |z| ==> z[i] == d[i - 1];
    }
    if |d| > 0 {
      assert z[..|z| - 1] == "0" + d[..|d| - 1];
      DigitsValueLeadingZero(d[..|d| - 1]);
    }
  }

  /** `t` occurs in `s` starting at index `i`. */
  predicate OccursAt(s: string, t: string, i: nat) {
    i + |t| <= |s| && s[i..i + |t|] == t
  }

  /** The first index at or after `from` where `t` occurs in `s`, or -1. */
  function IndexOfFrom(s: string, t: string, from: nat): (r: int)
    decreases |s| - from
    ensures r == -1 || (from <= r && OccursAt(s, t, r))
    ensures r == -1 ==> forall k: nat :: from <= k ==> !OccursAt(s, t, k)
    ensures r != -1 ==> forall k: nat :: from <= k < r ==> !OccursAt(s, t, k)
  {
    if from + |t| > |s| then -1
    else if s[from..from + |t|] == t then from
    else IndexOfFrom(s, t, from + 1)
  }

  /** `s.indexOf(t)`: the first index where `t` occurs, or -1 when it does not occur. */
  function IndexOf(s: string, t: string): (r: int)
    ensures r > -1 <==> exists k: nat :: OccursAt(s, t, k)
    ensures r > -1 ==> OccursAt(s, t, r) && forall k: nat :: k < r ==> !OccursAt(s, t, k)
  {
    IndexOfFrom(s, t, 0)
  }

  /** `s.indexOf(t) > -1`. */
  predicate Contains(s: string, t: string) {
    IndexOf(s, t) > -1
  }

  /** `xs.join(sep)`: the elements with `sep` between neighbours. */
  function Join(xs: seq<string>, sep: string): string {
    if |xs| == 0 then ""
    else if |xs| == 1 then xs[0]
    else xs[0] + sep + Join(xs[1..], sep)
  }

  /** The concatenation of all elements, in order. */
  function Concat(xs: seq<string>): string {
    if |xs| == 0 then "" else xs[0] + Concat(xs[1..])
  }

  /** The number of occurrences of `c` in `s`. */
  function CountChar(s: string, c: char): nat {
    if |s| == 0 then 0 else (if s[0] == c then 1 else 0) + CountChar(s[1..], c)
  }
}
