/**
 * Positional notation: JavaScript's `Number.prototype.toString(radix)` on
 * non-negative integers, and the digit-string reading that `Number(s)`
 * performs on a plain decimal string.
 */
module Radix {
  import opened Optionals

  /** The digit character for `d`, as JavaScript writes it (lower-case letters). */
  function DigitChar(d: nat): char
    requires d < 36
  {
    if d < 10 then ('0' as int + d) as char else ('a' as int + d - 10) as char
  }

  /** The value of one digit character in the given base, if it is one. */
  function DigitValue(c: char, base: nat): Option<nat>
  {
    if '0' <= c <= '9' && (c as int - '0' as int) < base then Some(c as int - '0' as int)
    else if 'a' <= c <= 'z' && (c as int - 'a' as int + 10) < base then Some(c as int - 'a' as int + 10)
    else None
  }

  /** Euclidean division by a base of at least two shrinks `n` and leaves a digit. */
  lemma DivideByBase(n: nat, base: nat)
    requires 2 <= base <= n
    ensures 1 <= n / base < n && 0 <= n % base < base && n == n / base * base + n % base
  {
    var q, r := n / base, n % base;
    assert n == q * base + r && 0 <= r < base;
    assert q * base == q * (base - 2) + 2 * q;
    assert q * (base - 2) >= 0;
    assert q * base > 0;
  }

  /** `n.toString(base)`: most significant digit first, no leading zeros. */
  function ToString(n: nat, base: nat): (s: string)
    requires 2 <= base <= 36
    ensures |s| >= 1
    ensures forall i :: 0 <= i < |s| ==> '0' <= s[i] <= '9' || 'a' <= s[i] <= 'z'
  {
    if n < base then [DigitChar(n)]
    else
      DivideByBase(n, base);
      ToString(n / base, base) + [DigitChar(n % base)]
  }

  /** The value of a non-empty string of digits of the given base; `None` for anything else. */
  function Parse(s: string, base: nat): Option<nat>
  {
    if |s| == 0 then None
    else match DigitValue(s[|s| - 1], base)
      case None => None
      case Some(d) =>
        if |s| == 1 then Some(d)
        else match Parse(s[..|s| - 1], base)
          case None => None
          case Some(v) => Some(v * base + d)
  }

  /** Reading a rendered number gives the number back. */
  lemma {:induction false} ParseToString(n: nat, base: nat)
    requires 2 <= base <= 36
    ensures Parse(ToString(n, base), base) == Some(n)
  {
    var s := ToString(n, base);
    if n < base {
      DigitRoundTrip(n, base);
    } else {
      DivideByBase(n, base);
      ParseToString(n / base, base);
      DigitRoundTrip(n % base, base);
      assert s == ToString(n / base, base) + [DigitChar(n % base)];
      assert s[..|s| - 1] == ToString(n / base, base);
    }
  }

  /** A digit character reads back as its digit. */
  lemma DigitRoundTrip(d: nat, base: nat)
    requires d < base <= 36
    ensures DigitValue(DigitChar(d), base) == Some(d)
  {
  }

  /** Distinct numbers are rendered differently. */
  lemma ToStringInjective(n: nat, m: nat, base: nat)
    requires 2 <= base <= 36
    requires ToString(n, base) == ToString(m, base)
    ensures n == m
  {
    ParseToString(n, base);
    ParseToString(m, base);
  }
}
