/**
 * `buildRegistrationNumber()`: `DOC-` + the clock in upper-case base 36 + `-`
 * + up to five upper-case base-36 digits of a random fraction. The clock and
 * the random source are inputs: one `Draw` per call.
 */
module RegistrationNumbers {
  import Radix
  import Strings

  /** One call's readings: `Date.now()` and the base-36 digits of `Math.random()`
      after the point (as `toString(36)` writes them). */
  datatype Draw = Draw(timestamp: nat, fraction: seq<nat>)

  predicate WellFormed(d: Draw)
  {
    forall k :: 0 <= k < |d.fraction| ==> d.fraction[k] < 36
  }

  /** The digit characters of a base-36 fraction. */
  function FractionDigits(fraction: seq<nat>): (s: string)
    requires forall k :: 0 <= k < |fraction| ==> fraction[k] < 36
    ensures |s| == |fraction|
    ensures forall k :: 0 <= k < |s| ==> s[k] == Radix.DigitChar(fraction[k])
  {
    if fraction == [] then [] else [Radix.DigitChar(fraction[0])] + FractionDigits(fraction[1..])
  }

  /** `Math.random().toString(36).slice(2, 7)`: the first five digits after "0.". */
  function RandomPart(fraction: seq<nat>): (s: string)
    requires forall k :: 0 <= k < |fraction| ==> fraction[k] < 36
  {
    var digits := FractionDigits(fraction);
    if |digits| <= 5 then digits else digits[..5]
  }

  function Build(d: Draw): string
    requires WellFormed(d)
  {
    "DOC-" + Strings.UpperCase(Radix.ToString(d.timestamp, 36)) + "-" + Strings.UpperCase(RandomPart(d.fraction))
  }

  /** Every draw reads a base-36 fraction. */
  predicate AllWellFormed(draws: seq<Draw>)
  {
    forall k :: 0 <= k < |draws| ==> WellFormed(draws[k])
  }

  /** The candidates successive calls produce, one per draw. */
  function Candidates(draws: seq<Draw>): (c: seq<string>)
    requires AllWellFormed(draws)
    ensures |c| == |draws|
    ensures forall k :: 0 <= k < |draws| ==> c[k] == Build(draws[k])
  {
    seq(|draws|, k requires 0 <= k < |draws| => Build(draws[k]))
  }

  /** A character of `[A-Z0-9]`. */
  predicate IsCodeChar(c: char)
  {
    '0' <= c <= '9' || 'A' <= c <= 'Z'
  }

  predicate IsCode(s: string)
  {
    forall k :: 0 <= k < |s| ==> IsCodeChar(s[k])
  }

  /** Upper-casing a string of lower-case base-36 digits yields `[A-Z0-9]` characters. */
  lemma UpperDigitsAreCode(s: string)
    requires forall k :: 0 <= k < |s| ==> '0' <= s[k] <= '9' || 'a' <= s[k] <= 'z'
    ensures IsCode(Strings.UpperCase(s))
  {
  }

  /** Every candidate reads `DOC-<stamp>-<suffix>` with a non-empty `[A-Z0-9]` stamp
      and a `[A-Z0-9]` suffix of at most five characters (empty only when the
      random fraction is exactly 0). */
  lemma BuildShape(d: Draw)
    requires WellFormed(d)
    ensures var stamp := Strings.UpperCase(Radix.ToString(d.timestamp, 36));
            var suffix := Strings.UpperCase(RandomPart(d.fraction));
            && Build(d) == "DOC-" + stamp + "-" + suffix
            && |stamp| >= 1 && IsCode(stamp)
            && |suffix| <= 5 && IsCode(suffix)
            && (|suffix| == 0 <==> d.fraction == [])
  {
    UpperDigitsAreCode(Radix.ToString(d.timestamp, 36));
    var r := RandomPart(d.fraction);
    forall k | 0 <= k < |r|
      ensures '0' <= r[k] <= '9' || 'a' <= r[k] <= 'z'
    {
      assert r[k] == Radix.DigitChar(d.fraction[k]);
    }
    UpperDigitsAreCode(r);
  }

  /** No candidate is empty, so a generated number always counts as assigned. */
  lemma CandidatesAssigned(draws: seq<Draw>)
    requires AllWellFormed(draws)
    ensures forall k :: 0 <= k < |draws| ==> Candidates(draws)[k] != ""
  {
    forall k | 0 <= k < |draws|
      ensures Candidates(draws)[k] != ""
    {
      BuildShape(draws[k]);
    }
  }

  /** Upper-casing is one-to-one on lower-case base-36 digits. */
  lemma UpperCaseInjective(a: string, b: string)
    requires forall k :: 0 <= k < |a| ==> '0' <= a[k] <= '9' || 'a' <= a[k] <= 'z'
    requires forall k :: 0 <= k < |b| ==> '0' <= b[k] <= '9' || 'a' <= b[k] <= 'z'
    requires Strings.UpperCase(a) == Strings.UpperCase(b)
    ensures a == b
  {
    assert |a| == |b|;
    forall k | 0 <= k < |a|
      ensures a[k] == b[k]
    {
      assert Strings.UpperChar(a[k]) == Strings.UpperCase(a)[k] == Strings.UpperChar(b[k]);
    }
  }

  /** Draws taken at different clock readings never produce the same candidate. */
  lemma DistinctTimestampsDistinctNumbers(d1: Draw, d2: Draw)
    requires WellFormed(d1) && WellFormed(d2)
    requires Build(d1) == Build(d2)
    ensures d1.timestamp == d2.timestamp
  {
    BuildShape(d1);
    BuildShape(d2);
    StampUnique(Strings.UpperCase(Radix.ToString(d1.timestamp, 36)), Strings.UpperCase(RandomPart(d1.fraction)),
                Strings.UpperCase(Radix.ToString(d2.timestamp, 36)), Strings.UpperCase(RandomPart(d2.fraction)));
    UpperCaseInjective(Radix.ToString(d1.timestamp, 36), Radix.ToString(d2.timestamp, 36));
    Radix.ToStringInjective(d1.timestamp, d2.timestamp, 36);
  }

  /** The stamp of a `DOC-<stamp>-<suffix>` number is determined by the number. */
  lemma StampUnique(s1: string, x1: string, s2: string, x2: string)
    requires IsCode(s1) && IsCode(s2)
    requires "DOC-" + s1 + "-" + x1 == "DOC-" + s2 + "-" + x2
    ensures s1 == s2
  {
    assert ("DOC-" + s1 + "-" + x1)[4..] == s1 + "-" + x1;
    assert ("DOC-" + s2 + "-" + x2)[4..] == s2 + "-" + x2;
    assert '-' !in s1 && '-' !in s2;
    Strings.SeparatorSplitsUniquely(s1, x1, s2, x2, '-');
  }
}
