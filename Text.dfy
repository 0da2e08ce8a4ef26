/** The string helpers the materials and the localization code rely on: ASCII case folding
    (Utils::CaseInsensitiveEquals) and the decimal rendering of a number by a stream. */
module Text {

  /** The lower-case form of an ASCII letter; every other character is left alone. */
  function LowerChar(c: char): char {
    if 'A' <= c <= 'Z' then (c as int + 32) as char else c
  }

  /** A string with every ASCII letter folded to lower case. */
  function Lower(s: string): string {
    seq(|s|, i requires 0 <= i < |s| => LowerChar(s[i]))
  }

  /** Whether two strings are equal once ASCII letters are folded to lower case. */
  predicate CaseInsensitiveEquals(a: string, b: string) {
    Lower(a) == Lower(b)
  }

  /** The comparison is character by character: equal lengths, and equal characters after
      folding at every position. */
  lemma CaseInsensitiveEqualsCharwise(a: string, b: string)
    ensures CaseInsensitiveEquals(a, b) <==>
      |a| == |b| && forall i :: 0 <= i < |a| ==> LowerChar(a[i]) == LowerChar(b[i])
  {
    if CaseInsensitiveEquals(a, b) {
      assert |a| == |Lower(a)| == |Lower(b)| == |b|;
      forall i | 0 <= i < |a|
        ensures LowerChar(a[i]) == LowerChar(b[i])
      {
        assert Lower(a)[i] == Lower(b)[i];
      }
    }
    if |a| == |b| && forall i :: 0 <= i < |a| ==> LowerChar(a[i]) == LowerChar(b[i]) {
      assert forall i :: 0 <= i < |a| ==> Lower(a)[i] == Lower(b)[i];
    }
  }

  /** Case-insensitive equality is an equivalence. */
  lemma CaseInsensitiveEquivalence(a: string, b: string, c: string)
    ensures CaseInsensitiveEquals(a, a)
    ensures CaseInsensitiveEquals(a, b) ==> CaseInsensitiveEquals(b, a)
    ensures CaseInsensitiveEquals(a, b) && CaseInsensitiveEquals(b, c) ==> CaseInsensitiveEquals(a, c)
  {
  }

  /** Strings that differ, after case folding, at some position are not equal. */
  lemma NotCaseEqualAt(a: string, b: string, k: nat)
    requires k < |a| && k < |b| && LowerChar(a[k]) != LowerChar(b[k])
    ensures !CaseInsensitiveEquals(a, b)
  {
    assert Lower(a)[k] != Lower(b)[k];
  }

  /** Upper and lower case of a letter compare equal. */
  lemma LowerCharFolds(c: char)
    requires 'A' <= c <= 'Z'
    ensures LowerChar(c) == LowerChar((c as int + 32) as char) && 'a' <= LowerChar(c) <= 'z'
  {
  }

  // ---- Decimal numbers ----

  predicate IsDigit(c: char) {
    '0' <= c <= '9'
  }

  /** The value of a decimal digit. */
  function DigitValue(c: char): (d: nat)
    requires IsDigit(c)
    ensures d < 10
  {
    c as int - '0' as int
  }

  function DigitChar(d: nat): (c: char)
    requires d < 10
    ensures IsDigit(c) && DigitValue(c) == d
  {
    ('0' as int + d) as char
  }

  /** The decimal digits of `n`, most significant first, without leading zeros: what
      `stream << n` writes for a non-negative integer. */
  function NatToDecimal(n: nat): (s: string)
    ensures |s| >= 1 && forall i :: 0 <= i < |s| ==> IsDigit(s[i])
    ensures |s| >= 2 ==> s[0] != '0'
  {
    if n < 10 then [DigitChar(n)] else NatToDecimal(n / 10) + [DigitChar(n % 10)]
  }

  /** The number a string of decimal digits denotes. */
  function DecimalValue(s: string): nat
    requires forall i :: 0 <= i < |s| ==> IsDigit(s[i])
  {
    if s == [] then 0 else DecimalValue(s[..|s| - 1]) * 10 + DigitValue(s[|s| - 1])
  }

  /** Reading the digits back gives the number: the rendering loses nothing. */
  lemma {:induction false} DecimalRoundTrip(n: nat)
    ensures DecimalValue(NatToDecimal(n)) == n
  {
    var s := NatToDecimal(n);
    if n >= 10 {
      DecimalRoundTrip(n / 10);
      assert s[..|s| - 1] == NatToDecimal(n / 10);
    }
  }

  /** Distinct numbers have distinct renderings. */
  lemma DecimalInjective(m: nat, n: nat)
    requires NatToDecimal(m) == NatToDecimal(n)
    ensures m == n
  {
    DecimalRoundTrip(m);
    DecimalRoundTrip(n);
  }

  /** Two strings with the same prefix are equal exactly when their tails are. */
  lemma SamePrefixCancels(p: string, a: string, b: string)
    requires p + a == p + b
    ensures a == b
  {
    assert a == (p + a)[|p|..];
    assert b == (p + b)[|p|..];
  }
}
