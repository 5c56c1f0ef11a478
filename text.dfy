/**
 * Text behaviour the controller relies on. String.equalsIgnoreCase is the
 * owner check of a withdrawal. Long.toString of an id is the last segment of
 * the Location of a created account. Two stand-ins complete the picture:
 * LexLeq is the order the database's ORDER BY gives a text property, taken
 * as lexicographic on characters, and ParseLong is the conversion of the
 * `{requestedId}` path segment back to an id.
 */
module Text {
  import opened Wrappers

  // ---------------------------------------------------------------------
  // String.equalsIgnoreCase
  // ---------------------------------------------------------------------

  /** Character.toUpperCase, restricted to the ASCII letters. */
  function ToUpperAscii(c: char): (u: char)
  {
    if 'a' <= c <= 'z' then (c as int - 32) as char else c
  }

  /** The string with every ASCII letter in upper case. */
  function UpperAscii(s: string): (u: string)
  {
    seq(|s|, i requires 0 <= i < |s| => ToUpperAscii(s[i]))
  }

  /** String.regionMatches(true, 0, b, 0, |a|): the characters agree pairwise up to case. */
  predicate RegionMatchesIgnoreCase(a: string, b: string)
    requires |a| == |b|
  {
    |a| == 0 ||
    ((a[0] == b[0] || ToUpperAscii(a[0]) == ToUpperAscii(b[0])) &&
     RegionMatchesIgnoreCase(a[1..], b[1..]))
  }

  /** String.equalsIgnoreCase: equal lengths and a case-insensitive match of every character. */
  predicate EqualsIgnoreCase(a: string, b: string)
  {
    |a| == |b| && RegionMatchesIgnoreCase(a, b)
  }

  lemma {:induction false} RegionMatchesIffSameUpper(a: string, b: string)
    requires |a| == |b|
    ensures RegionMatchesIgnoreCase(a, b) <==> UpperAscii(a) == UpperAscii(b)
  {
    if |a| > 0 {
      RegionMatchesIffSameUpper(a[1..], b[1..]);
      var ua, ub := UpperAscii(a), UpperAscii(b);
      assert ua == [ToUpperAscii(a[0])] + UpperAscii(a[1..]);
      assert ub == [ToUpperAscii(b[0])] + UpperAscii(b[1..]);
      if ua == ub {
        assert ua[0] == ub[0] && ua[1..] == ub[1..];
      }
    } else {
      assert UpperAscii(a) == [] == UpperAscii(b);
    }
  }

  /**
   * The character-by-character definition agrees with the reference one:
   * two strings are equal ignoring case exactly when their upper-case forms
   * are equal.
   */
  lemma EqualsIgnoreCaseIffSameUpper(a: string, b: string)
    ensures EqualsIgnoreCase(a, b) <==> UpperAscii(a) == UpperAscii(b)
  {
    if |a| == |b| {
      RegionMatchesIffSameUpper(a, b);
    } else {
      assert |UpperAscii(a)| != |UpperAscii(b)|;
    }
  }

  /** Case-insensitive equality is an equivalence that contains plain equality. */
  lemma EqualsIgnoreCaseEquivalence(a: string, b: string, c: string)
    ensures EqualsIgnoreCase(a, a)
    ensures EqualsIgnoreCase(a, b) ==> EqualsIgnoreCase(b, a)
    ensures EqualsIgnoreCase(a, b) && EqualsIgnoreCase(b, c) ==> EqualsIgnoreCase(a, c)
  {
    EqualsIgnoreCaseIffSameUpper(a, a);
    EqualsIgnoreCaseIffSameUpper(a, b);
    EqualsIgnoreCaseIffSameUpper(b, a);
    EqualsIgnoreCaseIffSameUpper(b, c);
    EqualsIgnoreCaseIffSameUpper(a, c);
  }

  // ---------------------------------------------------------------------
  // Lexicographic order on characters, as a "less than or equal"
  // ---------------------------------------------------------------------

  /** Lexicographic order by character code; a proper prefix comes first. */
  predicate LexLeq(a: string, b: string)
  {
    |a| == 0 || (|b| > 0 && (a[0] < b[0] || (a[0] == b[0] && LexLeq(a[1..], b[1..]))))
  }

  lemma {:induction false} LexLeqTotal(a: string, b: string)
    ensures LexLeq(a, b) || LexLeq(b, a)
  {
    if |a| > 0 && |b| > 0 && a[0] == b[0] {
      LexLeqTotal(a[1..], b[1..]);
    }
  }

  lemma {:induction false} LexLeqTransitive(a: string, b: string, c: string)
    requires LexLeq(a, b) && LexLeq(b, c)
    ensures LexLeq(a, c)
  {
    if |a| > 0 && a[0] == b[0] && b[0] == c[0] {
      LexLeqTransitive(a[1..], b[1..], c[1..]);
    }
  }

  lemma {:induction false} LexLeqAntisymmetric(a: string, b: string)
    requires LexLeq(a, b) && LexLeq(b, a)
    ensures a == b
  {
    if |a| > 0 {
      LexLeqAntisymmetric(a[1..], b[1..]);
    }
  }

  // ---------------------------------------------------------------------
  // Long.toString, and reading a decimal id back
  // ---------------------------------------------------------------------

  predicate IsDigits(s: string)
  {
    forall i :: 0 <= i < |s| ==> '0' <= s[i] <= '9'
  }

  function DigitChar(d: int): (c: char)
    requires 0 <= d < 10
  {
    ('0' as int + d) as char
  }

  /** The decimal digits of n, most significant first, without leading zeros. */
  function NatToDecimal(n: nat): (s: string)
    ensures |s| > 0 && IsDigits(s)
    ensures |s| > 1 ==> s[0] != '0'
  {
    if n < 10 then [DigitChar(n)] else NatToDecimal(n / 10) + [DigitChar(n % 10)]
  }

  /** Long.toString: a minus sign for negative values, then the digits. */
  function IntToDecimal(n: int): (s: string)
  {
    if n < 0 then "-" + NatToDecimal(-n) else NatToDecimal(n)
  }

  /** The value of a string of decimal digits. */
  function DigitsValue(s: string): (v: nat)
    requires IsDigits(s)
  {
    if s == [] then 0 else DigitsValue(s[..|s| - 1]) * 10 + (s[|s| - 1] as int - '0' as int)
  }

  /** Reading an id from a path segment, as Long.parseLong does: an optional sign, then at least one decimal digit; anything else fails. */
  function ParseLong(s: string): (r: Option<int>)
  {
    if |s| > 0 && (s[0] == '-' || s[0] == '+') then
      if |s| > 1 && IsDigits(s[1..]) then
        var magnitude: int := DigitsValue(s[1..]);
        Some(if s[0] == '-' then -magnitude else magnitude)
      else None
    else if |s| > 0 && IsDigits(s) then Some(DigitsValue(s))
    else None
  }

  lemma {:induction false} NatToDecimalRoundTrip(n: nat)
    ensures DigitsValue(NatToDecimal(n)) == n
  {
    if n >= 10 {
      NatToDecimalRoundTrip(n / 10);
      var s := NatToDecimal(n);
      assert s[..|s| - 1] == NatToDecimal(n / 10);
    }
  }

  lemma ParseUnsigned(s: string)
    requires |s| > 0 && IsDigits(s)
    ensures ParseLong(s) == Some(DigitsValue(s))
  {
    assert '0' <= s[0] <= '9';
  }

  lemma ParseNegative(digits: string)
    requires |digits| > 0 && IsDigits(digits)
    ensures ParseLong("-" + digits) == Some(0 - DigitsValue(digits))
  {
    var s := "-" + digits;
    assert s[0] == '-' && s[1..] == digits;
  }

  /** Parsing the decimal form of any id gives that id back. */
  lemma IntToDecimalRoundTrip(n: int)
    ensures ParseLong(IntToDecimal(n)) == Some(n)
  {
    if n < 0 {
      NatToDecimalRoundTrip(-n);
      ParseNegative(NatToDecimal(-n));
    } else {
      NatToDecimalRoundTrip(n);
      ParseUnsigned(NatToDecimal(n));
    }
  }
}
