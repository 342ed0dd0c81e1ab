/**
 * Character-level helpers shared by the search-term matcher and the asset-id
 * scanner: ASCII case folding, infix search, and PHP's decimal rendering of
 * integers (`(string) $int`).
 */
module Text {

  import opened Wrappers

  /** ASCII lower-casing of one character; everything outside A-Z is kept. */
  function LowerChar(c: char): char {
    if 'A' <= c <= 'Z' then (c as int + 32) as char else c
  }

  function Lower(s: string): string {
    seq(|s|, i requires 0 <= i < |s| => LowerChar(s[i]))
  }

  predicate IsPrefix(p: string, s: string) {
    |p| <= |s| && s[..|p|] == p
  }

  /** `needle` occurs in `haystack` starting at position `i`. */
  predicate OccursAt(needle: string, haystack: string, i: int) {
    0 <= i && i + |needle| <= |haystack| && haystack[i..i + |needle|] == needle
  }

  /** `str_contains(haystack, needle)`: the needle is an infix of the haystack. */
  predicate IsInfix(needle: string, haystack: string)
    decreases |haystack|
  {
    IsPrefix(needle, haystack) || (|haystack| > 0 && IsInfix(needle, haystack[1..]))
  }

  /** An occurrence at any position makes the recursive infix test succeed. */
  lemma {:induction false} OccursImpliesInfix(needle: string, haystack: string, i: int)
    requires OccursAt(needle, haystack, i)
    ensures IsInfix(needle, haystack)
    decreases i
  {
    if i > 0 {
      var tail := haystack[1..];
      assert tail[i - 1..i - 1 + |needle|] == haystack[i..i + |needle|];
      OccursImpliesInfix(needle, tail, i - 1);
    }
  }

  /** A successful recursive infix test names a position where the needle occurs. */
  lemma {:induction false} InfixImpliesOccurs(needle: string, haystack: string) returns (i: int)
    requires IsInfix(needle, haystack)
    ensures OccursAt(needle, haystack, i)
    decreases |haystack|
  {
    if IsPrefix(needle, haystack) {
      i := 0;
    } else {
      var tail := haystack[1..];
      var j := InfixImpliesOccurs(needle, tail);
      assert haystack[j + 1..j + 1 + |needle|] == tail[j..j + |needle|];
      i := j + 1;
    }
  }

  /** The recursive infix test agrees with "there is a position where the needle occurs". */
  lemma InfixIffOccurs(needle: string, haystack: string)
    ensures IsInfix(needle, haystack) <==> exists i :: OccursAt(needle, haystack, i)
  {
    if IsInfix(needle, haystack) {
      var i := InfixImpliesOccurs(needle, haystack);
    }
    forall i | OccursAt(needle, haystack, i) {
      OccursImpliesInfix(needle, haystack, i);
    }
  }

  /** `mb_stripos(haystack, needle) !== false`, with ASCII case folding. */
  predicate ContainsCaseInsensitive(haystack: string, needle: string) {
    IsInfix(Lower(needle), Lower(haystack))
  }

  predicate IsDigit(c: char) {
    '0' <= c <= '9'
  }

  predicate AllDigits(s: string) {
    forall k :: 0 <= k < |s| ==> IsDigit(s[k])
  }

  function DigitChar(d: nat): char
    requires d < 10
  {
    (48 + d) as char
  }

  function DigitValue(c: char): nat
    requires IsDigit(c)
  {
    c as int - 48
  }

  /** Decimal digits of a natural number, most significant first, without leading zeros. */
  function NatToDecimal(n: nat): (r: string)
    ensures |r| >= 1
    ensures AllDigits(r)
    ensures r[0] == '0' ==> n == 0
    decreases n
  {
    if n < 10 then [DigitChar(n)] else NatToDecimal(n / 10) + [DigitChar(n % 10)]
  }

  /** The number a digit string denotes. */
  function DecimalValue(s: string): nat
    requires AllDigits(s)
    decreases |s|
  {
    if |s| == 0 then 0 else 10 * DecimalValue(s[..|s| - 1]) + DigitValue(s[|s| - 1])
  }

  lemma {:induction false} NatToDecimalRoundTrip(n: nat)
    ensures DecimalValue(NatToDecimal(n)) == n
    decreases n
  {
    if n >= 10 {
      NatToDecimalRoundTrip(n / 10);
      var r := NatToDecimal(n);
      assert r[..|r| - 1] == NatToDecimal(n / 10);
    }
  }

  /**
   * PHP's `(string) $int`: a minus sign for negative numbers, then the digits
   * of the magnitude, with no leading zero except for zero itself.
   */
  function IntToDecimal(i: int): (r: string)
    ensures |r| >= 1
    ensures r[0] == '-' <==> i < 0
    ensures i < 0 ==> |r| >= 2 && AllDigits(r[1..])
    ensures i >= 0 ==> AllDigits(r)
    ensures i >= 0 && r[0] == '0' ==> i == 0
    ensures i < 0 ==> r[1] != '0'
    ensures CanonicalDecimal(r)
  {
    if i < 0 then "-" + NatToDecimal(-i) else NatToDecimal(i)
  }

  /** Reads back an optionally signed digit string. */
  function ParseDecimal(s: string): Option<int>
  {
    if |s| >= 1 && s[0] == '-' && AllDigits(s[1..]) then Some(0 - DecimalValue(s[1..]))
    else if AllDigits(s) then Some(DecimalValue(s))
    else None
  }

  /** The rendering is lossless: parsing it gives back the integer. */
  lemma DecimalRoundTrip(i: int)
    ensures ParseDecimal(IntToDecimal(i)) == Some(i)
  {
    if i < 0 {
      NatToDecimalRoundTrip(-i);
      assert IntToDecimal(i)[1..] == NatToDecimal(-i);
    } else {
      NatToDecimalRoundTrip(i);
    }
  }
  /** A digit string without leading zeros, except for `0` itself. */
  predicate CanonicalDigits(s: string) {
    |s| >= 1 && AllDigits(s) && (s[0] == '0' ==> |s| == 1)
  }

  /** A canonical rendering of an integer: canonical digits, or a minus sign before canonical digits other than `0`. */
  predicate CanonicalDecimal(s: string) {
    CanonicalDigits(s) || (|s| >= 2 && s[0] == '-' && s[1] != '0' && CanonicalDigits(s[1..]))
  }

  lemma {:induction false} LeadingDigitBoundsValue(s: string)
    requires CanonicalDigits(s) && s[0] != '0'
    ensures DecimalValue(s) >= 1
    ensures |s| >= 2 ==> DecimalValue(s) >= 10
    decreases |s|
  {
    if |s| >= 2 {
      var p := s[..|s| - 1];
      assert p[0] == s[0];
      assert AllDigits(p) by {
        forall k | 0 <= k < |p| ensures IsDigit(p[k]) {
          assert p[k] == s[k];
        }
      }
      LeadingDigitBoundsValue(p);
    }
  }

  lemma SameValueSameDigits(x: nat, dx: nat, y: nat, dy: nat)
    requires dx < 10 && dy < 10 && 10 * x + dx == 10 * y + dy
    ensures x == y && dx == dy
  {
  }

  /** Distinct canonical digit strings denote distinct numbers. */
  lemma {:induction false} CanonicalDigitsAreUnique(a: string, b: string)
    requires CanonicalDigits(a) && CanonicalDigits(b) && DecimalValue(a) == DecimalValue(b)
    ensures a == b
    decreases |a|
  {
    if |a| == 1 && |b| == 1 {
      assert DigitValue(a[0]) == DigitValue(b[0]);
    } else if |a| == 1 {
      LeadingDigitBoundsValue(b);
    } else if |b| == 1 {
      LeadingDigitBoundsValue(a);
    } else {
      var pa, pb := a[..|a| - 1], b[..|b| - 1];
      assert pa[0] == a[0] && pb[0] == b[0];
      assert AllDigits(pa) && AllDigits(pb) by {
        forall k | 0 <= k < |pa| ensures IsDigit(pa[k]) {
          assert pa[k] == a[k];
        }
        forall k | 0 <= k < |pb| ensures IsDigit(pb[k]) {
          assert pb[k] == b[k];
        }
      }
      SameValueSameDigits(DecimalValue(pa), DigitValue(a[|a| - 1]), DecimalValue(pb), DigitValue(b[|b| - 1]));
      CanonicalDigitsAreUnique(pa, pb);
      assert a == pa + [a[|a| - 1]] && b == pb + [b[|b| - 1]];
    }
  }

  /**
   * `IntToDecimal` is the one canonical rendering: any canonical string that
   * parses to `i` is `IntToDecimal(i)`.
   */
  lemma IntToDecimalIsTheCanonicalRendering(s: string, i: int)
    requires CanonicalDecimal(s) && ParseDecimal(s) == Some(i)
    ensures s == IntToDecimal(i)
  {
    if |s| >= 2 && s[0] == '-' && s[1] != '0' && CanonicalDigits(s[1..]) {
      var digits := s[1..];
      assert digits[0] == s[1];
      LeadingDigitBoundsValue(digits);
      assert i == 0 - DecimalValue(digits) && i < 0;
      NatToDecimalRoundTrip(-i);
      CanonicalDigitsAreUnique(digits, NatToDecimal(-i));
      assert s == "-" + digits;
    } else {
      assert CanonicalDigits(s) && i == DecimalValue(s);
      NatToDecimalRoundTrip(i);
      CanonicalDigitsAreUnique(s, NatToDecimal(i));
    }
  }
}
