/** The decimal rendering of Go's `strconv.Itoa`, its inverse, and the
    canonical form of its output: an optional `-`, then digits with no
    leading zero except in "0" itself. */
module Strconv {

  /** Go's `int` on 64-bit targets. */
  const MinInt: int := -0x8000_0000_0000_0000
  const MaxInt: int := 0x7fff_ffff_ffff_ffff
  type GoInt = x: int | MinInt <= x <= MaxInt

  predicate IsDigit(ch: char)
  {
    '0' <= ch <= '9'
  }

  predicate AllDigits(s: string)
  {
    forall i :: 0 <= i < |s| ==> IsDigit(s[i])
  }

  /** The text of a natural number: digits, no leading zero unless "0". */
  predicate IsCanonicalNat(s: string)
  {
    |s| > 0 && AllDigits(s) && (s[0] == '0' ==> |s| == 1)
  }

  /** The text of an integer: a canonical natural, or `-` and a canonical
      positive natural. */
  predicate IsCanonicalInt(s: string)
  {
    IsCanonicalNat(s) || (|s| >= 2 && s[0] == '-' && IsCanonicalNat(s[1..]) && s[1] != '0')
  }

  function DigitChar(d: nat): (ch: char)
    requires d < 10
    ensures IsDigit(ch)
  {
    ('0' as int + d) as char
  }

  function DigitValue(ch: char): (d: nat)
    requires IsDigit(ch)
    ensures d < 10
  {
    ch as int - '0' as int
  }

  /** Base-10 digits of `n`, most significant first. */
  function FormatNat(n: nat): (s: string)
    ensures IsCanonicalNat(s)
    ensures s[0] == '0' <==> n == 0
    decreases n
  {
    if n < 10 then [DigitChar(n)] else FormatNat(n / 10) + [DigitChar(n % 10)]
  }

  /** `strconv.Itoa`: a leading `-` for negative numbers, then the digits of
      the magnitude. */
  function Itoa(i: int): (s: string)
    ensures IsCanonicalInt(s)
    ensures s[0] == '-' <==> i < 0
  {
    if i < 0 then "-" + FormatNat(-i) else FormatNat(i)
  }

  /** The value of a string of digits. */
  function ParseNat(s: string): nat
    requires AllDigits(s)
    decreases |s|
  {
    if |s| == 0 then 0 else ParseNat(s[..|s| - 1]) * 10 + DigitValue(s[|s| - 1])
  }

  /** The value of a canonical integer text. */
  function ParseInt(s: string): int
    requires IsCanonicalInt(s)
  {
    if s[0] == '-' then -(ParseNat(s[1..]) as int) else ParseNat(s)
  }

  lemma {:induction false} ParseFormatNat(n: nat)
    ensures ParseNat(FormatNat(n)) == n
    decreases n
  {
    var s := FormatNat(n);
    if n >= 10 {
      ParseFormatNat(n / 10);
      assert s[..|s| - 1] == FormatNat(n / 10);
    }
  }

  /** Digits that do not start with zero stand for a positive number. */
  lemma {:induction false} LeadingDigitPositive(s: string)
    requires |s| > 0 && AllDigits(s) && s[0] != '0'
    ensures ParseNat(s) >= 1
    decreases |s|
  {
    if |s| > 1 {
      LeadingDigitPositive(s[..|s| - 1]);
    }
  }

  lemma {:induction false} FormatParseNat(s: string)
    requires IsCanonicalNat(s)
    ensures FormatNat(ParseNat(s)) == s
    decreases |s|
  {
    var init := s[..|s| - 1];
    var d := DigitValue(s[|s| - 1]);
    if |s| == 1 {
      assert ParseNat(s) == d;
      assert DigitChar(d) == s[0];
    } else {
      assert init[0] == s[0];
      LeadingDigitPositive(init);
      FormatParseNat(init);
      var n := ParseNat(s);
      assert n == ParseNat(init) * 10 + d;
      assert n / 10 == ParseNat(init) && n % 10 == d;
      assert DigitChar(d) == s[|s| - 1];
      assert s == init + [s[|s| - 1]];
    }
  }

  /** Parsing undoes `Itoa`. */
  lemma ItoaRoundTrip(i: int)
    ensures ParseInt(Itoa(i)) == i
  {
    if i < 0 {
      assert Itoa(i)[1..] == FormatNat(-i);
      ParseFormatNat(-i);
    } else {
      ParseFormatNat(i);
    }
  }

  /** `Itoa` undoes parsing: every canonical text is the rendering of its value. */
  lemma ParseRoundTrip(s: string)
    requires IsCanonicalInt(s)
    ensures Itoa(ParseInt(s)) == s
  {
    if s[0] == '-' {
      FormatParseNat(s[1..]);
      LeadingDigitPositive(s[1..]);
      assert s == "-" + s[1..];
    } else {
      FormatParseNat(s);
    }
  }

  /** Distinct integers render as distinct texts. */
  lemma ItoaInjective(i: int, j: int)
    requires Itoa(i) == Itoa(j)
    ensures i == j
  {
    ItoaRoundTrip(i);
    ItoaRoundTrip(j);
  }

  function Pow10(k: nat): (p: nat)
    ensures p >= 1
  {
    if k == 0 then 1 else 10 * Pow10(k - 1)
  }

  lemma {:induction false} FormatNatLength(n: nat, k: nat)
    requires n < Pow10(k + 1)
    ensures |FormatNat(n)| <= k + 1
    decreases k
  {
    if n >= 10 {
      assert k > 0;
      assert n / 10 < Pow10(k);
      FormatNatLength(n / 10, k - 1);
    }
  }

  /** A 64-bit integer renders in at most 20 characters (`-` and 19 digits). */
  lemma ItoaLength(i: GoInt)
    ensures |Itoa(i)| <= 20
  {
    assert Pow10(4) == 10_000;
    assert Pow10(8) == 100_000_000;
    assert Pow10(12) == 1_000_000_000_000;
    assert Pow10(16) == 10_000_000_000_000_000;
    assert Pow10(19) == 10_000_000_000_000_000_000;
    if i < 0 {
      FormatNatLength(-(i as int), 18);
    } else {
      FormatNatLength(i, 18);
    }
  }
}
