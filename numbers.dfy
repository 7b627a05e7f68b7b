/** Python's float() on plain decimal text and the f"{x:.2f}" format, over exact reals. */
module Numbers {
  import opened Common
  import opened Text

  function Abs(x: real): real {
    if x < 0.0 then -x else x
  }

  /** n / 10^k: the value of n read k places after the decimal point. */
  function Shifted(n: nat, k: nat): (r: real)
    ensures r >= 0.0
  {
    if k == 0 then n as real else Shifted(n, k - 1) / 10.0
  }

  /** Position of the first '.', or |t| when there is none. */
  function IndexOfDot(t: string): (i: nat)
    ensures i <= |t| && (i < |t| ==> t[i] == '.')
    ensures forall j :: 0 <= j < i ==> t[j] != '.'
  {
    if t == [] || t[0] == '.' then 0 else 1 + IndexOfDot(t[1..])
  }

  /** An unsigned decimal: digits with at most one point and at least one digit
      ("12", "12.", ".5", "12.50"). */
  function ParseUnsigned(t: string): (r: Option<real>)
    ensures r.Some? ==> r.value >= 0.0
  {
    var i := IndexOfDot(t);
    var whole := t[..i];
    var frac := if i < |t| then t[i + 1..] else [];
    if AllDigits(whole) && AllDigits(frac) && |whole| + |frac| >= 1 then
      Some(DigitsValue(whole) as real + Shifted(DigitsValue(frac), |frac|))
    else None
  }

  /** An optional sign followed by an unsigned decimal. */
  function ParseSigned(t: string): (r: Option<real>)
    ensures r.Some? ==> t != []
  {
    if t != [] && (t[0] == '-' || t[0] == '+') then
      match ParseUnsigned(t[1..])
      case None => None
      case Some(v) => Some(if t[0] == '-' then -v else v)
    else ParseUnsigned(t)
  }

  /** float(s) on decimal text: surrounding whitespace, an optional sign and an
      unsigned decimal. Text with no digit at all is refused. */
  function ParseNumber(s: string): (r: Option<real>)
    ensures r.Some? ==> Strip(s) != []
  {
    ParseSigned(Strip(s))
  }

  /** Rounds a non-negative real to the nearest integer, ties to even. */
  function RoundHalfEven(y: real): (n: nat)
    requires y >= 0.0
    ensures n as real - y <= 0.5 && y - n as real <= 0.5
  {
    var f := y.Floor;
    var frac := y - f as real;
    if frac < 0.5 then f
    else if frac > 0.5 then f + 1
    else if f % 2 == 0 then f
    else f + 1
  }

  /** Number of whole cents f"{x:.2f}" prints for |x|. */
  function CentsOf(x: real): nat {
    RoundHalfEven(Abs(x) * 100.0)
  }

  /** Unsigned text with a minus sign in front when negative. */
  function SignedText(negative: bool, u: string): string {
    if negative then "-" + u else u
  }

  /** An unsigned amount, negated when negative. */
  function SignedValue(negative: bool, v: real): real {
    if negative then -v else v
  }

  /** f"{x:.2f}": sign, whole part, point, exactly two decimals. */
  function FormatFixed2(x: real): (s: string)
    ensures s != []
    ensures forall i :: 0 <= i < |s| ==> s[i] == '-' || s[i] == '.' || IsDigit(s[i])
  {
    CentsTextChars(CentsOf(x));
    SignedText(x < 0.0, CentsText(CentsOf(x)))
  }

  /** The value that FormatFixed2 prints: x rounded to whole cents, at most half a
      cent away from x. */
  function RoundToCents(x: real): (r: real)
    ensures Abs(r - x) <= 0.005
    ensures (r < 0.0 ==> x < 0.0) && (x >= 0.0 ==> r >= 0.0)
  {
    SignedValue(x < 0.0, CentsOf(x) as real / 100.0)
  }

  /** x is a whole number of cents. */
  predicate IsWholeCents(x: real) {
    (x * 100.0).Floor as real == x * 100.0
  }

  /** Rounding to cents changes nothing in a whole number of cents. */
  lemma RoundWholeCents(x: real)
    requires IsWholeCents(x)
    ensures RoundToCents(x) == x
  {
    var y := Abs(x) * 100.0;
    if x < 0.0 {
      assert y == -(x * 100.0);
      assert y.Floor == -((x * 100.0).Floor);
    }
    assert y.Floor as real == y;
  }

  lemma IndexOfDotAfterDigits(w: string, f: string)
    requires AllDigits(w)
    ensures IndexOfDot(w + "." + f) == |w|
  {
    var t := w + "." + f;
    assert t[|w|] == '.';
    assert forall j :: 0 <= j < |w| ==> t[j] == w[j];
  }

  /** The unsigned text for c cents. */
  function CentsText(c: nat): (r: string)
    ensures |r| >= 4 && IsDigit(r[0]) && IsDigit(r[|r| - 1])
  {
    NatToString(c / 100) + "." + [DigitChar(c % 100 / 10), DigitChar(c % 10)]
  }

  /** The text for c cents holds only digits and the decimal point. */
  lemma CentsTextChars(c: nat)
    ensures forall i :: 0 <= i < |CentsText(c)| ==> CentsText(c)[i] == '.' || IsDigit(CentsText(c)[i])
  {
  }

  lemma ParseCentsText(c: nat)
    ensures ParseUnsigned(CentsText(c)) == Some(c as real / 100.0)
  {
    var w := NatToString(c / 100);
    var f := [DigitChar(c % 100 / 10), DigitChar(c % 10)];
    var u := CentsText(c);
    IndexOfDotAfterDigits(w, f);
    assert u[..|w|] == w && u[|w| + 1..] == f;
    DigitsOfNatToString(c / 100);
    Digits2(f);
    assert DigitsValue(f) == c % 100;
    assert Shifted(c % 100, 1) == (c % 100) as real / 10.0;
    assert c as real == (100 * (c / 100)) as real + (c % 100) as real;
  }

  /** Text that starts and ends with a digit has no padding and no sign, so
      float() reads it as an unsigned decimal ... */
  lemma UnsignedNumber(u: string, v: real)
    requires u != [] && IsDigit(u[0]) && IsDigit(u[|u| - 1]) && ParseUnsigned(u) == Some(v)
    ensures ParseNumber(u) == Some(v)
  {
    StripTrimmed(u);
    assert ParseSigned(u) == Some(v);
  }

  /** ... and the same text after a minus sign as its negation. */
  lemma NegatedNumber(u: string, v: real)
    requires u != [] && IsDigit(u[0]) && IsDigit(u[|u| - 1]) && ParseUnsigned(u) == Some(v)
    ensures ParseNumber("-" + u) == Some(-v)
  {
    ConsParts('-', u);
    StripTrimmed("-" + u);
    assert ParseSigned("-" + u) == Some(-v);
  }

  /** UnsignedNumber and NegatedNumber for all texts at once. */
  lemma SignedNumbersAll()
    ensures forall u: string, v: real :: u != [] && IsDigit(u[0]) && IsDigit(u[|u| - 1]) && ParseUnsigned(u) == Some(v)
              ==> ParseNumber(u) == Some(v) && ParseNumber("-" + u) == Some(-v)
  {
    forall u: string, v: real | u != [] && IsDigit(u[0]) && IsDigit(u[|u| - 1]) && ParseUnsigned(u) == Some(v)
      ensures ParseNumber(u) == Some(v) && ParseNumber("-" + u) == Some(-v)
    {
      UnsignedNumber(u, v);
      NegatedNumber(u, v);
    }
  }

  /** float() reads the signed text of c cents as the signed amount. */
  lemma ParseSignedCents(negative: bool, c: nat)
    ensures ParseNumber(SignedText(negative, CentsText(c))) == Some(SignedValue(negative, c as real / 100.0))
  {
    ParseCentsText(c);
    SignedNumbersAll();
  }

  /** ParseSignedCents for every sign and count of cents at once, so that callers
      need not name the count. */
  lemma ParseSignedCentsAll()
    ensures forall negative: bool, c: nat :: ParseNumber(SignedText(negative, CentsText(c)))
                                          == Some(SignedValue(negative, c as real / 100.0))
  {
    forall negative: bool, c: nat
      ensures ParseNumber(SignedText(negative, CentsText(c))) == Some(SignedValue(negative, c as real / 100.0))
    {
      ParseSignedCents(negative, c);
    }
  }

  /** float() reads back exactly the rounded value f"{x:.2f}" printed. */
  lemma FormatFixed2RoundTrip(x: real)
    ensures ParseNumber(FormatFixed2(x)) == Some(RoundToCents(x))
  {
    ParseSignedCentsAll();
  }
}
