/** Input normalisation: raw user text to transaction field values. */
module Utils {
  import opened Common
  import opened Text
  import opened Numbers
  import opened Calendar
  import opened Models

  /** parse_date: blank input stands for today; anything else must be text that
      strptime("%Y-%m-%d") reads as an existing date. */
  function ParseDate(s: string, today: CalendarDate): (r: Result<CalendarDate>)
    ensures Strip(s) == [] ==> r == Ok(today)
    ensures Strip(s) != [] ==> (r.Ok? <==> StrptimeDate(Strip(s)).Some?)
    ensures Strip(s) != [] && r.Ok? ==> r.value == StrptimeDate(Strip(s)).value
    ensures r.Err? ==> r.error == BadDateInput
  {
    var t := Strip(s);
    if t == [] then Ok(today)
    else match StrptimeDate(t)
      case None => Err(BadDateInput)
      case Some(d) => Ok(d)
  }

  /** A date typed in the stored YYYY-MM-DD form is read as that date, whatever
      today is. */
  lemma ParseDateOfIso(d: CalendarDate, today: CalendarDate)
    ensures ParseDate(IsoFormat(d), today) == Ok(d)
  {
    var s := IsoFormat(d);
    assert IsDigit(s[0]) && IsDigit(s[9]);
    StripTrimmed(s);
    StrptimeAcceptsIso(d);
  }

  function CommaToPoint(c: char): char {
    if c == ',' then '.' else c
  }

  function PointToComma(c: char): char {
    if c == '.' then ',' else c
  }

  /** The number float() reads once the text is stripped and every ',' has become '.'. */
  function AmountValue(s: string): Option<real> {
    ParseNumber(MapChars(CommaToPoint, Strip(s)))
  }

  /** parse_amount: the number must be readable and above zero. */
  function ParseAmount(s: string): (r: Result<real>)
    ensures r.Ok? ==> r.value > 0.0
    ensures r.Ok? <==> AmountValue(s).Some? && AmountValue(s).value > 0.0
    ensures r.Ok? ==> r.value == AmountValue(s).value
    ensures r.Err? ==> r.error == (if AmountValue(s).None? then AmountNotNumeric else AmountNotPositive)
  {
    match AmountValue(s)
    case None => Err(AmountNotNumeric)
    case Some(v) => if v <= 0.0 then Err(AmountNotPositive) else Ok(v)
  }

  /** A comma is read as the decimal point: turning every ',' into '.' beforehand
      changes nothing. */
  lemma ParseAmountDecimalComma(s: string)
    ensures ParseAmount(MapChars(CommaToPoint, s)) == ParseAmount(s)
  {
    AmountValueDecimalComma(s);
  }

  lemma AmountValueDecimalComma(s: string)
    ensures AmountValue(MapChars(CommaToPoint, s)) == AmountValue(s)
  {
    CommaToPointKeepsSpaces();
    StripMapped(CommaToPoint, s);
    CommaToPointTwice(Strip(s));
  }

  lemma CommaToPointKeepsSpaces()
    ensures KeepsSpaces(CommaToPoint)
  {
  }

  lemma CommaToPointTwice(t: string)
    ensures MapChars(CommaToPoint, MapChars(CommaToPoint, t)) == MapChars(CommaToPoint, t)
  {
  }

  /** Every positive amount the ledger prints with two decimals is read back as the
      same amount. */
  lemma ParseAmountOfFormatted(x: real)
    requires x > 0.0 && IsWholeCents(x)
    ensures ParseAmount(FormatFixed2(x)) == Ok(x)
  {
    var s := FormatFixed2(x);
    assert s == CentsText(CentsOf(x));
    StripTrimmed(s);
    assert MapChars(CommaToPoint, s) == s;
    FormatFixed2RoundTrip(x);
    RoundWholeCents(x);
    assert ParseNumber(s) == Some(x);
    assert ParseNumber(MapChars(CommaToPoint, Strip(s))) == Some(x);
  }

  /** Writing the decimal point as a comma and reading the comma back as a point
      restores any text that had no comma. */
  lemma CommaRoundTrip(s: string)
    requires forall i :: 0 <= i < |s| ==> s[i] != ','
    ensures MapChars(CommaToPoint, MapChars(PointToComma, s)) == s
  {
    var c := MapChars(PointToComma, s);
    var d := MapChars(CommaToPoint, c);
    forall i | 0 <= i < |s|
      ensures d[i] == s[i]
    {
      assert c[i] == PointToComma(s[i]);
    }
  }

  /** The same holds when the amount is typed with a decimal comma. */
  lemma ParseAmountOfCommaFormatted(x: real)
    requires x > 0.0 && IsWholeCents(x)
    ensures ParseAmount(MapChars(PointToComma, FormatFixed2(x))) == Ok(x)
  {
    var s := FormatFixed2(x);
    var c := MapChars(PointToComma, s);
    assert forall i :: 0 <= i < |s| ==> s[i] != ',';
    CommaRoundTrip(s);
    ParseAmountDecimalComma(c);
    ParseAmountOfFormatted(x);
  }

  /** "12,50" is read as 12.50. */
  lemma ParseAmountCommaExample()
    ensures ParseAmount("12,50") == Ok(12.5)
  {
    CommaExampleValue();
  }

  lemma CommaExampleValue()
    ensures AmountValue("12,50") == Some(12.5)
  {
    StripTrimmed("12,50");
    CommaExampleText();
    TwelveFiftyValue();
  }

  lemma CommaExampleText()
    ensures MapChars(CommaToPoint, "12,50") == "12.50"
  {
    var b := MapChars(CommaToPoint, "12,50");
    assert b[0] == '1' && b[1] == '2' && b[2] == '.' && b[3] == '5' && b[4] == '0';
  }

  lemma TwelveFiftyValue()
    ensures ParseNumber("12.50") == Some(12.5)
  {
    TwelveFiftyDigits();
    UnsignedNumber("12.50", 12.5);
  }

  lemma TwelveFiftyDigits()
    ensures ParseUnsigned("12.50") == Some(12.5)
  {
    var b := "12.50";
    assert b == "12" + "." + "50";
    IndexOfDotAfterDigits("12", "50");
    assert b[..2] == "12" && b[3..] == "50";
    Digits2("12");
    Digits2("50");
    assert Shifted(50, 1) == 5.0;
  }

  /** "-5" is a number but not a positive one. */
  lemma ParseAmountNegativeExample()
    ensures ParseAmount("-5") == Err(AmountNotPositive)
  {
    StripTrimmed("-5");
    NoCommaUnchanged("-5");
    MinusFiveNumber();
  }

  lemma MinusFiveNumber()
    ensures ParseNumber("-5") == Some(-5.0)
  {
    FiveDigits();
    MinusFiveText();
    NegatedNumber("5", 5.0);
  }

  lemma MinusFiveText()
    ensures "-" + "5" == "-5"
  {
  }

  lemma FiveDigits()
    ensures ParseUnsigned("5") == Some(5.0)
  {
    assert IndexOfDot("5") == 1;
    assert "5"[..1] == "5" && DigitsValue("5") == 5;
  }

  /** "abc" is not a number. */
  lemma ParseAmountTextExample()
    ensures ParseAmount("abc") == Err(AmountNotNumeric)
  {
    StripTrimmed("abc");
    NoCommaUnchanged("abc");
    AbcNotNumber();
  }

  lemma AbcNotNumber()
    ensures ParseNumber("abc") == None
  {
    var z := "abc";
    StripTrimmed(z);
    assert IndexOfDot(z) == 3 && !IsDigit(z[0]);
  }

  /** Text without a comma is left alone by the comma-to-point replacement. */
  lemma NoCommaUnchanged(s: string)
    requires forall i :: 0 <= i < |s| ==> s[i] != ','
    ensures MapChars(CommaToPoint, s) == s
  {
  }

  /** The tokens normalize_type reads as "expense": Russian and English word and
      first letter. */
  predicate IsExpenseToken(t: string) {
    t == "расход" || t == "р" || t == "expense" || t == "e"
  }

  /** The tokens normalize_type reads as "income". */
  predicate IsIncomeToken(t: string) {
    t == "доход" || t == "д" || t == "income" || t == "i"
  }

  /** The tag a normalised token names, if any. */
  function TagOfToken(t: string): (r: Result<TxnType>)
    ensures r == Ok("expense") <==> IsExpenseToken(t)
    ensures r == Ok("income") <==> IsIncomeToken(t)
    ensures r.Err? ==> r.error == UnknownType
  {
    if IsExpenseToken(t) then Ok("expense")
    else if IsIncomeToken(t) then Ok("income")
    else Err(UnknownType)
  }

  /** normalize_type: after strip and lower, a Russian or English word or its first
      letter names one of the two tags; any other token is refused. */
  function NormalizeType(s: string): (r: Result<TxnType>)
    ensures r == Ok("expense") <==> IsExpenseToken(Lower(Strip(s)))
    ensures r == Ok("income") <==> IsIncomeToken(Lower(Strip(s)))
    ensures r.Err? ==> r.error == UnknownType
  {
    TagOfToken(Lower(Strip(s)))
  }

  /** normalize_type ignores case and surrounding whitespace: the normalised token
      is classified as the raw text is. */
  lemma NormalizeTypeIgnoresCaseAndPadding(s: string)
    ensures NormalizeType(Lower(Strip(s))) == NormalizeType(s)
  {
    var u := Lower(Strip(s));
    NormalizedToken(s);
    assert NormalizeType(u) == TagOfToken(u);
  }

  /** The token normalize_type classifies is its own token. */
  lemma NormalizedToken(s: string)
    ensures Lower(Strip(Lower(Strip(s)))) == Lower(Strip(s))
  {
    var u := Lower(Strip(s));
    LowerTrimmed(Strip(s));
    StripTrimmed(u);
    LowerOfLower(u);
  }

  /** The stored tags are themselves accepted and map to themselves. */
  lemma NormalizeTypeOfTag(t: TxnType)
    ensures NormalizeType(t) == Ok(t)
  {
    if t == "income" {
      IncomeTag();
    } else {
      ExpenseTag();
    }
  }

  lemma IncomeTag()
    ensures NormalizeType("income") == Ok("income")
  {
    StripTrimmed("income");
    TagsAreLower();
  }

  lemma ExpenseTag()
    ensures NormalizeType("expense") == Ok("expense")
  {
    StripTrimmed("expense");
    TagsAreLower();
  }

  /** The two tags are already lower case. */
  lemma TagsAreLower()
    ensures Lower("income") == "income" && Lower("expense") == "expense"
  {
    LowerOfLower("income");
    LowerOfLower("expense");
  }

  /** Upper-case Cyrillic is accepted: "ДОХОД" is income. */
  lemma NormalizeTypeUpperCaseExample()
    ensures NormalizeType("ДОХОД") == Ok("income")
  {
    var a := "ДОХОД";
    StripTrimmed(a);
    LowerIncomeWord();
    assert NormalizeType(a) == TagOfToken("доход");
  }

  lemma LowerIncomeWord()
    ensures Lower("ДОХОД") == "доход"
  {
    var l := Lower("ДОХОД");
    assert l[0] == 'д' && l[1] == 'о' && l[2] == 'х' && l[3] == 'о' && l[4] == 'д';
  }

  /** Padding is ignored: " Р " is expense. */
  lemma NormalizeTypePaddedExample()
    ensures NormalizeType(" Р ") == Ok("expense")
  {
    var b := " Р ";
    var m := "Р";
    assert b[1..] == m + " ";
    assert TrimLeft(b) == m + " ";
    assert (m + " ")[..1] == m;
    assert TrimRight(m + " ") == m;
    assert Strip(b) == m;
    var l := Lower(m);
    assert l[0] == 'р';
    assert l == "р";
  }

  /** Any other token is refused. */
  lemma NormalizeTypeUnknownExample()
    ensures NormalizeType("transfer") == Err(UnknownType)
  {
    StripTrimmed("transfer");
    TokensAreShort(Lower("transfer"));
  }

  /** No token normalize_type knows is longer than seven characters. */
  lemma TokensAreShort(t: string)
    ensures IsExpenseToken(t) || IsIncomeToken(t) ==> |t| <= 7
  {
  }

  /** normalize_category: strip and lower; blank input becomes "other". */
  function NormalizeCategory(s: string): (r: string)
    ensures r != [] && IsTrimmed(r) && IsLower(r)
    ensures Strip(s) == [] ==> r == "other"
    ensures Strip(s) != [] ==> r == Lower(Strip(s))
  {
    var t := Lower(Strip(s));
    LowerTrimmed(Strip(s));
    if t == [] then "other" else t
  }

  /** Normalising a category twice is normalising it once. */
  lemma NormalizeCategoryIdempotent(s: string)
    ensures NormalizeCategory(NormalizeCategory(s)) == NormalizeCategory(s)
  {
    var r := NormalizeCategory(s);
    StripTrimmed(r);
    LowerOfLower(r);
  }

  /** The constructor trusts its caller; a transaction assembled from the outputs of
      the normalisers is well-formed. */
  lemma NormalizedTransactionWellFormed(date: CalendarDate, rawType: string, rawCategory: string,
                                        rawAmount: string, comment: string)
    requires NormalizeType(rawType).Ok? && ParseAmount(rawAmount).Ok?
    ensures WellFormed(Transaction(date, NormalizeType(rawType).value, NormalizeCategory(rawCategory),
                                   ParseAmount(rawAmount).value, Some(comment)))
  {
  }
}
