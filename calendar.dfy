/** Python's datetime.date as far as the ledger uses it: validity, order, ordinals,
    subtracting days, isoformat(), fromisoformat() and strptime("%Y-%m-%d"). */
module Calendar {
  import opened Common
  import opened Text

  datatype Date = Date(year: int, month: int, day: int)

  predicate IsLeapYear(y: int) {
    y % 4 == 0 && (y % 100 != 0 || y % 400 == 0)
  }

  function DaysInMonth(y: int, m: int): int
    requires 1 <= m <= 12
  {
    if m == 2 then (if IsLeapYear(y) then 29 else 28)
    else if m == 4 || m == 6 || m == 9 || m == 11 then 30
    else 31
  }

  /** The dates Python can represent: years 1..9999, a real day of a real month. */
  predicate IsValid(d: Date) {
    1 <= d.year <= 9999 && 1 <= d.month <= 12 && 1 <= d.day <= DaysInMonth(d.year, d.month)
  }

  type CalendarDate = d: Date | IsValid(d) witness Date(1, 1, 1)

  /** date.min */
  const MinDate: CalendarDate := Date(1, 1, 1)

  /** a <= b between dates: chronological, i.e. lexicographic on (year, month, day). */
  predicate NotAfter(a: Date, b: Date) {
    a.year < b.year
    || (a.year == b.year && (a.month < b.month || (a.month == b.month && a.day <= b.day)))
  }

  /** a < b between dates. */
  predicate Before(a: Date, b: Date) {
    NotAfter(a, b) && a != b
  }

  function DaysBeforeYear(y: int): int
    requires y >= 1
  {
    var p := y - 1;
    p * 365 + p / 4 - p / 100 + p / 400
  }

  function DaysBeforeMonth(y: int, m: int): int
    requires 1 <= m <= 12
  {
    var table := [0, 31, 59, 90, 120, 151, 181, 212, 243, 273, 304, 334];
    table[m - 1] + (if m > 2 && IsLeapYear(y) then 1 else 0)
  }

  /** date.toordinal(): 0001-01-01 is day 1. */
  function Ordinal(d: CalendarDate): (n: int)
    ensures n >= 1
  {
    DaysBeforeYear(d.year) + DaysBeforeMonth(d.year, d.month) + d.day
  }

  lemma YearLength(y: int)
    requires y >= 2
    ensures DaysBeforeYear(y) == DaysBeforeYear(y - 1) + (if IsLeapYear(y - 1) then 366 else 365)
  {
    QuotientStep4(y - 1);
    QuotientStep100(y - 1);
    QuotientStep400(y - 1);
    Multiple400(y - 1);
    Multiple100(y - 1);
  }

  /** A multiple of 400 is a multiple of 100 ... */
  lemma Multiple400(p: int)
    ensures p % 400 == 0 ==> p % 100 == 0
  {
    if p % 400 == 0 {
      var k := p / 400;
      assert p == 400 * k;
      assert p / 100 == 4 * k;
    }
  }

  /** ... and a multiple of 100 is a multiple of 4. */
  lemma Multiple100(p: int)
    ensures p % 100 == 0 ==> p % 4 == 0
  {
    if p % 100 == 0 {
      var k := p / 100;
      assert p == 100 * k;
      assert p / 4 == 25 * k;
    }
  }

  /** p // k grows by one exactly when p is a multiple of k (k = 4, 100, 400). */
  lemma QuotientStep4(p: int)
    ensures p / 4 == (p - 1) / 4 + (if p % 4 == 0 then 1 else 0)
  {
  }

  lemma QuotientStep100(p: int)
    ensures p / 100 == (p - 1) / 100 + (if p % 100 == 0 then 1 else 0)
  {
  }

  lemma QuotientStep400(p: int)
    ensures p / 400 == (p - 1) / 400 + (if p % 400 == 0 then 1 else 0)
  {
  }

  /** The days before month m are those before month m - 1 plus that month's length. */
  lemma MonthLength(y: int, m: int)
    requires 2 <= m <= 12
    ensures DaysBeforeMonth(y, m) == DaysBeforeMonth(y, m - 1) + DaysInMonth(y, m - 1)
  {
  }

  /** The day before d, or None at date.min. */
  function PrevDay(d: CalendarDate): (r: Option<CalendarDate>)
    ensures r.None? <==> d == MinDate
    ensures r.Some? ==> Before(r.value, d) && Ordinal(r.value) == Ordinal(d) - 1
  {
    if d.day > 1 then Some(Date(d.year, d.month, d.day - 1))
    else if d.month > 1 then
      MonthLength(d.year, d.month);
      Some(Date(d.year, d.month - 1, DaysInMonth(d.year, d.month - 1)))
    else if d.year > 1 then
      YearLength(d.year);
      Some(Date(d.year - 1, 12, 31))
    else None
  }

  /** d - timedelta(days=n): the date n days earlier, or None where Python raises
      OverflowError because the result would precede date.min. */
  function SubtractDays(d: CalendarDate, n: nat): (r: Option<CalendarDate>)
    ensures r.Some? <==> Ordinal(d) - n >= 1
    ensures r.Some? ==> NotAfter(r.value, d) && Ordinal(r.value) == Ordinal(d) - n
    decreases n
  {
    if n == 0 then Some(d)
    else match PrevDay(d)
      case None => None
      case Some(p) => SubtractDays(p, n - 1)
  }

  /** d.replace(day=1) */
  function FirstOfMonth(d: CalendarDate): (r: CalendarDate)
    ensures NotAfter(r, d) && r.year == d.year && r.month == d.month && r.day == 1
  {
    Date(d.year, d.month, 1)
  }

  function Pad2(n: nat): (s: string)
    requires n < 100
    ensures |s| == 2 && AllDigits(s)
  {
    [DigitChar(n / 10), DigitChar(n % 10)]
  }

  function Pad4(n: nat): (s: string)
    requires n < 10000
    ensures |s| == 4 && AllDigits(s)
  {
    [DigitChar(n / 1000), DigitChar(n / 100 % 10), DigitChar(n / 10 % 10), DigitChar(n % 10)]
  }

  lemma Digits4(t: string)
    requires |t| == 4 && AllDigits(t)
    ensures DigitsValue(t) == 1000 * DigitValue(t[0]) + 100 * DigitValue(t[1]) + 10 * DigitValue(t[2]) + DigitValue(t[3])
  {
    Digits2(t[..2]);
    assert t[..3][..2] == t[..2];
  }

  /** Reading back a four-digit field gives the padded number. */
  lemma Pad4RoundTrip(n: nat)
    requires n < 10000
    ensures DigitsValue(Pad4(n)) == n
  {
    Digits4(Pad4(n));
    DecimalPlaces4(n);
  }

  /** The four decimal digits of n, weighted by their places, add up to n. */
  lemma DecimalPlaces4(n: nat)
    requires n < 10000
    ensures n == 1000 * (n / 1000) + 100 * (n / 100 % 10) + 10 * (n / 10 % 10) + n % 10
  {
    var q1, q2, q3 := n / 10, n / 100, n / 1000;
    assert n % 10 == n - 10 * q1;
    assert q1 / 10 == q2 && q1 % 10 == q1 - 10 * q2;
    assert q2 / 10 == q3 && q2 % 10 == q2 - 10 * q3;
  }

  /** Reading back a two-digit field gives the padded number. */
  lemma Pad2RoundTrip(n: nat)
    requires n < 100
    ensures DigitsValue(Pad2(n)) == n
  {
    Digits2(Pad2(n));
  }

  lemma DigitCharOfValue(c: char)
    requires IsDigit(c)
    ensures DigitChar(DigitValue(c)) == c
  {
  }

  /** A two-digit field is the padding of its own value. */
  lemma Pad2OfDigits(t: string)
    requires |t| == 2 && AllDigits(t)
    ensures DigitsValue(t) < 100 && Pad2(DigitsValue(t)) == t
  {
    Digits2(t);
    var n := DigitsValue(t);
    assert n / 10 == DigitValue(t[0]) && n % 10 == DigitValue(t[1]);
    DigitCharOfValue(t[0]);
    DigitCharOfValue(t[1]);
  }

  lemma SplitDigits4(a: nat, b: nat, c: nat, e: nat)
    requires a < 10 && b < 10 && c < 10 && e < 10
    ensures var n := 1000 * a + 100 * b + 10 * c + e;
      n / 1000 == a && n / 100 % 10 == b && n / 10 % 10 == c && n % 10 == e
  {
    var n := 1000 * a + 100 * b + 10 * c + e;
    assert n / 10 == 100 * a + 10 * b + c;
    assert n / 100 == 10 * a + b;
  }

  /** A four-digit field is the padding of its own value. */
  lemma Pad4OfDigits(t: string)
    requires |t| == 4 && AllDigits(t)
    ensures DigitsValue(t) < 10000 && Pad4(DigitsValue(t)) == t
  {
    Digits4(t);
    SplitDigits4(DigitValue(t[0]), DigitValue(t[1]), DigitValue(t[2]), DigitValue(t[3]));
    DigitCharOfValue(t[0]);
    DigitCharOfValue(t[1]);
    DigitCharOfValue(t[2]);
    DigitCharOfValue(t[3]);
  }

  /** date.isoformat(): YYYY-MM-DD with zero padding. */
  function IsoFormat(d: CalendarDate): (s: string)
    ensures |s| == 10 && s[4] == '-' && s[7] == '-'
  {
    Pad4(d.year) + "-" + Pad2(d.month) + "-" + Pad2(d.day)
  }

  /** date.fromisoformat() for the YYYY-MM-DD form: exactly ten characters, ASCII
      digits around two dashes, naming a date that exists. */
  function FromIsoFormat(s: string): Option<CalendarDate> {
    if |s| == 10 && s[4] == '-' && s[7] == '-'
       && AllDigits(s[..4]) && AllDigits(s[5..7]) && AllDigits(s[8..])
    then
      var d := Date(DigitsValue(s[..4]), DigitsValue(s[5..7]), DigitsValue(s[8..]));
      if IsValid(d) then Some(d) else None
    else None
  }

  /** fromisoformat(isoformat(d)) == d */
  lemma IsoRoundTrip(d: CalendarDate)
    ensures FromIsoFormat(IsoFormat(d)) == Some(d)
  {
    var s := IsoFormat(d);
    assert s[..4] == Pad4(d.year);
    assert s[5..7] == Pad2(d.month);
    assert s[8..] == Pad2(d.day);
    Pad4RoundTrip(d.year);
    Pad2RoundTrip(d.month);
    Pad2RoundTrip(d.day);
  }

  /** The only text fromisoformat() reads as d is isoformat(d). */
  lemma IsoCanonical(s: string, d: CalendarDate)
    requires FromIsoFormat(s) == Some(d)
    ensures IsoFormat(d) == s
  {
    Pad4OfDigits(s[..4]);
    Pad2OfDigits(s[5..7]);
    Pad2OfDigits(s[8..]);
    assert s == s[..4] + "-" + s[5..7] + "-" + s[8..];
  }

  /** The day field of strptime's %d, whose pattern is 3[01]|[12]\d|0[1-9]|[1-9]| [1-9]:
      the first alternative that matches is taken and must use up the text. */
  function StrptimeDay(t: string): Option<int> {
    if |t| >= 2 && ((t[0] == '3' && '0' <= t[1] <= '1')
                    || ('1' <= t[0] <= '2' && IsDigit(t[1]))
                    || (t[0] == '0' && '1' <= t[1] <= '9'))
    then (if |t| == 2 then Some(DigitsValue(t)) else None)
    else if |t| >= 1 && '1' <= t[0] <= '9' then (if |t| == 1 then Some(DigitValue(t[0])) else None)
    else if |t| >= 2 && t[0] == ' ' && '1' <= t[1] <= '9' then (if |t| == 2 then Some(DigitValue(t[1])) else None)
    else None
  }

  /** datetime.strptime(s, "%Y-%m-%d").date(): four digits, '-', a month matched by
      1[0-2]|0[1-9]|[1-9], '-', a day as in StrptimeDay, and a date that exists. */
  function StrptimeDate(s: string): (r: Option<CalendarDate>)
    ensures r.Some? ==> 8 <= |s| <= 10 && AllDigits(s[..4]) && s[4] == '-'
                        && r.value.year == DigitsValue(s[..4])
  {
    if |s| < 5 || !AllDigits(s[..4]) || s[4] != '-' then None
    else
      var rest := s[5..];
      var monthWidth :=
        if |rest| >= 3 && rest[2] == '-'
           && ((rest[0] == '1' && '0' <= rest[1] <= '2') || (rest[0] == '0' && '1' <= rest[1] <= '9'))
        then 2
        else if |rest| >= 2 && rest[1] == '-' && '1' <= rest[0] <= '9' then 1
        else 0;
      if monthWidth == 0 then None
      else
        var month := DigitsValue(rest[..monthWidth]);
        match StrptimeDay(rest[monthWidth + 1..])
        case None => None
        case Some(day) =>
          var d := Date(DigitsValue(s[..4]), month, day);
          if IsValid(d) then Some(d) else None
  }

  /** strptime accepts every isoformat() text and reads it as the same date. */
  lemma StrptimeAcceptsIso(d: CalendarDate)
    ensures StrptimeDate(IsoFormat(d)) == Some(d)
  {
    var s := IsoFormat(d);
    assert s[..4] == Pad4(d.year);
    assert s[5..][..2] == Pad2(d.month);
    assert s[5..][3..] == Pad2(d.day);
    Pad4RoundTrip(d.year);
    Pad2RoundTrip(d.month);
    Pad2RoundTrip(d.day);
  }

  /** strptime also takes unpadded fields, which fromisoformat refuses. */
  lemma StrptimeUnpadded()
    ensures StrptimeDate("2025-1-2") == Some(Date(2025, 1, 2))
    ensures FromIsoFormat("2025-1-2") == None
  {
    var s := "2025-1-2";
    assert s[..4] == "2025" && AllDigits(s[..4]);
    Digits4(s[..4]);
    var rest := s[5..];
    assert rest == "1-2";
    assert rest[..1] == "1" && DigitsValue(rest[..1]) == 1;
    assert rest[2..] == "2";
    assert StrptimeDay(rest[2..]) == Some(2);
  }
}
