/** The two pieces of the menu that decide data: the period a report covers and
    deleting a transaction by its displayed number. The prompts are not modelled;
    what the user typed (already stripped) and today's date are parameters. */
module App {
  import opened Common
  import opened Text
  import opened Calendar
  import opened Models
  import opened Utils
  import opened Storage

  // ---------------------------------------------------------------------------
  // choose_period
  // ---------------------------------------------------------------------------

  /** Number of days from start to end, both included. */
  function DaysCovered(start: CalendarDate, end: CalendarDate): int {
    Ordinal(end) - Ordinal(start) + 1
  }

  /** choose_period: "1" today, "2" the last seven days, "3" the current month up to
      today, "4" two typed dates (blank meaning today), read start first; any other
      choice is refused. Every period returned runs forwards. */
  function ChoosePeriod(choice: string, today: CalendarDate, rawFrom: string, rawTo: string)
    : (r: Result<(CalendarDate, CalendarDate)>)
    ensures r.Ok? ==> NotAfter(r.value.0, r.value.1)
  {
    if choice == "1" then Ok((today, today))
    else if choice == "2" then
      match SubtractDays(today, 6)
      case None => Err(DateOutOfRange)
      case Some(start) => Ok((start, today))
    else if choice == "3" then Ok((FirstOfMonth(today), today))
    else if choice == "4" then CustomPeriod(ParseDate(rawFrom, today), ParseDate(rawTo, today))
    else Err(UnknownPeriodChoice)
  }

  /** Option 4 once both typed dates have been read: the first error wins, and an end
      before the start is refused. */
  function CustomPeriod(from: Result<CalendarDate>, to: Result<CalendarDate>)
    : (r: Result<(CalendarDate, CalendarDate)>)
    ensures r.Ok? ==> NotAfter(r.value.0, r.value.1)
  {
    match from
    case Err(e) => Err(e)
    case Ok(start) =>
      match to
      case Err(e) => Err(e)
      case Ok(end) => if Before(end, start) then Err(ReversedPeriod) else Ok((start, end))
  }

  /** Lexicographic order on dates is total. */
  lemma NotAfterTotal(a: Date, b: Date)
    ensures NotAfter(a, b) || Before(b, a)
  {
  }

  /** Option 1 is the single day today. */
  lemma ChooseToday(today: CalendarDate, rawFrom: string, rawTo: string)
    ensures ChoosePeriod("1", today, rawFrom, rawTo) == Ok((today, today))
    ensures DaysCovered(today, today) == 1
  {
  }

  /** Option 2 covers exactly seven days ending today; it fails only when the first
      of them would precede 0001-01-01. */
  lemma ChooseLastWeek(today: CalendarDate, rawFrom: string, rawTo: string)
    ensures var r := ChoosePeriod("2", today, rawFrom, rawTo);
      && (r.Err? <==> Ordinal(today) < 7)
      && (r.Err? ==> r.error == DateOutOfRange)
      && (r.Ok? ==> r.value.1 == today && DaysCovered(r.value.0, r.value.1) == 7)
  {
  }

  /** Option 3 runs from the first of today's month to today. */
  lemma ChooseCurrentMonth(today: CalendarDate, rawFrom: string, rawTo: string)
    ensures var r := ChoosePeriod("3", today, rawFrom, rawTo);
      && r.Ok? && r.value.1 == today
      && r.value.0 == Date(today.year, today.month, 1)
      && DaysCovered(r.value.0, r.value.1) == today.day
  {
  }

  /** Option 4 accepts the two typed dates exactly when both parse and the end is
      not before the start; a bad start is reported before the end is looked at. */
  lemma CustomPeriodCases(from: Result<CalendarDate>, to: Result<CalendarDate>)
    requires from.Err? ==> from.error == BadDateInput
    requires to.Err? ==> to.error == BadDateInput
    ensures var r := CustomPeriod(from, to);
      && (from.Err? ==> r == Err(BadDateInput))
      && (from.Ok? && to.Err? ==> r == Err(BadDateInput))
      && (from.Ok? && to.Ok? ==>
            (r == Err(ReversedPeriod) <==> Before(to.value, from.value))
            && (r.Ok? <==> NotAfter(from.value, to.value))
            && (r.Ok? ==> r.value == (from.value, to.value)))
  {
    if from.Ok? && to.Ok? {
      NotAfterTotal(from.value, to.value);
    }
  }

  /** Option 4 reads the start, then the end, with parse_date: the period is taken
      exactly when both parse and the end is not before the start, and a bad start is
      reported before the end is looked at. */
  lemma ChooseCustom(today: CalendarDate, rawFrom: string, rawTo: string)
    ensures ParseDate(rawFrom, today).Err? ==> ChoosePeriod("4", today, rawFrom, rawTo) == Err(BadDateInput)
    ensures ParseDate(rawFrom, today).Ok? && ParseDate(rawTo, today).Err? ==>
              ChoosePeriod("4", today, rawFrom, rawTo) == Err(BadDateInput)
    ensures var from, to := ParseDate(rawFrom, today), ParseDate(rawTo, today);
      from.Ok? && to.Ok? ==>
        var r := ChoosePeriod("4", today, rawFrom, rawTo);
        && (r == Err(ReversedPeriod) <==> Before(to.value, from.value))
        && (r.Ok? <==> NotAfter(from.value, to.value))
        && (r.Ok? ==> r.value == (from.value, to.value))
  {
    CustomChoice(today, rawFrom, rawTo);
    CustomPeriodCases(ParseDate(rawFrom, today), ParseDate(rawTo, today));
  }

  lemma CustomChoice(today: CalendarDate, rawFrom: string, rawTo: string)
    ensures ChoosePeriod("4", today, rawFrom, rawTo) == CustomPeriod(ParseDate(rawFrom, today), ParseDate(rawTo, today))
  {
    ChoicesDistinct();
  }

  /** The four menu answers are different strings. */
  lemma ChoicesDistinct()
    ensures "4" != "1" && "4" != "2" && "4" != "3"
  {
  }

  /** Any other choice is refused. */
  lemma ChooseUnknown(choice: string, today: CalendarDate, rawFrom: string, rawTo: string)
    requires choice != "1" && choice != "2" && choice != "3" && choice != "4"
    ensures ChoosePeriod(choice, today, rawFrom, rawTo) == Err(UnknownPeriodChoice)
  {
  }

  // ---------------------------------------------------------------------------
  // delete_transaction
  // ---------------------------------------------------------------------------

  /** txns.pop(i) as a value: the list without its element at i. */
  function RemoveAt(s: seq<Transaction>, i: nat): (r: seq<Transaction>)
    requires i < |s|
    ensures |r| == |s| - 1
    ensures forall k :: 0 <= k < i ==> r[k] == s[k]
    ensures forall k :: i <= k < |r| ==> r[k] == s[k + 1]
    ensures r[..i] + [s[i]] + r[i..] == s
    ensures multiset(r) + multiset{s[i]} == multiset(s)
  {
    var r := s[..i] + s[i + 1..];
    assert r[..i] == s[..i] && r[i..] == s[i + 1..];
    assert s == s[..i] + [s[i]] + s[i + 1..];
    r
  }

  /** How a delete request ends. */
  datatype DeleteOutcome =
    | LoadFailed(error: Error)   // load_transactions raised
    | NothingToDelete            // the ledger is empty
    | NeedNumber                 // the answer is not a string of digits
    | Cancelled                  // the answer is 0
    | NoSuchNumber               // the number is past the end of the list
    | Deleted(removed: Transaction)

  /** delete_transaction: load the ledger, read the displayed number (1-based, 0 to
      cancel) and, for a number in range, remove that transaction and rewrite the
      file. Every other outcome leaves the file as loading left it. */
  method DeleteTransaction(file: CsvFile, answer: string) returns (outcome: DeleteOutcome)
    modifies file
    ensures file.present
    ensures var before := if old(file.present) then old(file.rows) else [Header];
      var loaded := LoadRows(before);
      && (loaded.Err? ==> outcome == LoadFailed(loaded.error) && file.rows == before)
      && (loaded.Ok? && loaded.value == [] ==> outcome == NothingToDelete && file.rows == before)
      && (loaded.Ok? && loaded.value != [] && !(answer != [] && AllDigits(answer)) ==>
            outcome == NeedNumber && file.rows == before)
      && (loaded.Ok? && loaded.value != [] && answer != [] && AllDigits(answer) ==>
            var n := DigitsValue(answer);
            && (n == 0 ==> outcome == Cancelled && file.rows == before)
            && (n > |loaded.value| ==> outcome == NoSuchNumber && file.rows == before)
            && (1 <= n <= |loaded.value| ==>
                  outcome == Deleted(loaded.value[n - 1])
                  && file.rows == [Header] + FormatRows(RemoveAt(loaded.value, n - 1))))
  {
    var loaded := file.Load();
    if loaded.Err? {
      return LoadFailed(loaded.error);
    }
    var txns := loaded.value;
    if txns == [] {
      return NothingToDelete;
    }
    if answer == [] || !AllDigits(answer) {
      return NeedNumber;
    }
    var idx := DigitsValue(answer);
    if idx == 0 {
      return Cancelled;
    }
    if idx < 1 || idx > |txns| {
      return NoSuchNumber;
    }
    var removed := txns[idx - 1];
    txns := RemoveAt(txns, idx - 1);
    file.Save(txns);
    return Deleted(removed);
  }

  /** After deleting from a ledger of storable transactions the file loads back as
      exactly the remaining ones, in their order. */
  lemma DeleteThenLoad(txns: seq<Transaction>, i: nat)
    requires i < |txns|
    requires forall k :: 0 <= k < |txns| ==> Storable(txns[k])
    ensures LoadRows([Header] + FormatRows(RemoveAt(txns, i))) == Ok(RemoveAt(txns, i))
  {
    var r := RemoveAt(txns, i);
    forall k | 0 <= k < |r|
      ensures Storable(r[k])
    {
      if k >= i {
        assert r[k] == txns[k + 1];
      }
    }
    SaveLoadIdentity(r);
  }
}
