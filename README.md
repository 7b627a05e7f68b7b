# finance-tracker ledger core in Dafny

This is a Dafny model of the domain logic of a small personal finance tracker, a
terminal program that keeps income and expense transactions in a CSV file. The
model covers:

- **The transaction** (`models.dfy`). An immutable record: date, type tag,
  category, amount and an optional comment.
- **Input normalisation** (`utils.dfy`):
  - `parse_date`: blank means today; otherwise `strptime("%Y-%m-%d")`.
  - `parse_amount`: a decimal comma is accepted; the value must be above zero.
  - `normalize_type`: bilingual Russian/English tokens map to `expense` / `income`.
  - `normalize_category`: strip, lower case, and `other` when blank.
- **The report engine** (`reports.dfy`):
  - the inclusive period filter;
  - the income/expense/balance summary;
  - the top expense categories. A loop builds an insertion-ordered totals dict, which is then stable-sorted by total and cut at `top_n`.
- **The CSV store** (`storage.dfy`). A `CsvFile` object holds a presence flag and a sequence of rows, each a sequence of field strings. `ensure_csv`, load, save and append are methods on it. A data row is read as `csv.DictReader` reads it: the first row is the header, short rows get `None` for the missing columns, and a repeated header name keeps its last value. Loading skips incomplete rows and aborts on an unreadable date or amount.
- **Two pieces of the menu** (`app.dfy`). The period built by `choose_period`, and delete-by-displayed-number.

Supporting modules cover the parts of Python's library the core relies on:

- `text.dfy`: `str.strip`, `str.lower`, ASCII digits and `str(int)`.
- `numbers.dfy`: `float()` on decimal text, and `f"{x:.2f}"` over exact reals.
- `calendar.dfy`: `datetime.date` validity, order and ordinals; `date - timedelta(days=n)`; `isoformat`, `fromisoformat` and `strptime("%Y-%m-%d")`.
- `common.dfy`: the `Option` and `Result` types and one error constructor per exception the core raises.

Amounts are exact `real`s. Dates are a `(year, month, day)` datatype restricted to the valid Gregorian dates of years 1 to 9999. The clock and the user's typed answers are parameters.

Where the written description of the program and the code differ, the code is followed:

- **parse_date is not strictly `YYYY-MM-DD`.** `strptime`'s `%m` and `%d` also match one-digit fields, and `%d` matches a space followed by one digit. So `2025-1-2` is read as 2 January 2025, and `Calendar.StrptimeUnpadded` proves it.
- **Stored dates are stricter.** They go through `date.fromisoformat`, which takes only the ten-character form.
- **The stored type is not checked on load.** Load keeps the type and category text verbatim, so a hand-edited file can hold a type other than the two tags. `Transaction.txnType` is therefore plain text, and the two-tag `TxnType` is what `normalize_type` returns.

## Model

| member | source | states |
|---|---|---|
| Models.TransactionIsValue | src/models.py:7-13 | two transactions are equal exactly when all five fields are equal; a transaction built without a comment has the empty comment |
| Utils.NormalizedTransactionWellFormed | src/models.py:7-13 | the constructor checks nothing; a transaction assembled from normalize_type, normalize_category and parse_amount results has a tag, a non-empty category and a positive amount |
| Utils.NormalizeTypeOfTag | src/models.py:5 | each of the two TxnType tags is accepted by normalize_type and maps to itself |
| Utils.ParseDate | src/utils.py:4-11 | blank or whitespace input gives today; other input succeeds exactly when strptime reads a date, and gives that date; the only failure is the bad-date error |
| Utils.ParseDateOfIso | src/utils.py:5-9 | every date written as YYYY-MM-DD is read back as that date, whatever today is |
| Calendar.StrptimeAcceptsIso | src/utils.py:9 | strptime("%Y-%m-%d") reads isoformat(d) as d for every date |
| Calendar.StrptimeUnpadded | src/utils.py:9 | strptime accepts the unpadded "2025-1-2" as 2025-01-02, which fromisoformat refuses |
| Utils.ParseAmount | src/utils.py:13-21 | succeeds exactly when the stripped, comma-to-point text is a number above zero; every result is positive; non-numbers and numbers at or below zero fail with distinct errors |
| Utils.ParseAmountDecimalComma | src/utils.py:14 | replacing every ',' by '.' beforehand never changes the result, so a comma is read as the decimal point |
| Utils.ParseAmountOfFormatted | src/utils.py:13-21 | every positive whole-cent amount printed with two decimals is read back exactly |
| Utils.ParseAmountOfCommaFormatted | src/utils.py:14-16 | the same holds with the decimal point typed as a comma |
| Utils.ParseAmountCommaExample | src/utils.py:14-16 | "12,50" is read as 12.5 |
| Utils.ParseAmountNegativeExample | src/utils.py:19-20 | "-5" is refused as not positive |
| Utils.ParseAmountTextExample | src/utils.py:15-18 | "abc" is refused as not a number |
| Utils.NormalizeType | src/utils.py:23-30 | gives "expense" exactly for расход/р/expense/e and "income" exactly for доход/д/income/i, after strip and lower; every other token fails with the unknown-type error |
| Utils.NormalizeTypeIgnoresCaseAndPadding | src/utils.py:24 | classifying the stripped lower-case text gives the same result as classifying the raw text |
| Utils.NormalizeTypeUpperCaseExample | src/utils.py:24-29 | upper-case Cyrillic "ДОХОД" is income |
| Utils.NormalizeTypePaddedExample | src/utils.py:24-27 | " Р " is expense |
| Utils.NormalizeTypeUnknownExample | src/utils.py:30 | "transfer" is refused |
| Utils.NormalizeCategory | src/utils.py:32-36 | the result is never empty and is stripped and lower case; blank input gives "other", any other input gives its stripped lower-cased text |
| Utils.NormalizeCategoryIdempotent | src/utils.py:32-36 | normalising a category twice equals normalising it once |
| Reports.FilterByPeriodKeeps | src/reports.py:7-9 | keeps exactly the transactions with start <= date <= end, both ends included, each with its full multiplicity (no deduplication) |
| Reports.FilterByPeriodAppend | src/reports.py:9 | filtering a concatenation concatenates the filtered parts, so input order is kept |
| Reports.FilterByPeriodSubsequence | src/reports.py:9 | the result is a subsequence of the input |
| Reports.FilterSingleDay | src/reports.py:9 | with start = end = d the result holds exactly the transactions dated d |
| Reports.FilterReversedPeriod | src/reports.py:9 | with end before start the result is empty |
| Reports.Summary | src/reports.py:11-15 | balance equals income minus expense |
| Reports.SummaryOfFew | src/reports.py:12-13 | the empty list sums to (0, 0, 0); one transaction adds its amount to the income side only if its type is "income" and to the expense side only if it is "expense" |
| Reports.SummaryAppend | src/reports.py:12-14 | income, expense and balance are additive over concatenation; with SummaryOfFew this determines them for every list |
| Reports.SummaryNonNegative | src/reports.py:12-15 | with positive amounts income and expense are non-negative, and each is zero exactly when no transaction has that type |
| Reports.TopExpenseCategories | src/reports.py:17-24 | the loop over the transactions builds the totals dict, and the result is that dict ranked by total and cut to top_n |
| Reports.UpsertTotals | src/reports.py:22 | totals[c] = totals.get(c, 0.0) + amount adds the amount to c's total and to no other total, makes c a key, and keeps keys distinct |
| Reports.TotalsOfSums | src/reports.py:18-22 | the dict's keys are distinct and are exactly the categories of expense transactions; each key's total is the sum of that category's expense amounts |
| Reports.TotalsOfFirstOccurrenceOrder | src/reports.py:18-22 | the dict's keys are ordered by the first appearance of their category among the expenses |
| Reports.SortByTotalSorted | src/reports.py:23 | the ranking is non-increasing by total |
| Reports.SortByTotalStable | src/reports.py:23 | the ranking is stable: for every total value, the entries with that total keep their dict order |
| Reports.SortByTotalDistinct | src/reports.py:23 | ranking the dict items keeps the categories distinct |
| Reports.TopCategoriesLength | src/reports.py:19-24 | for top_n >= 0 at most top_n entries are returned; no expense transactions gives an empty result |
| Reports.TopCategoriesEntries | src/reports.py:18-23 | every returned entry is a distinct expense category carrying the sum of all its expense amounts, and the entries are non-increasing by total |
| Reports.TopCategoriesRanking | src/reports.py:23-24 | an expense category left out totals no more than any returned one, and nothing is left out when top_n is at least the number of transactions |
| Reports.Take | src/reports.py:24 | items[:top_n] is a prefix of min(top_n, len) entries, or of len + top_n entries when top_n is negative |
| Storage.CsvFile.EnsureCsv | src/storage.py:10-15 | a missing file is created holding only the header; an existing file is left unchanged |
| Storage.CsvFile.Load | src/storage.py:17-32 | ensures the file exists, then returns what the rows load as, reading them in order in a loop that stops at the first unreadable row |
| Storage.ParseRowCases | src/storage.py:22-31 | a row is skipped exactly when date, type, category or amount is missing or empty; otherwise a bad date fails it first, then a bad amount; a good row gives the parsed date and amount, the type and category verbatim, and a missing or empty comment as "" |
| Storage.LoadHeaderOnly | src/storage.py:12-15 | the header-only file created for a missing file loads as the empty list |
| Storage.LoadSkipsIncompleteRow | src/storage.py:24-25 | appending an incomplete row changes neither the loaded list nor whether loading succeeds |
| Storage.LoadDataErrorPersists | src/storage.py:26-29 | an unreadable row aborts the whole load with its error; later rows do not matter |
| Storage.LoadDataAppend | src/storage.py:22-31 | loading is row by row in file order: after a prefix that loads, the rest decides the outcome and its transactions follow the prefix's |
| Storage.HeaderFields | src/storage.py:21 | under the file's own header, each field of a five-field row is read from its own column |
| Storage.CsvFile.Save | src/storage.py:34-40 | the file becomes the header followed by one formatted row per transaction, in the given order |
| Storage.CsvFile.Append | src/storage.py:42-46 | the file is ensured, then exactly one formatted row is added at its end and the earlier rows are unchanged |
| Storage.ParseFormattedRow | src/storage.py:40 | a written row reads back as the same transaction with its amount rounded to cents and a None comment as "", or is skipped when its type or category is empty |
| Storage.SaveLoadRoundTrip | src/storage.py:24-40 | loading what save wrote gives back the saved transactions in order, rounded to cents, without those whose type or category is empty |
| Storage.SaveLoadIdentity | src/storage.py:24-40 | for transactions with a type, a category, a whole number of cents and a comment, loading after save returns exactly the saved list |
| Storage.AppendThenLoad | src/storage.py:42-46 | on a file starting with the ledger's header, loading after an append gives the earlier result followed by the appended transaction; a file that failed to load still fails the same way |
| Storage.AppendToEmptyFile | src/storage.py:12-15 | on a file that exists but has no rows, the appended row becomes the header and the transaction is not loaded back |
| Numbers.FormatFixed2RoundTrip | src/storage.py:40 | float() reads f"{x:.2f}" back as x rounded to the nearest cent, with ties to even |
| Calendar.IsoRoundTrip | src/storage.py:26 | fromisoformat(isoformat(d)) == d |
| Calendar.IsoCanonical | src/storage.py:26 | the only text fromisoformat reads as d is isoformat(d) |
| Calendar.SubtractDays | src/main.py:27 | today - timedelta(days=n) is n ordinal days earlier and not after today; it fails exactly when it would precede 0001-01-01 |
| Calendar.FirstOfMonth | src/main.py:29 | today.replace(day=1) is day 1 of the same month and not after today |
| App.ChoosePeriod | src/main.py:14-38 | every period returned satisfies start <= end |
| App.ChooseToday | src/main.py:24-25 | option 1 is (today, today), one day |
| App.ChooseLastWeek | src/main.py:26-27 | option 2 ends today and covers exactly seven days; it fails with an out-of-range error exactly when today is among the first six days of the calendar |
| App.ChooseCurrentMonth | src/main.py:28-30 | option 3 runs from the first of today's month to today |
| App.ChooseCustom | src/main.py:31-36 | option 4 fails on a bad start date before looking at the end date; with both dates read, it fails with the reversed-period error exactly when end < start, and otherwise returns (start, end) |
| App.ChooseUnknown | src/main.py:38 | any other choice is refused |
| App.RemoveAt | src/main.py:110 | pop(i) leaves the other elements in order, shortens the list by one, and putting the removed element back at i restores the list |
| App.DeleteTransaction | src/main.py:91-111 | a load failure, an empty ledger, a non-digit answer, 0, or a number past the end leaves the file as loading left it and saves nothing; a number n in 1..len removes element n-1, returns it, and rewrites the file with the rest in order |
| App.DeleteThenLoad | src/main.py:110-111 | after deleting from a ledger of storable transactions, the file loads back as exactly the remaining ones |

## Left out

- The menu loop, prompts and printing are terminal I/O: `main`, `print_transactions`, `show_*`, `add_transaction`'s prompts, `ask`, `ask_optional` and `press_enter`. The typed answers are parameters and are taken as already stripped, as `ask` returns them.
- `delete_transaction` has an unreachable heading `print` after its early `return`. It changes no data.
- `date.today()` is a parameter (`today`).
- The `DATA_PATH` constant is configuration; a `CsvFile` object stands for the file.
- Filesystem details are not modelled: `mkdir`, file modes, encoding, and I/O errors.
- CSV quoting and escaping are not modelled. Rows are lists of field strings as the csv module returns them, so field text containing commas, quotes or newlines is outside the model.
- csv.DictReader's skipping of blank lines is not modelled. A blank row has no fields, so the skip rule drops it anyway.
- Numbers.ParseNumber: covers float()'s decimal forms only. Exponents, `inf`/`nan` and digit-group underscores are not modelled, and those inputs are refused.
- Numbers.FormatFixed2: rounds the exact real half-to-even. Python rounds the nearest binary double, which can differ on ties (2.675 prints as 2.67 in Python and as 2.68 here).
- Summary and the category totals sum exact reals. Float rounding in `sum` is not modelled.
- Text.Lower: covers ASCII and the Russian Cyrillic alphabet only, not all of Unicode.
- Digits are ASCII only. `str.isdigit`, `int()` and `strptime` also accept other Unicode decimal digits, and `isdigit` accepts characters such as superscripts that `int()` then rejects.
- Calendar.FromIsoFormat: covers only the `YYYY-MM-DD` form. Python 3.11 and later also accept the basic and week-date forms.
- Python's `date` covers years 1 to 9999. Typed and stored years outside that range are refused, as `date` refuses them.
