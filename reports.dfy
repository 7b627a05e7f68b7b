/** The report engine: the inclusive period filter, the income/expense/balance
    totals and the ranking of expense categories by their totals. */
module Reports {
  import opened Common
  import opened Calendar
  import opened Models

  // ---------------------------------------------------------------------------
  // filter_by_period
  // ---------------------------------------------------------------------------

  /** start <= t.date <= end, both ends included. */
  predicate InPeriod(t: Transaction, start: Date, end: Date) {
    NotAfter(start, t.date) && NotAfter(t.date, end)
  }

  /** The transactions dated within [start, end], in their original order. */
  function FilterByPeriod(txns: seq<Transaction>, start: CalendarDate, end: CalendarDate): (r: seq<Transaction>)
    ensures |r| <= |txns|
  {
    if txns == [] then []
    else (if InPeriod(txns[0], start, end) then [txns[0]] else []) + FilterByPeriod(txns[1..], start, end)
  }

  /** The filter keeps exactly the transactions dated within the period, each with
      its full multiplicity: nothing is merged or deduplicated. */
  lemma {:induction false} FilterByPeriodKeeps(txns: seq<Transaction>, start: CalendarDate, end: CalendarDate)
    ensures forall t :: t in FilterByPeriod(txns, start, end) <==> t in txns && InPeriod(t, start, end)
    ensures forall t :: multiset(FilterByPeriod(txns, start, end))[t]
                        == if InPeriod(t, start, end) then multiset(txns)[t] else 0
  {
    if txns != [] {
      FilterByPeriodKeeps(txns[1..], start, end);
      assert txns == [txns[0]] + txns[1..];
    }
  }

  /** The filter works element by element: filtering a concatenation is
      concatenating the filtered parts, so the input order is kept. */
  lemma {:induction false} FilterByPeriodAppend(a: seq<Transaction>, b: seq<Transaction>,
                                                start: CalendarDate, end: CalendarDate)
    ensures FilterByPeriod(a + b, start, end) == FilterByPeriod(a, start, end) + FilterByPeriod(b, start, end)
  {
    if a == [] {
      AppendEmpty(b);
    } else {
      FirstOfAppend(a, b);
      FilterByPeriodAppend(a[1..], b, start, end);
      AppendAssociative((if InPeriod(a[0], start, end) then [a[0]] else []),
                        FilterByPeriod(a[1..], start, end), FilterByPeriod(b, start, end));
    }
  }

  /** r can be obtained from s by deleting elements. */
  predicate IsSubsequence<T(==)>(r: seq<T>, s: seq<T>)
    decreases |s|
  {
    r == [] || (s != [] && ((r[0] == s[0] && IsSubsequence(r[1..], s[1..])) || IsSubsequence(r, s[1..])))
  }

  /** The filtered list is a subsequence of the input. */
  lemma {:induction false} FilterByPeriodSubsequence(txns: seq<Transaction>, start: CalendarDate, end: CalendarDate)
    ensures IsSubsequence(FilterByPeriod(txns, start, end), txns)
  {
    if txns != [] {
      FilterByPeriodSubsequence(txns[1..], start, end);
      var rest := FilterByPeriod(txns[1..], start, end);
      if InPeriod(txns[0], start, end) {
        assert FilterByPeriod(txns, start, end) == [txns[0]] + rest;
        assert ([txns[0]] + rest)[1..] == rest;
      } else {
        assert FilterByPeriod(txns, start, end) == rest;
      }
    }
  }

  /** Chronological order is antisymmetric. */
  lemma NotAfterAntisymmetric(a: Date, b: Date)
    requires NotAfter(a, b) && NotAfter(b, a)
    ensures a == b
  {
  }

  /** A one-day period keeps exactly the transactions of that day. */
  lemma FilterSingleDay(txns: seq<Transaction>, d: CalendarDate)
    ensures forall t :: multiset(FilterByPeriod(txns, d, d))[t] == if t.date == d then multiset(txns)[t] else 0
  {
    FilterByPeriodKeeps(txns, d, d);
    forall t: Transaction | InPeriod(t, d, d)
      ensures t.date == d
    {
      NotAfterAntisymmetric(t.date, d);
    }
  }

  /** A period whose end precedes its start keeps nothing. */
  lemma {:induction false} FilterReversedPeriod(txns: seq<Transaction>, start: CalendarDate, end: CalendarDate)
    requires Before(end, start)
    ensures FilterByPeriod(txns, start, end) == []
  {
    if txns != [] {
      assert !InPeriod(txns[0], start, end);
      FilterReversedPeriod(txns[1..], start, end);
    }
  }

  // ---------------------------------------------------------------------------
  // summary
  // ---------------------------------------------------------------------------

  /** Sum of the amounts of the transactions whose type is exactly tag. */
  function TypeTotal(txns: seq<Transaction>, tag: string): real {
    if txns == [] then 0.0
    else (if txns[0].txnType == tag then txns[0].amount else 0.0) + TypeTotal(txns[1..], tag)
  }

  datatype Totals = Totals(income: real, expense: real, balance: real)

  /** summary: income sums the "income" amounts, expense the "expense" amounts,
      and the balance is their difference. Other types count in neither. */
  function Summary(txns: seq<Transaction>): (r: Totals)
    ensures r.balance == r.income - r.expense
  {
    var income := TypeTotal(txns, "income");
    var expense := TypeTotal(txns, "expense");
    Totals(income, expense, income - expense)
  }

  lemma {:induction false} TypeTotalAppend(a: seq<Transaction>, b: seq<Transaction>, tag: string)
    ensures TypeTotal(a + b, tag) == TypeTotal(a, tag) + TypeTotal(b, tag)
  {
    if a == [] {
      assert a + b == b;
    } else {
      assert (a + b)[0] == a[0];
      assert (a + b)[1..] == a[1..] + b;
      TypeTotalAppend(a[1..], b, tag);
    }
  }

  /** The totals of an empty list are all zero, and one transaction adds its amount
      to the side its type names and to nothing else. */
  lemma SummaryOfFew(t: Transaction)
    ensures Summary([]) == Totals(0.0, 0.0, 0.0)
    ensures Summary([t]) == if IsIncome(t) then Totals(t.amount, 0.0, t.amount)
                            else if IsExpense(t) then Totals(0.0, t.amount, -t.amount)
                            else Totals(0.0, 0.0, 0.0)
  {
    assert [t][1..] == [];
  }

  /** The totals are additive over concatenation; with SummaryOfFew this fixes
      them for every list. */
  lemma SummaryAppend(a: seq<Transaction>, b: seq<Transaction>)
    ensures Summary(a + b).income == Summary(a).income + Summary(b).income
    ensures Summary(a + b).expense == Summary(a).expense + Summary(b).expense
    ensures Summary(a + b).balance == Summary(a).balance + Summary(b).balance
  {
    TypeTotalAppend(a, b, "income");
    TypeTotalAppend(a, b, "expense");
  }

  /** With positive amounts a type total is never negative, and it is zero exactly
      when no transaction has that type. */
  lemma {:induction false} TypeTotalPositive(txns: seq<Transaction>, tag: string)
    requires forall k :: 0 <= k < |txns| ==> txns[k].amount > 0.0
    ensures TypeTotal(txns, tag) >= 0.0
    ensures TypeTotal(txns, tag) == 0.0 <==> forall k :: 0 <= k < |txns| ==> txns[k].txnType != tag
  {
    if txns != [] {
      TypeTotalPositive(txns[1..], tag);
      assert forall k :: 1 <= k < |txns| ==> txns[k] == txns[1..][k - 1];
    }
  }

  /** With positive amounts income and expense are never negative. */
  lemma SummaryNonNegative(txns: seq<Transaction>)
    requires forall k :: 0 <= k < |txns| ==> txns[k].amount > 0.0
    ensures Summary(txns).income >= 0.0 && Summary(txns).expense >= 0.0
    ensures Summary(txns).income == 0.0 <==> forall k :: 0 <= k < |txns| ==> !IsIncome(txns[k])
    ensures Summary(txns).expense == 0.0 <==> forall k :: 0 <= k < |txns| ==> !IsExpense(txns[k])
  {
    TypeTotalPositive(txns, "income");
    TypeTotalPositive(txns, "expense");
  }

  // ---------------------------------------------------------------------------
  // top_expense_categories: the totals dict
  // ---------------------------------------------------------------------------

  /** One (category, total) item of the totals dict. */
  datatype CategoryTotal = CategoryTotal(category: string, total: real)

  predicate HasCategory(e: seq<CategoryTotal>, c: string) {
    exists k :: 0 <= k < |e| && e[k].category == c
  }

  /** Position of the entry for c, or |e| when there is none. */
  function IndexOfCategory(e: seq<CategoryTotal>, c: string): (i: nat)
    ensures i <= |e| && (i < |e| ==> e[i].category == c)
    ensures forall j :: 0 <= j < i ==> e[j].category != c
    ensures i < |e| <==> HasCategory(e, c)
  {
    if e == [] then 0
    else if e[0].category == c then 0
    else
      var i := 1 + IndexOfCategory(e[1..], c);
      assert forall j :: 1 <= j < |e| ==> e[j] == e[1..][j - 1];
      i
  }

  /** totals.get(c, 0.0) */
  function TotalFor(e: seq<CategoryTotal>, c: string): real {
    var i := IndexOfCategory(e, c);
    if i < |e| then e[i].total else 0.0
  }

  /** No category has two entries, as in a dict. */
  predicate DistinctCategories(e: seq<CategoryTotal>) {
    forall i, j :: 0 <= i < j < |e| ==> e[i].category != e[j].category
  }

  /** In a dict each entry is the one its key finds. */
  lemma EntryFound(e: seq<CategoryTotal>, k: nat)
    requires DistinctCategories(e) && k < |e|
    ensures IndexOfCategory(e, e[k].category) == k && TotalFor(e, e[k].category) == e[k].total
  {
  }

  /** Two entry lists that agree, position by position, on the entries for d give
      d the same total. */
  lemma TotalForAgree(e: seq<CategoryTotal>, r: seq<CategoryTotal>, d: string)
    requires |e| <= |r|
    requires forall k :: 0 <= k < |e| ==> r[k].category == e[k].category
    requires forall k :: 0 <= k < |e| && e[k].category == d ==> r[k].total == e[k].total
    requires forall k :: |e| <= k < |r| ==> r[k].category != d
    ensures TotalFor(r, d) == TotalFor(e, d)
    ensures HasCategory(r, d) <==> HasCategory(e, d)
  {
    var ie, ir := IndexOfCategory(e, d), IndexOfCategory(r, d);
    if ie < |e| {
      assert r[ie].category == d;
      assert ir == ie;
    } else {
      assert forall k :: 0 <= k < |r| ==> r[k].category != d;
      assert ir == |r|;
    }
  }

  /** totals[c] = totals.get(c, 0.0) + amount on an insertion-ordered dict: an
      existing key keeps its place, a new key is added last. */
  function Upsert(e: seq<CategoryTotal>, c: string, amount: real): (r: seq<CategoryTotal>)
    ensures |r| == if HasCategory(e, c) then |e| else |e| + 1
    ensures forall k :: 0 <= k < |e| ==> r[k].category == e[k].category
    ensures !HasCategory(e, c) ==> r[|e|].category == c
  {
    var i := IndexOfCategory(e, c);
    if i < |e| then e[i := CategoryTotal(c, e[i].total + amount)]
    else e + [CategoryTotal(c, 0.0 + amount)]
  }

  /** Upsert adds amount to the total of c and to no other total, adds c as a key,
      and keeps the keys distinct. */
  lemma UpsertTotals(e: seq<CategoryTotal>, c: string, amount: real, d: string)
    ensures TotalFor(Upsert(e, c, amount), d) == if d == c then TotalFor(e, d) + amount else TotalFor(e, d)
    ensures HasCategory(Upsert(e, c, amount), d) <==> HasCategory(e, d) || d == c
    ensures DistinctCategories(e) ==> DistinctCategories(Upsert(e, c, amount))
  {
    var r := Upsert(e, c, amount);
    var i := IndexOfCategory(e, c);
    if d != c {
      TotalForAgree(e, r, d);
    } else if i < |e| {
      assert IndexOfCategory(r, c) == i;
    } else {
      assert r[|e|].category == c;
      assert IndexOfCategory(r, c) == |e|;
    }
  }

  /** Sum of the expense amounts of category c. */
  function CategorySum(txns: seq<Transaction>, c: string): real {
    if txns == [] then 0.0
    else
      var t := txns[|txns| - 1];
      CategorySum(txns[..|txns| - 1], c) + (if IsExpense(t) && t.category == c then t.amount else 0.0)
  }

  /** Some expense transaction has category c. */
  predicate HasExpenseIn(txns: seq<Transaction>, c: string) {
    exists k :: 0 <= k < |txns| && IsExpense(txns[k]) && txns[k].category == c
  }

  lemma HasExpenseInSnoc(txns: seq<Transaction>, c: string)
    requires txns != []
    ensures HasExpenseIn(txns, c) <==>
              HasExpenseIn(txns[..|txns| - 1], c)
              || (IsExpense(txns[|txns| - 1]) && txns[|txns| - 1].category == c)
  {
    var p := txns[..|txns| - 1];
    if HasExpenseIn(txns, c) {
      var k :| 0 <= k < |txns| && IsExpense(txns[k]) && txns[k].category == c;
      if k < |p| {
        assert p[k] == txns[k];
      }
    }
    if HasExpenseIn(p, c) {
      var k :| 0 <= k < |p| && IsExpense(p[k]) && p[k].category == c;
      assert txns[k] == p[k];
    }
  }

  /** The totals dict after the loop has seen txns. Non-expense transactions are
      skipped. */
  function TotalsOf(txns: seq<Transaction>): seq<CategoryTotal> {
    if txns == [] then []
    else
      var t := txns[|txns| - 1];
      var p := TotalsOf(txns[..|txns| - 1]);
      if IsExpense(t) then Upsert(p, t.category, t.amount) else p
  }

  /** The dict has one key per category of an expense transaction, and no other
      key; each key's total is the sum of the expense amounts of its category. */
  lemma {:induction false} TotalsOfSums(txns: seq<Transaction>, c: string)
    ensures DistinctCategories(TotalsOf(txns))
    ensures HasCategory(TotalsOf(txns), c) <==> HasExpenseIn(txns, c)
    ensures TotalFor(TotalsOf(txns), c) == CategorySum(txns, c)
  {
    if txns != [] {
      var t := txns[|txns| - 1];
      var pre := txns[..|txns| - 1];
      TotalsOfSums(pre, c);
      HasExpenseInSnoc(txns, c);
      if IsExpense(t) {
        UpsertTotals(TotalsOf(pre), t.category, t.amount, c);
      }
    }
  }

  /** Position of the first expense of category c, or |txns| when there is none. */
  function FirstExpense(txns: seq<Transaction>, c: string): (i: nat)
    ensures i <= |txns|
    ensures i < |txns| ==> IsExpense(txns[i]) && txns[i].category == c
    ensures forall k :: 0 <= k < i ==> !(IsExpense(txns[k]) && txns[k].category == c)
  {
    if txns == [] then 0
    else if IsExpense(txns[0]) && txns[0].category == c then 0
    else
      var i := 1 + FirstExpense(txns[1..], c);
      assert forall k :: 1 <= k < |txns| ==> txns[k] == txns[1..][k - 1];
      i
  }

  /** Extending the list does not move a first occurrence already present. */
  lemma FirstExpenseSnoc(txns: seq<Transaction>, c: string)
    requires txns != []
    ensures var pre := txns[..|txns| - 1];
            FirstExpense(txns, c) == if HasExpenseIn(pre, c) then FirstExpense(pre, c) else
                                      if IsExpense(txns[|txns| - 1]) && txns[|txns| - 1].category == c then |pre|
                                      else |txns|
  {
    var pre := txns[..|txns| - 1];
    var i, j := FirstExpense(txns, c), FirstExpense(pre, c);
    if HasExpenseIn(pre, c) {
      var k :| 0 <= k < |pre| && IsExpense(pre[k]) && pre[k].category == c;
      assert txns[k] == pre[k];
      assert j < |pre|;
      assert txns[j] == pre[j];
    } else {
      assert forall k :: 0 <= k < |pre| ==> txns[k] == pre[k];
      assert forall k :: 0 <= k < |pre| ==> !(IsExpense(txns[k]) && txns[k].category == c);
    }
  }

  /** The dict's keys are in order of first appearance among the expenses. */
  lemma {:induction false} TotalsOfFirstOccurrenceOrder(txns: seq<Transaction>)
    ensures forall i, j :: 0 <= i < j < |TotalsOf(txns)| ==>
              FirstExpense(txns, TotalsOf(txns)[i].category) < FirstExpense(txns, TotalsOf(txns)[j].category)
  {
    if txns != [] {
      var t := txns[|txns| - 1];
      var pre := txns[..|txns| - 1];
      var p, r := TotalsOf(pre), TotalsOf(txns);
      TotalsOfFirstOccurrenceOrder(pre);
      forall k | 0 <= k < |p|
        ensures r[k].category == p[k].category
        ensures FirstExpense(txns, p[k].category) == FirstExpense(pre, p[k].category) < |pre|
      {
        TotalsOfSums(pre, p[k].category);
        assert HasCategory(p, p[k].category);
        FirstExpenseSnoc(txns, p[k].category);
      }
      if |r| > |p| {
        assert IsExpense(t) && !HasCategory(p, t.category) && r[|p|].category == t.category;
        TotalsOfSums(pre, t.category);
        FirstExpenseSnoc(txns, t.category);
      }
    }
  }

  // ---------------------------------------------------------------------------
  // top_expense_categories: ranking and cut-off
  // ---------------------------------------------------------------------------

  /** Non-increasing by total. */
  predicate SortedByTotal(s: seq<CategoryTotal>) {
    forall i, j :: 0 <= i < j < |s| ==> s[i].total >= s[j].total
  }

  /** Inserts x into a list ranked by total, after every entry whose total is at
      least x's. */
  function InsertByTotal(x: CategoryTotal, s: seq<CategoryTotal>): (r: seq<CategoryTotal>)
    ensures multiset(r) == multiset(s) + multiset{x}
  {
    if s == [] then [x]
    else if s[0].total >= x.total then
      assert s == [s[0]] + s[1..];
      [s[0]] + InsertByTotal(x, s[1..])
    else [x] + s
  }

  /** sorted(items, key=total, reverse=True). Python's sort is stable, also in
      reverse, so entries with equal totals keep their dict order: each entry is
      inserted after the earlier ones whose total is at least as large. */
  function SortByTotal(s: seq<CategoryTotal>): (r: seq<CategoryTotal>)
    ensures multiset(r) == multiset(s)
  {
    if s == [] then []
    else
      assert s == s[..|s| - 1] + [s[|s| - 1]];
      InsertByTotal(s[|s| - 1], SortByTotal(s[..|s| - 1]))
  }

  lemma SortedCons(y: CategoryTotal, r: seq<CategoryTotal>)
    requires SortedByTotal(r) && forall z | z in r :: y.total >= z.total
    ensures SortedByTotal([y] + r)
  {
    forall i, j | 0 <= i < j < |[y] + r|
      ensures ([y] + r)[i].total >= ([y] + r)[j].total
    {
      if i == 0 {
        assert ([y] + r)[j] in r;
      }
    }
  }

  lemma {:induction false} InsertByTotalSorted(x: CategoryTotal, s: seq<CategoryTotal>)
    requires SortedByTotal(s)
    ensures SortedByTotal(InsertByTotal(x, s))
  {
    if s != [] && s[0].total >= x.total {
      var rest := InsertByTotal(x, s[1..]);
      InsertByTotalSorted(x, s[1..]);
      forall y | y in rest
        ensures s[0].total >= y.total
      {
        assert y in multiset(rest);
        assert y == x || y in multiset(s[1..]);
      }
      assert InsertByTotal(x, s) == [s[0]] + rest;
      SortedCons(s[0], rest);
    }
  }

  /** The ranking is non-increasing by total. */
  lemma {:induction false} SortByTotalSorted(s: seq<CategoryTotal>)
    ensures SortedByTotal(SortByTotal(s))
  {
    if s != [] {
      SortByTotalSorted(s[..|s| - 1]);
      InsertByTotalSorted(s[|s| - 1], SortByTotal(s[..|s| - 1]));
    }
  }

  /** The entries whose total is v, in list order. */
  function WithTotal(s: seq<CategoryTotal>, v: real): seq<CategoryTotal> {
    if s == [] then []
    else (if s[0].total == v then [s[0]] else []) + WithTotal(s[1..], v)
  }

  lemma {:induction false} WithTotalNone(s: seq<CategoryTotal>, v: real)
    requires forall k :: 0 <= k < |s| ==> s[k].total != v
    ensures WithTotal(s, v) == []
  {
    if s != [] {
      assert forall k :: 0 <= k < |s| - 1 ==> s[1..][k] == s[k + 1];
      WithTotalNone(s[1..], v);
    }
  }

  lemma {:induction false} WithTotalAppend(a: seq<CategoryTotal>, b: seq<CategoryTotal>, v: real)
    ensures WithTotal(a + b, v) == WithTotal(a, v) + WithTotal(b, v)
  {
    if a == [] {
      AppendEmpty(b);
    } else {
      FirstOfAppend(a, b);
      WithTotalAppend(a[1..], b, v);
      AppendAssociative((if a[0].total == v then [a[0]] else []), WithTotal(a[1..], v), WithTotal(b, v));
    }
  }

  lemma SortedTail(s: seq<CategoryTotal>)
    requires SortedByTotal(s) && s != []
    ensures SortedByTotal(s[1..])
    ensures forall k :: 0 <= k < |s| ==> s[k].total <= s[0].total
  {
    assert forall k :: 0 <= k < |s| - 1 ==> s[1..][k] == s[k + 1];
  }

  /** Putting one more entry in front of two lists that agree up to a common tail. */
  lemma WithTotalConsStep(y: CategoryTotal, t: seq<CategoryTotal>, rest: seq<CategoryTotal>,
                          tail: seq<CategoryTotal>, v: real)
    requires WithTotal(rest, v) == WithTotal(t, v) + tail
    ensures WithTotal([y] + rest, v) == WithTotal([y] + t, v) + tail
  {
    WithTotalAppend([y], rest, v);
    WithTotalAppend([y], t, v);
    AppendAssociative(WithTotal([y], v), WithTotal(t, v), tail);
  }

  /** Inserting into a ranked list puts x after every entry with the same total. */
  lemma {:induction false} InsertByTotalStable(x: CategoryTotal, s: seq<CategoryTotal>, v: real)
    requires SortedByTotal(s)
    ensures WithTotal(InsertByTotal(x, s), v) == WithTotal(s, v) + WithTotal([x], v)
  {
    if s == [] {
      AppendEmpty(WithTotal([x], v));
    } else if s[0].total >= x.total {
      SortedTail(s);
      InsertByTotalStable(x, s[1..], v);
      InsertBehindStable(x, s, v);
    } else {
      InsertInFrontStable(x, s, v);
    }
  }

  /** The step of InsertByTotalStable where x goes past the first entry. */
  lemma InsertBehindStable(x: CategoryTotal, s: seq<CategoryTotal>, v: real)
    requires s != [] && s[0].total >= x.total
    requires WithTotal(InsertByTotal(x, s[1..]), v) == WithTotal(s[1..], v) + WithTotal([x], v)
    ensures WithTotal(InsertByTotal(x, s), v) == WithTotal(s, v) + WithTotal([x], v)
  {
    InsertBehind(x, s);
    WithTotalConsStep(s[0], s[1..], InsertByTotal(x, s[1..]), WithTotal([x], v), v);
    HeadTail(s);
  }

  lemma InsertBehind(x: CategoryTotal, s: seq<CategoryTotal>)
    requires s != [] && s[0].total >= x.total
    ensures InsertByTotal(x, s) == [s[0]] + InsertByTotal(x, s[1..])
  {
  }

  /** The case of InsertByTotalStable where x goes in front: no entry of the ranked
      list has x's total, or x's total is not v. */
  lemma InsertInFrontStable(x: CategoryTotal, s: seq<CategoryTotal>, v: real)
    requires SortedByTotal(s) && s != [] && s[0].total < x.total
    ensures WithTotal(InsertByTotal(x, s), v) == WithTotal(s, v) + WithTotal([x], v)
  {
    assert InsertByTotal(x, s) == [x] + s;
    WithTotalAppend([x], s, v);
    SortedTail(s);
    if x.total == v {
      WithTotalNone(s, v);
      AppendEmpty(WithTotal([x], v));
    } else {
      assert WithTotal([x], v) == [] + WithTotal([x][1..], v);
      AppendEmpty(WithTotal(s, v));
    }
  }

  /** The sort is stable: for every total, the entries with that total come out in
      the order they went in. */
  lemma {:induction false} SortByTotalStable(s: seq<CategoryTotal>, v: real)
    ensures WithTotal(SortByTotal(s), v) == WithTotal(s, v)
  {
    if s != [] {
      var pre, x := s[..|s| - 1], s[|s| - 1];
      assert SortByTotal(s) == InsertByTotal(x, SortByTotal(pre));
      SortByTotalStable(pre, v);
      SortByTotalSorted(pre);
      InsertByTotalStable(x, SortByTotal(pre), v);
      SplitLast(s);
      WithTotalAppend(pre, [x], v);
    }
  }

  /** Inserting an entry with a new key into a dict-like list keeps the keys
      distinct. */
  lemma {:induction false} InsertByTotalDistinct(x: CategoryTotal, s: seq<CategoryTotal>)
    requires DistinctCategories(s) && !HasCategory(s, x.category)
    ensures DistinctCategories(InsertByTotal(x, s))
  {
    if s != [] && s[0].total >= x.total {
      var rest := InsertByTotal(x, s[1..]);
      assert forall k :: 0 <= k < |s| - 1 ==> s[1..][k] == s[k + 1];
      InsertByTotalDistinct(x, s[1..]);
      forall k | 0 <= k < |rest|
        ensures rest[k].category != s[0].category
      {
        assert rest[k] in multiset(rest);
        assert rest[k] == x || rest[k] in s[1..];
      }
      assert InsertByTotal(x, s) == [s[0]] + rest;
    }
  }

  /** Ranking a dict's items keeps the keys distinct. */
  lemma {:induction false} SortByTotalDistinct(s: seq<CategoryTotal>)
    requires DistinctCategories(s)
    ensures DistinctCategories(SortByTotal(s))
  {
    if s != [] {
      var pre, x := s[..|s| - 1], s[|s| - 1];
      SortByTotalDistinct(pre);
      var r := SortByTotal(pre);
      forall k | 0 <= k < |r|
        ensures r[k].category != x.category
      {
        assert r[k] in multiset(pre);
        var j :| 0 <= j < |pre| && pre[j] == r[k];
        assert s[j] == pre[j];
      }
      InsertByTotalDistinct(x, r);
    }
  }

  /** items[:n] with Python's slice bounds: a negative n drops that many entries
      from the end. */
  function Take(s: seq<CategoryTotal>, n: int): (r: seq<CategoryTotal>)
    ensures |r| <= |s| && r == s[..|r|]
    ensures n >= 0 ==> |r| == if n < |s| then n else |s|
    ensures n < 0 ==> |r| == if |s| + n > 0 then |s| + n else 0
  {
    if n >= 0 then (if n < |s| then s[..n] else s)
    else if |s| + n > 0 then s[..|s| + n] else []
  }

  /** top_expense_categories as a value: the totals dict ranked by total and cut
      to top_n entries. */
  function TopCategories(txns: seq<Transaction>, topN: int): seq<CategoryTotal> {
    Take(SortByTotal(TotalsOf(txns)), topN)
  }

  /** top_expense_categories: one pass accumulating the totals dict, then the
      ranking and the cut-off. */
  method TopExpenseCategories(txns: seq<Transaction>, topN: int) returns (top: seq<CategoryTotal>)
    ensures top == TopCategories(txns, topN)
  {
    var totals: seq<CategoryTotal> := [];
    var i := 0;
    while i < |txns|
      invariant 0 <= i <= |txns|
      invariant totals == TotalsOf(txns[..i])
    {
      var t := txns[i];
      assert txns[..i + 1][..i] == txns[..i];
      if t.txnType == "expense" {
        totals := Upsert(totals, t.category, t.amount);
      }
      i := i + 1;
    }
    assert txns[..i] == txns;
    var items := SortByTotal(totals);
    top := Take(items, topN);
  }

  /** The dict never has more keys than the loop saw transactions, and it is empty
      when no transaction is an expense. */
  lemma {:induction false} TotalsOfLength(txns: seq<Transaction>)
    ensures |TotalsOf(txns)| <= |txns|
    ensures (forall k :: 0 <= k < |txns| ==> !IsExpense(txns[k])) ==> TotalsOf(txns) == []
  {
    if txns != [] {
      TotalsOfLength(txns[..|txns| - 1]);
    }
  }

  /** top_n bounds the length, and no expenses means an empty ranking. */
  lemma TopCategoriesLength(txns: seq<Transaction>, topN: int)
    ensures topN >= 0 ==> |TopCategories(txns, topN)| <= topN
    ensures |TopCategories(txns, topN)| <= |txns|
    ensures (forall k :: 0 <= k < |txns| ==> !IsExpense(txns[k])) ==> TopCategories(txns, topN) == []
  {
    TotalsOfLength(txns);
    var totals := TotalsOf(txns);
    assert |SortByTotal(totals)| == |multiset(SortByTotal(totals))| == |totals|;
  }

  /** Each ranked entry is a distinct expense category carrying the sum of all the
      expense amounts of that category, and the entries are non-increasing by
      total. */
  lemma TopCategoriesEntries(txns: seq<Transaction>, topN: int)
    ensures var top := TopCategories(txns, topN);
            DistinctCategories(top) && SortedByTotal(top)
            && forall k :: 0 <= k < |top| ==>
                 HasExpenseIn(txns, top[k].category) && top[k].total == CategorySum(txns, top[k].category)
  {
    var totals := TotalsOf(txns);
    var items := SortByTotal(totals);
    var top := TopCategories(txns, topN);
    TotalsOfSums(txns, "");
    SortByTotalDistinct(totals);
    SortByTotalSorted(totals);
    assert forall k :: 0 <= k < |top| ==> top[k] == items[k];
    forall k | 0 <= k < |top|
      ensures HasExpenseIn(txns, top[k].category) && top[k].total == CategorySum(txns, top[k].category)
    {
      assert items[k] in multiset(totals);
      var i :| 0 <= i < |totals| && totals[i] == items[k];
      EntryFound(totals, i);
      TotalsOfSums(txns, totals[i].category);
    }
  }

  /** The ranking keeps the largest totals: a category left out totals no more
      than any kept one, and when top_n is at least the number of transactions no
      expense category is left out. */
  lemma TopCategoriesRanking(txns: seq<Transaction>, topN: int, c: string)
    requires HasExpenseIn(txns, c) && !HasCategory(TopCategories(txns, topN), c)
    ensures forall k :: 0 <= k < |TopCategories(txns, topN)| ==>
              TopCategories(txns, topN)[k].total >= CategorySum(txns, c)
    ensures topN < |txns|
  {
    var totals := TotalsOf(txns);
    var items := SortByTotal(totals);
    var top := TopCategories(txns, topN);
    TotalsOfSums(txns, c);
    var i := IndexOfCategory(totals, c);
    EntryFound(totals, i);
    assert totals[i] in multiset(items);
    var j :| 0 <= j < |items| && items[j] == totals[i];
    SortByTotalSorted(totals);
    assert forall k :: 0 <= k < |top| ==> top[k] == items[k];
    TotalsOfLength(txns);
  }
}
