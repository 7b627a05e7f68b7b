/** The CSV store. The file is a state object: whether it is present, and its rows,
    each a list of field strings, the first being the header. Quoting and escaping
    are below this level. */
module Storage {
  import opened Common
  import opened Text
  import opened Numbers
  import opened Calendar
  import opened Models

  /** CSV_HEADER */
  const Header: seq<string> := ["date", "type", "category", "amount", "comment"]

  /** `t.comment or ""` */
  function CommentText(c: Option<string>): string {
    match c
    case None => ""
    case Some(s) => s
  }

  /** The row csv.writer receives for t: ISO date, type, category, amount with two
      decimals, and the comment with None written as the empty text. */
  function FormatRow(t: Transaction): (row: seq<string>)
    ensures |row| == |Header|
    ensures row[0] != [] && row[3] != []
  {
    [IsoFormat(t.date), t.txnType, t.category, FormatFixed2(t.amount), CommentText(t.comment)]
  }

  function FormatRows(txns: seq<Transaction>): (rows: seq<seq<string>>)
    ensures |rows| == |txns|
    ensures forall k :: 0 <= k < |txns| ==> rows[k] == FormatRow(txns[k])
  {
    if txns == [] then [] else FormatRows(txns[..|txns| - 1]) + [FormatRow(txns[|txns| - 1])]
  }

  /** Writing one more transaction adds one more row. */
  lemma FormatRowsPrefix(txns: seq<Transaction>, i: nat)
    requires i < |txns|
    ensures FormatRows(txns[..i + 1]) == FormatRows(txns[..i]) + [FormatRow(txns[i])]
  {
    assert txns[..i + 1][..i] == txns[..i];
  }

  // ---------------------------------------------------------------------------
  // Reading a row as csv.DictReader does
  // ---------------------------------------------------------------------------

  /** dict(zip(h, row)).get(k): the field at the last position, among those both
      lists reach, whose header name is k (a repeated name keeps its last value). */
  function Zipped(h: seq<string>, row: seq<string>, k: string): (v: Option<string>)
    ensures v.Some? ==> exists i :: 0 <= i < |h| && i < |row| && h[i] == k && row[i] == v.value
    ensures v.None? ==> forall i :: 0 <= i < |h| && i < |row| ==> h[i] != k
    decreases |h|
  {
    var n := if |h| < |row| then |h| else |row|;
    if n == 0 then None
    else if h[n - 1] == k then Some(row[n - 1])
    else
      var v := Zipped(h[..n - 1], row[..n - 1], k);
      assert forall i :: 0 <= i < n - 1 ==> h[..n - 1][i] == h[i] && row[..n - 1][i] == row[i];
      v
  }

  /** The value DictReader gives key k in a row read under header h. Header names
      past the end of a short row get the rest value None; names missing from the
      header are absent, which `row.get` also reads as None. */
  function Field(h: seq<string>, row: seq<string>, k: string): Option<string> {
    if |row| < |h| && k in h[|row|..] then None else Zipped(h, row, k)
  }

  /** `not row.get(k)`: missing, None or empty. */
  predicate Blank(v: Option<string>) {
    v.None? || v.value == ""
  }

  /** The loop body of load_transactions for one data row: Ok(None) when the row is
      skipped, the transaction it holds, or the error that aborts the load. */
  function ParseRow(h: seq<string>, row: seq<string>): Result<Option<Transaction>>
  {
    var date, txnType, category, amount :=
      Field(h, row, "date"), Field(h, row, "type"), Field(h, row, "category"), Field(h, row, "amount");
    if Blank(date) || Blank(txnType) || Blank(category) || Blank(amount) then Ok(None)
    else match FromIsoFormat(date.value)
      case None => Err(StoredDateInvalid)
      case Some(d) =>
        match ParseNumber(amount.value)
        case None => Err(StoredAmountInvalid)
        case Some(a) =>
          Ok(Some(Transaction(d, txnType.value, category.value, a, Some(CommentText(Field(h, row, "comment"))))))
  }

  /** A row is skipped exactly when one of date, type, category or amount is
      missing or empty. Otherwise an unreadable date fails it, then an unreadable
      amount; a readable row becomes a transaction holding the date and amount read,
      the type and category verbatim and the comment with None read as "". */
  lemma ParseRowCases(h: seq<string>, row: seq<string>)
    ensures var r := ParseRow(h, row);
      && (r == Ok(None) <==>
            Blank(Field(h, row, "date")) || Blank(Field(h, row, "type"))
            || Blank(Field(h, row, "category")) || Blank(Field(h, row, "amount")))
      && (r.Err? ==> r.error == StoredDateInvalid || r.error == StoredAmountInvalid)
      && (r == Err(StoredDateInvalid) ==> FromIsoFormat(Field(h, row, "date").value).None?)
      && (r == Err(StoredAmountInvalid) ==> FromIsoFormat(Field(h, row, "date").value).Some?
                                            && ParseNumber(Field(h, row, "amount").value).None?)
      && (r.Ok? && r.value.Some? ==>
            var t := r.value.value;
            && Some(t.date) == FromIsoFormat(Field(h, row, "date").value)
            && Some(t.txnType) == Field(h, row, "type")
            && Some(t.category) == Field(h, row, "category")
            && Some(t.amount) == ParseNumber(Field(h, row, "amount").value)
            && t.comment == Some(CommentText(Field(h, row, "comment"))))
  {
  }

  /** load_transactions over the data rows after header h: the loaded transactions
      in file order, or the error of the first row that cannot be read. */
  function LoadData(h: seq<string>, data: seq<seq<string>>): Result<seq<Transaction>> {
    if data == [] then Ok([])
    else
      match LoadData(h, data[..|data| - 1])
      case Err(e) => Err(e)
      case Ok(txns) =>
        match ParseRow(h, data[|data| - 1])
        case Err(e) => Err(e)
        case Ok(None) => Ok(txns)
        case Ok(Some(t)) => Ok(txns + [t])
  }

  /** load_transactions over all the rows of the file: the first row is the header;
      a file with no rows at all has nothing to load. */
  function LoadRows(rows: seq<seq<string>>): Result<seq<Transaction>> {
    if rows == [] then Ok([]) else LoadData(rows[0], rows[1..])
  }

  // ---------------------------------------------------------------------------
  // The file
  // ---------------------------------------------------------------------------

  class CsvFile {
    /** path.exists() */
    var present: bool
    var rows: seq<seq<string>>

    constructor (present: bool, rows: seq<seq<string>>)
      ensures this.present == present && this.rows == rows
    {
      this.present := present;
      this.rows := rows;
    }

    /** ensure_csv: a missing file is created holding just the header; an existing
        file is left as it is. */
    method EnsureCsv()
      modifies this
      ensures present
      ensures rows == if old(present) then old(rows) else [Header]
    {
      if !present {
        present := true;
        rows := [Header];
      }
    }

    /** load_transactions: ensure the file, then read its data rows in order,
        skipping incomplete ones and stopping at the first unreadable one. */
    method Load() returns (r: Result<seq<Transaction>>)
      modifies this
      ensures present
      ensures rows == if old(present) then old(rows) else [Header]
      ensures r == LoadRows(rows)
    {
      EnsureCsv();
      if rows == [] {
        return Ok([]);
      }
      var h, data := rows[0], rows[1..];
      ghost var ensured := rows;
      var txns: seq<Transaction> := [];
      var i := 0;
      while i < |data|
        invariant present && rows == ensured
        invariant 0 <= i <= |data|
        invariant LoadData(h, data[..i]) == Ok(txns)
      {
        var parsed := ParseRow(h, data[i]);
        TakeOneMore(data, i);
        if parsed.Err? {
          LoadDataFail(h, data[..i], data[i]);
          LoadDataErrorPersists(h, data, i + 1);
          return Err(parsed.error);
        }
        if parsed.value.Some? {
          LoadDataKeep(h, data[..i], data[i], parsed.value.value);
          txns := txns + [parsed.value.value];
        } else {
          LoadDataSkip(h, data[..i], data[i]);
        }
        i := i + 1;
      }
      assert data[..i] == data;
      return Ok(txns);
    }

    /** save_transactions: the file becomes the header followed by one row per
        transaction, in order. */
    method Save(txns: seq<Transaction>)
      modifies this
      ensures present
      ensures rows == [Header] + FormatRows(txns)
    {
      EnsureCsv();
      var written: seq<seq<string>> := [];
      var i := 0;
      while i < |txns|
        invariant present && 0 <= i <= |txns|
        invariant written == FormatRows(txns[..i])
      {
        FormatRowsPrefix(txns, i);
        written := written + [FormatRow(txns[i])];
        i := i + 1;
      }
      assert txns[..i] == txns;
      rows := [Header] + written;
    }

    /** append_transaction: ensure the file, then add exactly one row at its end. */
    method Append(t: Transaction)
      modifies this
      ensures present
      ensures rows == (if old(present) then old(rows) else [Header]) + [FormatRow(t)]
    {
      EnsureCsv();
      rows := rows + [FormatRow(t)];
    }
  }

  // ---------------------------------------------------------------------------
  // Properties of loading
  // ---------------------------------------------------------------------------

  lemma LoadDataFail(h: seq<string>, data: seq<seq<string>>, row: seq<string>)
    requires LoadData(h, data).Ok? && ParseRow(h, row).Err?
    ensures LoadData(h, data + [row]) == Err(ParseRow(h, row).error)
  {
    assert (data + [row])[..|data|] == data;
  }

  lemma LoadDataSkip(h: seq<string>, data: seq<seq<string>>, row: seq<string>)
    requires ParseRow(h, row) == Ok(None)
    ensures LoadData(h, data + [row]) == LoadData(h, data)
  {
    assert (data + [row])[..|data|] == data;
  }

  lemma LoadDataKeep(h: seq<string>, data: seq<seq<string>>, row: seq<string>, t: Transaction)
    requires LoadData(h, data).Ok? && ParseRow(h, row) == Ok(Some(t))
    ensures LoadData(h, data + [row]) == Ok(LoadData(h, data).value + [t])
  {
    assert (data + [row])[..|data|] == data;
  }

  /** A row that cannot be read aborts the whole load: once a prefix of the data
      fails, the data fails with the same error. */
  lemma {:induction false} LoadDataErrorPersists(h: seq<string>, data: seq<seq<string>>, m: nat)
    requires m <= |data| && LoadData(h, data[..m]).Err?
    ensures LoadData(h, data) == LoadData(h, data[..m])
    decreases |data| - m
  {
    if m < |data| {
      assert data[..m + 1][..m] == data[..m];
      LoadDataErrorPersists(h, data, m + 1);
    } else {
      assert data[..m] == data;
    }
  }

  /** The file freshly created by ensure_csv loads as no transactions. */
  lemma LoadHeaderOnly()
    ensures LoadRows([Header]) == Ok([])
  {
    assert [Header][1..] == [];
  }

  /** A row missing any of date, type, category or amount is skipped: it changes
      neither the result nor whether the load succeeds. */
  lemma LoadSkipsIncompleteRow(h: seq<string>, data: seq<seq<string>>, row: seq<string>)
    requires Blank(Field(h, row, "date")) || Blank(Field(h, row, "type"))
             || Blank(Field(h, row, "category")) || Blank(Field(h, row, "amount"))
    ensures LoadData(h, data + [row]) == LoadData(h, data)
  {
    assert (data + [row])[..|data|] == data;
  }

  /** Loading is row by row, in order: after a prefix that loads, the rest of the
      data decides, and its transactions follow the prefix's. */
  lemma {:induction false} LoadDataAppend(h: seq<string>, a: seq<seq<string>>, b: seq<seq<string>>)
    requires LoadData(h, a).Ok?
    ensures LoadData(h, a + b) ==
              if LoadData(h, b).Ok? then Ok(LoadData(h, a).value + LoadData(h, b).value) else LoadData(h, b)
  {
    if b == [] {
      AppendEmpty(a);
      AppendEmpty(LoadData(h, a).value);
    } else {
      var b', row := b[..|b| - 1], b[|b| - 1];
      LastOfAppend(a, b);
      LoadDataAppend(h, a, b');
      if LoadData(h, b').Ok? && ParseRow(h, row) != Ok(None) && ParseRow(h, row).Ok? {
        AppendAssociative(LoadData(h, a).value, LoadData(h, b').value, [ParseRow(h, row).value.value]);
      }
    }
  }

  // ---------------------------------------------------------------------------
  // Round trip: what save writes, load reads back
  // ---------------------------------------------------------------------------

  /** The header names are pairwise different. */
  lemma HeaderDistinct()
    ensures forall i, j :: 0 <= i < j < |Header| ==> Header[i] != Header[j]
  {
    assert Header[0][0] == 'd' && Header[1][0] == 't' && Header[2][0] == 'c'
           && Header[3][0] == 'a' && Header[4][0] == 'c';
    assert Header[2][1] == 'a' && Header[4][1] == 'o';
  }

  /** Under a header without repeated names, the name at position i of a row at
      least as long reads the field at i. */
  lemma FieldAt(h: seq<string>, row: seq<string>, i: nat)
    requires forall a, b :: 0 <= a < b < |h| ==> h[a] != h[b]
    requires i < |h| <= |row|
    ensures Field(h, row, h[i]) == Some(row[i])
  {
    var v := Zipped(h, row, h[i]);
    assert v.Some?;
    var j :| 0 <= j < |h| && j < |row| && h[j] == h[i] && row[j] == v.value;
    assert j == i;
  }

  /** Under the file's own header every field of a full row is read from its own
      column. */
  lemma HeaderFields(row: seq<string>)
    requires |row| == |Header|
    ensures Field(Header, row, "date") == Some(row[0])
    ensures Field(Header, row, "type") == Some(row[1])
    ensures Field(Header, row, "category") == Some(row[2])
    ensures Field(Header, row, "amount") == Some(row[3])
    ensures Field(Header, row, "comment") == Some(row[4])
  {
    HeaderDistinct();
    FieldAt(Header, row, 0);
    FieldAt(Header, row, 1);
    FieldAt(Header, row, 2);
    FieldAt(Header, row, 3);
    FieldAt(Header, row, 4);
  }

  /** The transaction a saved row loads back as: the amount rounded to cents, a None
      comment as the empty text. */
  function Reread(t: Transaction): (u: Transaction)
    ensures u.date == t.date && u.txnType == t.txnType && u.category == t.category
    ensures Abs(u.amount - t.amount) <= 0.005 && u.comment.Some?
  {
    t.(amount := RoundToCents(t.amount), comment := Some(CommentText(t.comment)))
  }

  /** What loading a saved list gives back: transactions with an empty type or
      category are dropped, the rest are reread. */
  function Reloaded(txns: seq<Transaction>): seq<Transaction> {
    if txns == [] then []
    else
      var t := txns[|txns| - 1];
      Reloaded(txns[..|txns| - 1]) + (if t.txnType == "" || t.category == "" then [] else [Reread(t)])
  }

  /** One written row loads back as the reread transaction, or is skipped when its
      type or category is empty. */
  lemma ParseFormattedRow(t: Transaction)
    ensures ParseRow(Header, FormatRow(t)) ==
              if t.txnType == "" || t.category == "" then Ok(None) else Ok(Some(Reread(t)))
  {
    var row := FormatRow(t);
    HeaderFields(row);
    ParseRowCases(Header, row);
    IsoRoundTrip(t.date);
    FormatFixed2RoundTrip(t.amount);
  }

  lemma {:induction false} LoadFormattedRows(txns: seq<Transaction>)
    ensures LoadData(Header, FormatRows(txns)) == Ok(Reloaded(txns))
  {
    if txns != [] {
      var pre, t := txns[..|txns| - 1], txns[|txns| - 1];
      var rows, row := FormatRows(pre), FormatRow(t);
      assert FormatRows(txns) == rows + [row];
      LoadFormattedRows(pre);
      ParseFormattedRow(t);
      if t.txnType == "" || t.category == "" {
        LoadDataSkip(Header, rows, row);
        assert Reloaded(txns) == Reloaded(pre) + [];
        assert Reloaded(pre) + [] == Reloaded(pre);
      } else {
        LoadDataKeep(Header, rows, row, Reread(t));
        assert Reloaded(txns) == Reloaded(pre) + [Reread(t)];
      }
    }
  }

  /** Load after save returns the saved transactions, reread, except those with an
      empty type or category. */
  lemma SaveLoadRoundTrip(txns: seq<Transaction>)
    ensures LoadRows([Header] + FormatRows(txns)) == Ok(Reloaded(txns))
  {
    var rows := [Header] + FormatRows(txns);
    assert rows[0] == Header && rows[1..] == FormatRows(txns);
    LoadFormattedRows(txns);
  }

  /** A transaction the ledger itself produced (a type, a category, whole cents and
      a comment) is stored without loss. */
  predicate Storable(t: Transaction) {
    t.txnType != "" && t.category != "" && IsWholeCents(t.amount) && t.comment.Some?
  }

  lemma {:induction false} ReloadedStorable(txns: seq<Transaction>)
    requires forall k :: 0 <= k < |txns| ==> Storable(txns[k])
    ensures Reloaded(txns) == txns
  {
    if txns != [] {
      var pre, t := txns[..|txns| - 1], txns[|txns| - 1];
      ReloadedStorable(pre);
      RoundWholeCents(t.amount);
      assert Reread(t) == t;
      assert txns == pre + [t];
    }
  }

  /** Load after save is the identity on storable transactions. */
  lemma SaveLoadIdentity(txns: seq<Transaction>)
    requires forall k :: 0 <= k < |txns| ==> Storable(txns[k])
    ensures LoadRows([Header] + FormatRows(txns)) == Ok(txns)
  {
    SaveLoadRoundTrip(txns);
    ReloadedStorable(txns);
  }

  /** Appending to a file with the ledger's header: the next load returns what the
      file loaded before followed by the appended transaction, reread (or nothing
      new when its type or category is empty); a file that failed still fails. */
  lemma AppendThenLoad(rows: seq<seq<string>>, t: Transaction)
    requires rows != [] && rows[0] == Header
    ensures LoadRows(rows).Ok? ==> LoadRows(rows + [FormatRow(t)]) == Ok(LoadRows(rows).value + Reloaded([t]))
    ensures LoadRows(rows).Err? ==> LoadRows(rows + [FormatRow(t)]) == LoadRows(rows)
  {
    var row := FormatRow(t);
    assert (rows + [row])[0] == Header;
    assert (rows + [row])[1..] == rows[1..] + [row];
    assert [t][..0] == [];
    assert Reloaded([t]) == if t.txnType == "" || t.category == "" then [] else [Reread(t)];
    ParseFormattedRow(t);
    if LoadRows(rows).Ok? {
      LoadDataAppend(Header, rows[1..], [row]);
      assert [row][..0] == [];
    } else {
      assert (rows[1..] + [row])[..|rows| - 1] == rows[1..];
    }
  }

  /** A file that exists but holds no rows gets no header from ensure_csv, so the
      appended row becomes the header and the transaction is not loaded back. */
  lemma AppendToEmptyFile(t: Transaction)
    ensures LoadRows([] + [FormatRow(t)]) == Ok([])
  {
    assert ([] + [FormatRow(t)])[1..] == [];
  }
}
