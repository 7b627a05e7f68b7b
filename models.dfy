/** The ledger's one entity: a transaction, an immutable record. */
module Models {
  import opened Common
  import opened Calendar

  /** The two transaction tags of the TxnType literal type. */
  type TxnType = s: string | s == "expense" || s == "income" witness "expense"

  /** One income or expense event. A datatype value is immutable and compared field
      by field, as the frozen dataclass is. The constructor checks nothing: the tag is
      annotated as a TxnType but held as text, and loading keeps whatever text the
      file holds. The comment may be None and defaults to the empty text. */
  datatype Transaction = Transaction(
    date: CalendarDate,
    txnType: string,
    category: string,
    amount: real,
    comment: Option<string> := Some(""))

  predicate IsIncome(t: Transaction) {
    t.txnType == "income"
  }

  predicate IsExpense(t: Transaction) {
    t.txnType == "expense"
  }

  /** What the ledger means a transaction to be: a TxnType tag, a non-empty
      category and an amount above zero. */
  predicate WellFormed(t: Transaction) {
    (IsIncome(t) || IsExpense(t)) && t.category != [] && t.amount > 0.0
  }

  /** A transaction is a value: two are equal exactly when all five fields are, and
      one built without a comment has the empty comment. */
  lemma TransactionIsValue(t: Transaction, u: Transaction)
    ensures t == u <==> t.date == u.date && t.txnType == u.txnType && t.category == u.category
                        && t.amount == u.amount && t.comment == u.comment
    ensures Transaction(t.date, t.txnType, t.category, t.amount).comment == Some("")
  {
  }
}
