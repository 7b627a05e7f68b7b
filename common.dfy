/** Shared failure types (the exceptions the ledger raises become values) and
    facts about sequences that the other modules use. */
module Common {

  datatype Option<+T> = None | Some(value: T)

  /** Every error the ledger core can raise, one constructor per distinct cause. */
  datatype Error =
    | BadDateInput          // parse_date: text does not match YYYY-MM-DD or is not a calendar date
    | AmountNotNumeric      // parse_amount: float() rejects the text
    | AmountNotPositive     // parse_amount: value <= 0
    | UnknownType           // normalize_type: token outside the bilingual set
    | StoredDateInvalid     // load: date.fromisoformat rejects a stored date
    | StoredAmountInvalid   // load: float() rejects a stored amount
    | DateOutOfRange        // date arithmetic below 0001-01-01 (OverflowError)
    | ReversedPeriod        // choose_period: end before start
    | UnknownPeriodChoice   // choose_period: choice outside 1..4

  datatype Result<+T> = Ok(value: T) | Err(error: Error)

  lemma AppendAssociative<T>(a: seq<T>, b: seq<T>, c: seq<T>)
    ensures a + (b + c) == (a + b) + c
  {
  }

  lemma AppendEmpty<T>(a: seq<T>)
    ensures a + [] == a && [] + a == a
  {
  }

  lemma SplitLast<T>(s: seq<T>)
    requires s != []
    ensures s == s[..|s| - 1] + [s[|s| - 1]]
  {
  }

  /** The first element of a + b, and what follows it, when a is not empty. */
  lemma FirstOfAppend<T>(a: seq<T>, b: seq<T>)
    requires a != []
    ensures (a + b)[0] == a[0]
    ensures (a + b)[1..] == a[1..] + b
  {
  }

  /** The parts of x prepended to a non-empty u. */
  lemma ConsParts<T>(x: T, u: seq<T>)
    requires u != []
    ensures ([x] + u)[0] == x
    ensures ([x] + u)[1..] == u
    ensures ([x] + u)[|[x] + u| - 1] == u[|u| - 1]
  {
  }

  lemma HeadTail<T>(s: seq<T>)
    requires s != []
    ensures [s[0]] + s[1..] == s
  {
  }

  /** A prefix one element longer. */
  lemma TakeOneMore<T>(s: seq<T>, i: nat)
    requires i < |s|
    ensures s[..i + 1] == s[..i] + [s[i]]
  {
  }

  /** The last element of a + b, and what precedes it, when b is not empty. */
  lemma LastOfAppend<T>(a: seq<T>, b: seq<T>)
    requires b != []
    ensures (a + b)[..|a + b| - 1] == a + b[..|b| - 1]
    ensures (a + b)[|a + b| - 1] == b[|b| - 1]
  {
  }
}
