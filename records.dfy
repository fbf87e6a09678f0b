/** The records that the two tables hold, and the in-memory account object
    that the request layer fetches, hands to the ledger engine and that the
    engine changes in place.  The files that define Account and Transaction
    in the application (account/account.py, transaction/transaction.py)
    are not part of this model; their shape is taken from the table schemas
    and from the way the stores read and write them. */
module Records {

  /** A UUID.  Only equality between ids matters, so any type with equality
      would do: ids are drawn by the caller and passed in explicitly. */
  type Id = nat

  /** One row of the `accounts` table, keyed by its id.  Balances are
      modelled by exact `real`; Decimal's 28-digit rounding and its NaN and
      infinities are not modelled. */
  datatype Row = Row(currency: string, balance: real)

  /** The status column of a transaction record. */
  datatype Status = Success | Failed

  /** One row of the `transactions` table. */
  datatype TxRecord = TxRecord(
    id: Id,
    source: Id,
    target: Id,
    brutto: real,
    netto: real,
    currency: string,
    status: Status)

  /** A lookup either finds its object or raises ObjectNotFound. */
  datatype Result<T> = Found(value: T) | ObjectNotFound

  /** The mutable account object.  Its id is absent until the store first
      saves it. Its currency never changes after construction. */
  class Account {
    var id: Option<Id>
    const currency: string
    var balance: real

    constructor (id: Option<Id>, currency: string, balance: real)
      ensures this.id == id && this.currency == currency && this.balance == balance
    {
      this.id := id;
      this.currency := currency;
      this.balance := balance;
    }
  }

  datatype Option<T> = None | Some(value: T)

  /** The account object is a faithful copy of a row of the table. */
  predicate Snapshot(rows: map<Id, Row>, a: Account)
    reads a
  {
    a.id.Some? && a.id.value in rows && rows[a.id.value] == Row(a.currency, a.balance)
  }
}
