/** The `accounts` table (class AccountDatabasePostgres): an upsert, a
    lookup that fails on an absent id, a delete, and the two queries the
    request layer uses.  The table itself is a map from id to row. */
module AccountTable {
  import opened Records

  class AccountStore {
    var rows: map<Id, Row>

    /** The table starts out empty. */
    constructor ()
      ensures rows == map[]
    {
      rows := map[];
    }

    /** `_save`: an account without an id first receives `newId` (the value
        uuid4() would draw); then the row is updated, and inserted only when
        the update matched no row. */
    method Save(account: Account, newId: Id)
      requires account.id.None? ==> newId !in rows
      modifies this, account`id
      ensures account.id == if old(account.id).Some? then old(account.id) else Some(newId)
      ensures rows == old(rows)[account.id.value := Row(account.currency, account.balance)]
      ensures |rows| == if account.id.value in old(rows) then |old(rows)| else |old(rows)| + 1
    {
      if account.id.None? {
        account.id := Some(newId);
      }
      var id := account.id.value;
      var row := Row(account.currency, account.balance);
      var rowsCount := Update(id, row);
      if rowsCount == 0 {
        Insert(id, row);
      }
    }

    /** `UPDATE accounts SET ... WHERE id = ...`, returning the row count. */
    method Update(id: Id, row: Row) returns (rowsCount: nat)
      modifies this
      ensures rowsCount == if id in old(rows) then 1 else 0
      ensures rows == if id in old(rows) then old(rows)[id := row] else old(rows)
    {
      if id in rows {
        rows := rows[id := row];
        rowsCount := 1;
      } else {
        rowsCount := 0;
      }
    }

    /** `INSERT INTO accounts ...`; the id is the primary key, so it must be new. */
    method Insert(id: Id, row: Row)
      requires id !in rows
      modifies this
      ensures rows == old(rows)[id := row]
      ensures |rows| == |old(rows)| + 1
    {
      rows := rows[id := row];
    }

    /** `get_object`: a fresh account object holding the row, or ObjectNotFound. */
    method GetObject(id: Id) returns (r: Result<Account>)
      ensures r.Found? <==> id in rows
      ensures r.Found? ==> fresh(r.value) && Snapshot(rows, r.value) && r.value.id == Some(id)
    {
      if id !in rows {
        return ObjectNotFound;
      }
      var account := new Account(Some(id), rows[id].currency, rows[id].balance);
      r := Found(account);
    }

    /** `clear_all`: empties the table. */
    method ClearAll()
      modifies this
      ensures rows == map[]
    {
      rows := map[];
    }

    /** `delete`: removes the row with that id, if any, and nothing else. */
    method Delete(id: Id)
      modifies this
      ensures rows == old(rows) - {id}
      ensures forall j :: j in old(rows) && j != id ==> j in rows && rows[j] == old(rows)[j]
    {
      rows := rows - {id};
    }
  }

  /** `get_objects_by_currency`: the accounts of that currency other than `id`.
      SQL returns them in no defined order, so the result is a sub-table. */
  function GetObjectsByCurrency(rows: map<Id, Row>, id: Id, currency: string): (r: map<Id, Row>)
    ensures r.Keys <= rows.Keys && id !in r
    ensures forall j :: j in r ==> r[j] == rows[j] && r[j].currency == currency
    ensures forall j :: j in rows && j != id && rows[j].currency == currency ==> j in r
  {
    map j | j in rows && j != id && rows[j].currency == currency :: rows[j]
  }

  /** Some account of the table has that currency. */
  ghost predicate HasCurrency(rows: map<Id, Row>, currency: string)
  {
    exists j :: j in rows && rows[j].currency == currency
  }

  /** An account holding the largest balance of one currency; its balance
      is what `MAX(balance) ... GROUP BY currency` computes for that currency. */
  ghost function RichestOf(rows: map<Id, Row>, currency: string): (k: Id)
    requires HasCurrency(rows, currency)
    ensures k in rows && rows[k].currency == currency
    ensures forall j :: j in rows && rows[j].currency == currency ==> rows[j].balance <= rows[k].balance
    decreases |rows|
  {
    var k :| k in rows;
    var rest := rows - {k};
    assert forall j :: j in rows && j != k ==> j in rest && rest[j] == rows[j];
    if rows[k].currency != currency then
      RichestOf(rest, currency)
    else if !HasCurrency(rest, currency) then
      k
    else
      var w := RichestOf(rest, currency);
      if rows[k].balance > rows[w].balance then k else w
  }

  /** The per-currency maximum of the SQL query's first stage. */
  ghost function MaxBalance(rows: map<Id, Row>, currency: string): (m: real)
    requires HasCurrency(rows, currency)
    ensures exists j :: j in rows && rows[j].currency == currency && rows[j].balance == m
    ensures forall j :: j in rows && rows[j].currency == currency ==> rows[j].balance <= m
  {
    rows[RichestOf(rows, currency)].balance
  }

  /** `find_max_balance_per_currency`: the join of the table with the
      per-currency maxima of MaxBalance.  The result is a sub-table. */
  ghost function FindMaxBalancePerCurrency(rows: map<Id, Row>): (r: map<Id, Row>)
    ensures r.Keys <= rows.Keys
    ensures forall j :: j in r ==> r[j] == rows[j]
  {
    map j | j in rows && HasCurrency(rows, rows[j].currency)
            && rows[j].balance == MaxBalance(rows, rows[j].currency) :: rows[j]
  }

  /** An account is returned exactly when no account of its currency holds
      more: every account tied at the maximum is returned. */
  lemma MaxBalanceTies(rows: map<Id, Row>, j: Id)
    requires j in rows
    ensures j in FindMaxBalancePerCurrency(rows) <==>
      forall i :: i in rows && rows[i].currency == rows[j].currency ==> rows[i].balance <= rows[j].balance
  {
    var c := rows[j].currency;
    assert HasCurrency(rows, c);
    var w := RichestOf(rows, c);
  }

  /** Every currency that has an account contributes at least one account. */
  lemma MaxBalanceEveryCurrency(rows: map<Id, Row>, j: Id)
    requires j in rows
    ensures exists i :: i in FindMaxBalancePerCurrency(rows) && rows[i].currency == rows[j].currency
  {
    var c := rows[j].currency;
    assert HasCurrency(rows, c);
    var w := RichestOf(rows, c);
    assert w in FindMaxBalancePerCurrency(rows);
  }

  /** The sum of all balances in the table, whatever their currency. */
  ghost function Total(rows: map<Id, Row>): (sum: real)
    decreases |rows|
  {
    if rows == map[] then 0.0
    else
      var k :| k in rows;
      rows[k].balance + Total(rows - {k})
  }

  /** Any row can be taken out of the total first. */
  lemma {:induction false} TotalRemove(rows: map<Id, Row>, k: Id)
    requires k in rows
    ensures Total(rows) == rows[k].balance + Total(rows - {k})
    decreases |rows|
  {
    var j :| j in rows && Total(rows) == rows[j].balance + Total(rows - {j});
    if j != k {
      var rest := rows - {j};
      assert k in rest;
      TotalRemove(rest, k);
      TotalRemove(rows - {k}, j);
      assert rest - {k} == (rows - {k}) - {j};
    }
  }

  /** Replacing one row changes the total by the difference of the two balances. */
  lemma TotalUpdate(rows: map<Id, Row>, k: Id, row: Row)
    requires k in rows
    ensures Total(rows[k := row]) == Total(rows) - rows[k].balance + row.balance
  {
    TotalRemove(rows, k);
    TotalRemove(rows[k := row], k);
    assert rows[k := row] - {k} == rows - {k};
  }
}
