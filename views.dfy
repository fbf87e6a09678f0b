/** The request layer in front of the engine (webapp/views.py): opening an
    account, the read-only account page, and the two POST actions, a
    transfer guarded by the source's balance and an unguarded deposit.
    Form parsing, HTML and HTTP plumbing are not modelled; each handler
    returns which response it produces. */
module Views {
  import opened Records
  import opened AccountTable
  import opened TransactionTable

  /** The outcome of a request: 201 with a redirect, the 400 for an id
      that already exists or a target that cannot be found, the
      insufficient-funds alert page, or the ObjectNotFound that escapes
      a handler uncaught. */
  datatype Response = Created | AlreadyExists | BadRequest | InsufficientFunds | NotFound

  /** What the account page shows. */
  datatype Page = Page(account: Row, accountsByCurrency: map<Id, Row>, transactions: seq<TxRecord>)

  /** The guard of the transfer action: the source exists and the amount
      does not exceed its balance.  The sign of the amount is not checked. */
  predicate TransferAllowed(rows: map<Id, Row>, id: Id, amount: real)
  {
    id in rows && amount <= rows[id].balance
  }

  /** `create_account`: a new account with the chosen currency and balance 0
      under the id `newId` (what uuid4() would draw), saved only when no
      account has that id yet.  The handler does not look at the
      transactions table; the ghost `log` only states that opening an
      account keeps the log's account of every balance, provided no record
      mentions the new id (which a freshly drawn UUID does not). */
  method CreateAccount(db: AccountStore, currency: string, newId: Id, ghost log: seq<TxRecord>)
    returns (response: Response)
    modifies db
    ensures newId in old(db.rows) ==> response == AlreadyExists && db.rows == old(db.rows)
    ensures newId !in old(db.rows) ==> response == Created && db.rows == old(db.rows)[newId := Row(currency, 0.0)]
    ensures Explained(old(db.rows), log) && (forall t :: t in log ==> !Involves(t, newId)) ==>
      Explained(db.rows, log)
  {
    var account := new Account(Some(newId), currency, 0.0);
    var existing := db.GetObject(account.id.value);
    if existing.Found? {
      return AlreadyExists;
    }
    ghost var rows0 := db.rows;
    if Explained(rows0, log) && (forall t :: t in log ==> !Involves(t, newId)) {
      CreateKeepsExplained(rows0, log, newId, currency);
    }
    db.Save(account, newId);
    response := Created;
  }

  /** The GET branch of `transactions`: the account, the other accounts of
      its currency (the possible transfer targets) and its records, most
      recent first; with the chart button, also the balance series `graph`
      draws.  It changes neither table. */
  method TransactionsGet(db: AccountStore, ledger: TransactionStore, id: Id, graphButton: bool)
    returns (page: Result<Page>, chart: Option<seq<real>>)
    ensures page == if id in db.rows
      then Found(Page(db.rows[id], GetObjectsByCurrency(db.rows, id, db.rows[id].currency),
                      GetObjectsByAccount(ledger.log, id)))
      else ObjectNotFound
    ensures chart == if id in db.rows && graphButton
      then Some(BalanceHistory(db.rows[id].balance, GetObjectsByAccount(ledger.log, id), Some(id)))
      else None
    ensures chart.Some? && Explained(db.rows, ledger.log) && WellFormed(ledger.log) ==>
      chart.value[0] == 0.0 && chart.value[|chart.value| - 1] == db.rows[id].balance
  {
    chart := None;
    var found := db.GetObject(id);
    if found.ObjectNotFound? {
      return ObjectNotFound, None;
    }
    var account := found.value;
    var accountsByCurrency := GetObjectsByCurrency(db.rows, account.id.value, account.currency);
    var transactions := GetObjectsByAccount(ledger.log, account.id.value);
    if graphButton {
      var yBalance := ledger.Graph(account, transactions);
      chart := Some(yBalance);
      if Explained(db.rows, ledger.log) && WellFormed(ledger.log) {
        GraphStartsAtZero(db.rows, ledger.log, id);
      }
    }
    page := Found(Page(Row(account.currency, account.balance), accountsByCurrency, transactions));
  }

  /** The transfer action of `transactions` POST: the engine runs only when
      the guard holds and the target exists; otherwise nothing changes. */
  method TransferRequest(db: AccountStore, ledger: TransactionStore, id: Id, balanceBrutto: real,
                         targetAccountId: Id, transactionId: Id) returns (response: Response)
    requires FreshTransactionId(ledger.log, transactionId)
    modifies db, ledger
    ensures id !in old(db.rows) ==> response == NotFound
    ensures id in old(db.rows) && !TransferAllowed(old(db.rows), id, balanceBrutto) ==> response == InsufficientFunds
    ensures TransferAllowed(old(db.rows), id, balanceBrutto) && targetAccountId !in old(db.rows) ==> response == BadRequest
    ensures response == Created <==> TransferAllowed(old(db.rows), id, balanceBrutto) && targetAccountId in old(db.rows)
    ensures response != Created ==> db.rows == old(db.rows) && ledger.log == old(ledger.log)
    ensures response == Created ==>
      && db.rows == Posting(old(db.rows), id, targetAccountId, balanceBrutto)
      && ledger.log == old(ledger.log) + [TxRecord(transactionId, id, targetAccountId, balanceBrutto,
                                                   balanceBrutto, old(db.rows)[id].currency, Success)]
    ensures Explained(old(db.rows), old(ledger.log)) ==> Explained(db.rows, ledger.log)
    ensures WellFormed(old(ledger.log)) ==> WellFormed(ledger.log)
  {
    var found := db.GetObject(id);
    if found.ObjectNotFound? {
      return NotFound;
    }
    var sourceAccount := found.value;
    if balanceBrutto <= sourceAccount.balance {
      var target := db.GetObject(targetAccountId);
      if target.ObjectNotFound? {
        return BadRequest;
      }
      var targetAccount := target.value;
      ghost var rows0, log0 := db.rows, ledger.log;
      ledger.Save(sourceAccount, targetAccount, balanceBrutto, db, transactionId);
      if Explained(rows0, log0) {
        EngineKeepsExplained(rows0, log0, ledger.log[|ledger.log| - 1]);
      }
      response := Created;
    } else {
      response := InsufficientFunds;
    }
  }

  /** The deposit action of `transactions` POST: the one account is passed
      to the engine as both source and target, with no check of the amount. */
  method DepositRequest(db: AccountStore, ledger: TransactionStore, id: Id, addAmount: real, transactionId: Id)
    returns (response: Response)
    requires FreshTransactionId(ledger.log, transactionId)
    modifies db, ledger
    ensures id !in old(db.rows) ==> response == NotFound && db.rows == old(db.rows) && ledger.log == old(ledger.log)
    ensures id in old(db.rows) ==>
      && response == Created
      && db.rows == Posting(old(db.rows), id, id, addAmount)
      && ledger.log == old(ledger.log) + [TxRecord(transactionId, id, id, addAmount, addAmount,
                                                   old(db.rows)[id].currency, Success)]
    ensures Explained(old(db.rows), old(ledger.log)) ==> Explained(db.rows, ledger.log)
    ensures WellFormed(old(ledger.log)) ==> WellFormed(ledger.log)
  {
    var found := db.GetObject(id);
    if found.ObjectNotFound? {
      return NotFound;
    }
    var addToAccount := found.value;
    ghost var rows0, log0 := db.rows, ledger.log;
    ledger.Save(addToAccount, addToAccount, addAmount, db, transactionId);
    if Explained(rows0, log0) {
      EngineKeepsExplained(rows0, log0, ledger.log[|ledger.log| - 1]);
    }
    response := Created;
  }

  /** A transfer the guard lets through between two different accounts
      cannot overdraw a source that was not overdrawn, whatever the sign
      of the amount. */
  lemma GuardKeepsSourceSolvent(rows: map<Id, Row>, id: Id, target: Id, amount: real)
    requires TransferAllowed(rows, id, amount) && target in rows && target != id
    requires rows[id].balance >= 0.0
    ensures Posting(rows, id, target, amount)[id].balance >= 0.0
  {
    TransferPosting(rows, id, target, amount);
  }

  /** The guard admits a negative amount, which then overdraws the target. */
  lemma NegativeTransferOverdrawsTarget()
    ensures var rows := map[1 := Row("USD", 10.0), 2 := Row("USD", 0.0)];
            TransferAllowed(rows, 1, -5.0) && Posting(rows, 1, 2, -5.0)[2].balance == -5.0
  {
  }

  /** A negative amount always passes the guard of a non-negative source,
      and the transfer then lowers the target's balance. */
  lemma NegativeTransferLowersTarget(rows: map<Id, Row>, id: Id, target: Id, amount: real)
    requires id in rows && target in rows && target != id
    requires rows[id].balance >= 0.0 && amount < 0.0
    ensures TransferAllowed(rows, id, amount)
    ensures Posting(rows, id, target, amount)[target].balance < rows[target].balance
  {
    TransferPosting(rows, id, target, amount);
  }

  /** A transfer to the account itself takes the deposit branch.  Every
      amount up to the balance passes the guard and is credited once, so a
      positive amount creates money, a negative one lowers the account, and
      one below minus the balance overdraws it. */
  lemma SelfTransferIsDeposit(rows: map<Id, Row>, id: Id, amount: real)
    requires id in rows && amount <= rows[id].balance
    ensures TransferAllowed(rows, id, amount)
    ensures Posting(rows, id, id, amount)[id].balance == rows[id].balance + amount
    ensures Total(Posting(rows, id, id, amount)) == Total(rows) + amount
    ensures amount > 0.0 ==> Total(Posting(rows, id, id, amount)) > Total(rows)
    ensures rows[id].balance >= 0.0 && amount < -rows[id].balance ==>
      Posting(rows, id, id, amount)[id].balance < 0.0
  {
    DepositPosting(rows, id, amount);
  }

  /** The guard does not compare currencies: a USD account can pay a EUR
      account, and the amount is credited in the target's currency. */
  lemma CrossCurrencyTransfer()
    ensures var rows := map[1 := Row("USD", 10.0), 2 := Row("EUR", 0.0)];
            && TransferAllowed(rows, 1, 5.0)
            && Posting(rows, 1, 2, 5.0) == map[1 := Row("USD", 5.0), 2 := Row("EUR", 5.0)]
  {
  }

  /** Opening an account keeps the log's account of every balance, provided
      no record already mentions the new id. */
  lemma CreateKeepsExplained(rows: map<Id, Row>, log: seq<TxRecord>, newId: Id, currency: string)
    requires Explained(rows, log) && newId !in rows
    requires forall t :: t in log ==> !Involves(t, newId)
    ensures Explained(rows[newId := Row(currency, 0.0)], log)
  {
    ReplayUninvolved(0.0, log, newId);
  }

  /** Two USD accounts opened at 0; a deposit of 100 into the first and a
      transfer of 30 to the second leave 70 and 30, and the guard lets the
      transfer through. */
  lemma RoundTripBalances()
    ensures var start := map[1 := Row("USD", 0.0), 2 := Row("USD", 0.0)];
            var deposited := Posting(start, 1, 1, 100.0);
            && TransferAllowed(deposited, 1, 30.0)
            && Posting(deposited, 1, 2, 30.0) == map[1 := Row("USD", 70.0), 2 := Row("USD", 30.0)]
  {
  }

  /** The same round trip through the handlers: two accounts opened on
      empty tables, a deposit of 100 into the first, a transfer of 30 to
      the second; every request succeeds, the balances end at 70 and 30 and
      the first account's chart is 0, 100, 70. */
  method RoundTripRequests() returns (balances: map<Id, Row>, chart: Option<seq<real>>)
    ensures balances == map[1 := Row("USD", 70.0), 2 := Row("USD", 30.0)]
    ensures chart == Some([0.0, 100.0, 70.0])
  {
    var db := new AccountStore();
    var ledger := new TransactionStore();
    var created1 := CreateAccount(db, "USD", 1, ledger.log);
    var created2 := CreateAccount(db, "USD", 2, ledger.log);
    assert db.rows == map[1 := Row("USD", 0.0), 2 := Row("USD", 0.0)];
    var deposited := DepositRequest(db, ledger, 1, 100.0, 10);
    ghost var deposit := ledger.log[0];
    assert db.rows == map[1 := Row("USD", 100.0), 2 := Row("USD", 0.0)];
    var transferred := TransferRequest(db, ledger, 1, 30.0, 2, 11);
    RoundTripBalances();
    assert db.rows == map[1 := Row("USD", 70.0), 2 := Row("USD", 30.0)];
    ghost var transfer := ledger.log[1];
    assert ledger.log == [deposit, transfer];
    RoundTripRecords(deposit, transfer);
    RoundTripChart(deposit, transfer);
    var page;
    page, chart := TransactionsGet(db, ledger, 1, true);
    balances := db.rows;
  }

  /** The first account's records in RoundTripBalances, most recent first. */
  lemma RoundTripRecords(deposit: TxRecord, transfer: TxRecord)
    requires deposit.source == 1 && deposit.target == 1
    requires transfer.source == 1 && transfer.target == 2
    ensures GetObjectsByAccount([deposit, transfer], 1) == [transfer, deposit]
  {
    assert GetObjectsByAccount([], 1) == [];
    assert [] + [deposit] == [deposit] && [deposit] + [transfer] == [deposit, transfer];
    MostRecentFirst([], deposit, 1);
    MostRecentFirst([deposit], transfer, 1);
  }

  /** The first account's chart in RoundTripBalances: 0, then 100, then 70. */
  lemma RoundTripChart(deposit: TxRecord, transfer: TxRecord)
    requires deposit.source == 1 && deposit.target == 1 && deposit.netto == 100.0
    requires transfer.source == 1 && transfer.target == 2 && transfer.brutto == 30.0
    ensures BalanceHistory(70.0, [transfer, deposit], Some(1)) == [0.0, 100.0, 70.0]
  {
    var walk := [70.0] + Steps(70.0, [transfer, deposit], Some(1));
    assert walk == [70.0, 100.0, 0.0] by {
      assert [transfer, deposit][1..] == [deposit] && [deposit][1..] == [];
      assert Steps(100.0, [deposit], Some(1)) == [0.0];
    }
    assert Reverse([70.0, 100.0, 0.0]) == [0.0, 100.0, 70.0];
  }

  /** Three USD accounts at 70, 30 and 70: both accounts at 70 are the maximum. */
  lemma MaxBalanceScenario()
    ensures FindMaxBalancePerCurrency(map[1 := Row("USD", 70.0), 2 := Row("USD", 30.0), 3 := Row("USD", 70.0)]).Keys == {1, 3}
  {
    var rows := map[1 := Row("USD", 70.0), 2 := Row("USD", 30.0), 3 := Row("USD", 70.0)];
    MaxBalanceTies(rows, 1);
    MaxBalanceTies(rows, 2);
    MaxBalanceTies(rows, 3);
  }
}
