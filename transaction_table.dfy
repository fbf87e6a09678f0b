/** The `transactions` table (class TransactionDatabasePostgres) and the
    ledger engine, its `_save`, which moves money between two accounts of
    the account table and appends one record to this table.  The module
    also gives the effect of one record on one account's balance, the
    replay of a log, and the balance history that `graph` draws by undoing
    the records one by one. */
module TransactionTable {
  import opened Records
  import opened AccountTable

  /** The record has `id` as its source or its target. */
  predicate Involves(t: TxRecord, id: Id)
  {
    t.source == id || t.target == id
  }

  /** No record of the log carries that id (what uuid4() is trusted to give). */
  predicate FreshTransactionId(log: seq<TxRecord>, id: Id)
  {
    forall t :: t in log ==> t.id != id
  }

  /** The shape of every record the engine writes: net equals gross, the
      status is Success, and ids are unique. */
  ghost predicate WellFormed(log: seq<TxRecord>)
  {
    && (forall t :: t in log ==> t.netto == t.brutto && t.status == Success)
    && (forall i, j :: 0 <= i < j < |log| ==> log[i].id != log[j].id)
  }

  /** The account table after one engine call: a transfer debits the source
      and credits the target; a deposit (the same id twice) credits once. */
  function Posting(rows: map<Id, Row>, source: Id, target: Id, amount: real): (r: map<Id, Row>)
    requires source in rows && target in rows
    ensures r.Keys == rows.Keys
    ensures forall id :: id in rows ==> r[id].currency == rows[id].currency
  {
    if source != target then
      rows[source := Row(rows[source].currency, rows[source].balance - amount)]
          [target := Row(rows[target].currency, rows[target].balance + amount)]
    else
      rows[target := Row(rows[target].currency, rows[target].balance + amount)]
  }

  class TransactionStore {
    var log: seq<TxRecord>

    /** The table starts out empty. */
    constructor ()
      ensures log == []
    {
      log := [];
    }

    /** `_save`, the ledger engine.  `transactionId` is the value uuid4()
        would draw.  The account objects must be what the table holds for
        their ids, as they are right after `get_object`.  Accounts are told
        apart by id.  Nothing checks the amount: any sign is applied. */
    method Save(source: Account, target: Account, balanceBrutto: real, db: AccountStore, transactionId: Id)
      requires Snapshot(db.rows, source) && Snapshot(db.rows, target)
      requires FreshTransactionId(log, transactionId)
      modifies source, target, db, this
      ensures source.id == old(source.id) && target.id == old(target.id)
      ensures db.rows == Posting(old(db.rows), source.id.value, target.id.value, balanceBrutto)
      ensures log == old(log) + [TxRecord(transactionId, source.id.value, target.id.value,
                                          balanceBrutto, balanceBrutto, source.currency, Success)]
      ensures Snapshot(db.rows, target)
      ensures source.id != target.id ==> Snapshot(db.rows, source)
      ensures source != target && source.id == target.id ==> source.balance == old(source.balance)
      ensures WellFormed(old(log)) ==> WellFormed(log)
    {
      var balanceNetto := balanceBrutto;
      var transactionCurrency := source.currency;
      var status := Failed;
      if source.id != target.id {
        // a transfer
        source.balance := source.balance - balanceBrutto;
        target.balance := target.balance + balanceNetto;
        db.Save(source, 0);  // the id is present, so no new id is drawn
      } else if source.id == target.id {
        // a deposit
        target.balance := target.balance + balanceBrutto;
      }
      db.Save(target, 0);
      status := Success;
      log := log + [TxRecord(transactionId, source.id.value, target.id.value,
                             balanceBrutto, balanceNetto, transactionCurrency, status)];
    }

    /** `clear_all`: empties the table. */
    method ClearAll()
      modifies this
      ensures log == []
    {
      log := [];
    }

    /** `delete`: removes the records with that id and keeps the others. */
    method Delete(id: Id)
      modifies this
      ensures log == WithoutId(old(log), id)
    {
      log := WithoutId(log, id);
    }

    /** The arithmetic of `graph`: starting from the account's current balance,
        walk the records most recent first, undo each one that involves the
        account, collect the balances, and reverse them into time order. */
    method Graph(account: Account, transactions: seq<TxRecord>) returns (yBalance: seq<real>)
      ensures yBalance == BalanceHistory(account.balance, transactions, account.id)
    {
      var balance := account.balance;
      yBalance := [balance];
      for i := 0 to |transactions|
        invariant yBalance + Steps(balance, transactions[i..], account.id)
               == [account.balance] + Steps(account.balance, transactions, account.id)
      {
        var transaction := transactions[i];
        assert transactions[i..] == [transaction] + transactions[i + 1..];
        if Some(transaction.source) == account.id && Some(transaction.target) == account.id {
          balance := balance - transaction.netto;
          yBalance := yBalance + [balance];
        } else if Some(transaction.source) == account.id {
          balance := balance + transaction.brutto;
          yBalance := yBalance + [balance];
        } else if Some(transaction.target) == account.id {
          balance := balance - transaction.netto;
          yBalance := yBalance + [balance];
        }
      }
      yBalance := Reverse(yBalance);
    }
  }

  /** The log with every record of that id removed. */
  function WithoutId(log: seq<TxRecord>, id: Id): (r: seq<TxRecord>)
    ensures forall t :: t in r <==> t in log && t.id != id
    ensures FreshTransactionId(log, id) ==> r == log
    decreases |log|
  {
    if log == [] then []
    else if log[0].id == id then WithoutId(log[1..], id)
    else [log[0]] + WithoutId(log[1..], id)
  }

  /** `get_object`: the record with that id, or ObjectNotFound. */
  function GetTransaction(log: seq<TxRecord>, id: Id): (r: Result<TxRecord>)
    ensures r.Found? ==> r.value in log && r.value.id == id
    ensures r.ObjectNotFound? <==> FreshTransactionId(log, id)
    decreases |log|
  {
    if log == [] then ObjectNotFound
    else if log[0].id == id then Found(log[0])
    else GetTransaction(log[1..], id)
  }

  /** The records involving `id`, in insertion order: the `WHERE` of
      `get_objects_by_account`. */
  function Matching(log: seq<TxRecord>, id: Id): (r: seq<TxRecord>)
    ensures forall t :: t in r <==> t in log && Involves(t, id)
    ensures |r| <= |log|
    decreases |log|
  {
    if log == [] then []
    else
      var last := log[|log| - 1];
      Matching(log[..|log| - 1], id) + (if Involves(last, id) then [last] else [])
  }

  /** A sequence backwards. */
  function Reverse<T>(s: seq<T>): (r: seq<T>)
    ensures |r| == |s|
    ensures forall i :: 0 <= i < |s| ==> r[i] == s[|s| - 1 - i]
    ensures multiset(r) == multiset(s)
    decreases |s|
  {
    if s == [] then []
    else
      assert s == s[..|s| - 1] + [s[|s| - 1]];
      [s[|s| - 1]] + Reverse(s[..|s| - 1])
  }

  /** `get_objects_by_account`: the records with `id` as source or target,
      most recent first. */
  function GetObjectsByAccount(log: seq<TxRecord>, id: Id): (r: seq<TxRecord>)
    ensures forall t :: t in r <==> t in log && Involves(t, id)
  {
    var r := Reverse(Matching(log, id));
    assert forall t :: t in r <==> t in multiset(Matching(log, id));
    r
  }

  /** Appending a record puts it in front of the account's list when it
      involves the account, and leaves the list alone otherwise. */
  lemma MostRecentFirst(log: seq<TxRecord>, t: TxRecord, id: Id)
    ensures GetObjectsByAccount(log + [t], id)
         == if Involves(t, id) then [t] + GetObjectsByAccount(log, id) else GetObjectsByAccount(log, id)
  {
    assert (log + [t])[..|log|] == log;
  }

  // ----- the effect of a record on a balance, and its undoing -----

  /** How one record changed the balance of account `id`. */
  function Effect(t: TxRecord, id: Id, balance: real): (after: real)
  {
    if t.source == id && t.target == id then balance + t.brutto
    else if t.source == id then balance - t.brutto
    else if t.target == id then balance + t.netto
    else balance
  }

  /** The balance of `id` after the records of `log`, from an opening balance. */
  function Replay(opening: real, log: seq<TxRecord>, id: Id): (balance: real)
    decreases |log|
  {
    if log == [] then opening
    else Effect(log[|log| - 1], id, Replay(opening, log[..|log| - 1], id))
  }

  /** Every balance of the table is what the log says it should be, for
      accounts opened with balance 0. */
  ghost predicate Explained(rows: map<Id, Row>, log: seq<TxRecord>)
  {
    forall id :: id in rows ==> rows[id].balance == Replay(0.0, log, id)
  }

  /** One step of `graph`'s walk: the balance before a record of the account. */
  function Undo(t: TxRecord, id: Option<Id>, balance: real): (before: real)
    ensures id.Some? && t.netto == t.brutto ==> Effect(t, id.value, before) == balance
  {
    if Some(t.source) == id && Some(t.target) == id then balance - t.netto
    else if Some(t.source) == id then balance + t.brutto
    else if Some(t.target) == id then balance - t.netto
    else balance
  }

  /** The balances `graph` appends while walking the records. */
  function Steps(balance: real, transactions: seq<TxRecord>, id: Option<Id>): (walk: seq<real>)
    decreases |transactions|
  {
    if transactions == [] then []
    else
      var t := transactions[0];
      if Some(t.source) == id || Some(t.target) == id then
        var before := Undo(t, id, balance);
        [before] + Steps(before, transactions[1..], id)
      else
        Steps(balance, transactions[1..], id)
  }

  /** The balance series `graph` plots, oldest first. */
  function BalanceHistory(balance: real, transactions: seq<TxRecord>, id: Option<Id>): (history: seq<real>)
  {
    Reverse([balance] + Steps(balance, transactions, id))
  }

  // ----- what the engine does to the account table -----

  /** A transfer moves the amount from source to target, touches no other
      account and keeps the sum of all balances. */
  lemma TransferPosting(rows: map<Id, Row>, source: Id, target: Id, amount: real)
    requires source in rows && target in rows && source != target
    ensures Posting(rows, source, target, amount)[source].balance == rows[source].balance - amount
    ensures Posting(rows, source, target, amount)[target].balance == rows[target].balance + amount
    ensures forall id :: id in rows && id != source && id != target ==>
      Posting(rows, source, target, amount)[id] == rows[id]
    ensures Total(Posting(rows, source, target, amount)) == Total(rows)
  {
    var debited := rows[source := Row(rows[source].currency, rows[source].balance - amount)];
    TotalUpdate(rows, source, debited[source]);
    TotalUpdate(debited, target, Row(rows[target].currency, rows[target].balance + amount));
  }

  /** A deposit credits its account exactly once, touches no other account,
      and raises the sum of all balances by the amount. */
  lemma DepositPosting(rows: map<Id, Row>, account: Id, amount: real)
    requires account in rows
    ensures Posting(rows, account, account, amount)[account].balance == rows[account].balance + amount
    ensures forall id :: id in rows && id != account ==> Posting(rows, account, account, amount)[id] == rows[id]
    ensures Total(Posting(rows, account, account, amount)) == Total(rows) + amount
  {
    TotalUpdate(rows, account, Row(rows[account].currency, rows[account].balance + amount));
  }

  /** The engine changes each account by the effect of the record it writes. */
  lemma PostingIsEffect(rows: map<Id, Row>, t: TxRecord)
    requires t.source in rows && t.target in rows && t.netto == t.brutto
    ensures forall id :: id in rows ==>
      Posting(rows, t.source, t.target, t.brutto)[id] == Row(rows[id].currency, Effect(t, id, rows[id].balance))
  {
  }

  /** One engine call keeps every balance explained by the log. */
  lemma EngineKeepsExplained(rows: map<Id, Row>, log: seq<TxRecord>, t: TxRecord)
    requires Explained(rows, log)
    requires t.source in rows && t.target in rows && t.netto == t.brutto
    ensures Explained(Posting(rows, t.source, t.target, t.brutto), log + [t])
  {
    assert (log + [t])[..|log|] == log;
    PostingIsEffect(rows, t);
  }

  /** Deleting records does not touch the accounts table, so it does not keep
      the invariant: a deposit of 5 explains a balance of 5, and deleting that
      record, or clearing the log, leaves the balance unexplained. */
  lemma TransactionDeletesBreakExplained()
    ensures var t := TxRecord(7, 1, 1, 5.0, 5.0, "USD", Success);
            var rows := map[1 := Row("USD", 5.0)];
            && Explained(rows, [t])
            && !Explained(rows, WithoutId([t], 7))
            && !Explained(rows, [])
  {
    var t := TxRecord(7, 1, 1, 5.0, 5.0, "USD", Success);
    assert [t][..0] == [];
    assert Replay(0.0, [t], 1) == 5.0;
    assert WithoutId([t], 7) == [];
  }

  /** Records that do not involve an account leave its balance alone. */
  lemma {:induction false} ReplayUninvolved(opening: real, log: seq<TxRecord>, id: Id)
    requires forall t :: t in log ==> !Involves(t, id)
    ensures Replay(opening, log, id) == opening
    decreases |log|
  {
    if log != [] {
      assert log[|log| - 1] in log;
      ReplayUninvolved(opening, log[..|log| - 1], id);
    }
  }

  /** Only the records involving an account matter for its balance. */
  lemma {:induction false} ReplayMatching(opening: real, log: seq<TxRecord>, id: Id)
    ensures Replay(opening, log, id) == Replay(opening, Matching(log, id), id)
    decreases |log|
  {
    if log != [] {
      var pre := log[..|log| - 1];
      var last := log[|log| - 1];
      ReplayMatching(opening, pre, id);
      if Involves(last, id) {
        var m := Matching(pre, id) + [last];
        assert m[..|m| - 1] == Matching(pre, id);
      } else {
        assert Matching(pre, id) + [] == Matching(pre, id);
        assert Matching(log, id) == Matching(pre, id);
      }
    }
  }

  // ----- what `graph` computes -----

  /** Undoing a record's effect gives back the balance before it. */
  lemma UndoEffect(t: TxRecord, id: Id, balance: real)
    requires t.netto == t.brutto
    ensures Undo(t, Some(id), Effect(t, id, balance)) == balance
  {
  }

  /** When every record involves the account, the walk steps once per record. */
  lemma {:induction false} StepsLength(balance: real, transactions: seq<TxRecord>, id: Id)
    requires forall t :: t in transactions ==> Involves(t, id)
    ensures |Steps(balance, transactions, Some(id))| == |transactions|
    decreases |transactions|
  {
    if transactions != [] {
      assert transactions[0] in transactions;
      StepsLength(Undo(transactions[0], Some(id), balance), transactions[1..], id);
    }
  }

  /** One step of the walk over a record put in front of others. */
  lemma StepsFront(balance: real, t: TxRecord, rest: seq<TxRecord>, id: Id)
    ensures Steps(balance, [t] + rest, Some(id))
         == if Involves(t, id) then [Undo(t, Some(id), balance)] + Steps(Undo(t, Some(id), balance), rest, Some(id))
            else Steps(balance, rest, Some(id))
  {
    assert ([t] + rest)[0] == t && ([t] + rest)[1..] == rest;
  }

  /** Walking a log's records newest first from the balance they produced
      ends at the balance they started from. */
  lemma {:induction false} StepsUndoReplay(opening: real, s: seq<TxRecord>, id: Id)
    requires forall t :: t in s ==> t.netto == t.brutto
    ensures var walk := [Replay(opening, s, id)] + Steps(Replay(opening, s, id), Reverse(s), Some(id));
            walk[|walk| - 1] == opening
    decreases |s|
  {
    if s != [] {
      var pre := s[..|s| - 1];
      var last := s[|s| - 1];
      assert last in s;
      assert forall t :: t in pre ==> t in s;
      StepsUndoReplay(opening, pre, id);
      var before := Replay(opening, pre, id);
      var after := Replay(opening, s, id);
      var rest := Steps(before, Reverse(pre), Some(id));
      assert ([before] + rest)[|rest|] == opening;
      assert Reverse(s) == [last] + Reverse(pre);
      StepsFront(after, last, Reverse(pre), id);
      UndoEffect(last, id, before);
    }
  }


  /** The chart of an account's records has one point more than it has
      records, ends at the current balance and starts at the balance the
      account had before any of them. */
  lemma GraphOfAccount(opening: real, log: seq<TxRecord>, id: Id)
    requires forall t :: t in log ==> t.netto == t.brutto
    ensures var current := Replay(opening, log, id);
            var h := BalanceHistory(current, GetObjectsByAccount(log, id), Some(id));
            && |h| == |GetObjectsByAccount(log, id)| + 1
            && h[|h| - 1] == current
            && h[0] == opening
  {
    var current := Replay(opening, log, id);
    var m := Matching(log, id);
    var txs := GetObjectsByAccount(log, id);
    assert txs == Reverse(m);
    ReplayMatching(opening, log, id);
    assert Replay(opening, m, id) == current;
    assert forall t :: t in m ==> t.netto == t.brutto;
    StepsUndoReplay(opening, m, id);
    StepsLength(current, txs, id);
    var walk := [current] + Steps(current, txs, Some(id));
    assert |walk| == |txs| + 1;
    var h := Reverse(walk);
    assert h == BalanceHistory(current, txs, Some(id));
    assert h[|h| - 1] == walk[0] == current;
    assert h[0] == walk[|walk| - 1] == opening;
  }

  /** For a table whose balances the log explains, the chart of any account
      starts at 0 and ends at its balance. */
  lemma GraphStartsAtZero(rows: map<Id, Row>, log: seq<TxRecord>, id: Id)
    requires Explained(rows, log) && WellFormed(log) && id in rows
    ensures var h := BalanceHistory(rows[id].balance, GetObjectsByAccount(log, id), Some(id));
            h[0] == 0.0 && h[|h| - 1] == rows[id].balance
  {
    GraphOfAccount(0.0, log, id);
  }
}
