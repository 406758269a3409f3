/**
 * The ledger's rules stated over the two tables as values: the read-only
 * queries (`authenticate`, `get_balance`, `get_transaction_history`), the
 * replay of an account's transactions, and the invariant that ties every
 * balance to its transaction records. The backend class keeps the tables in
 * its fields and uses these definitions in its contracts.
 */
module Ledger {
  import opened Records

  // ---------------------------------------------------------------------------
  // Read-only queries
  // ---------------------------------------------------------------------------

  /**
   * `authenticate`: the stored digest of the account is compared with the
   * digest of the given PIN; an unknown account is refused like a wrong PIN.
   */
  function Authenticate(customer: map<int, Customer>, account: int, pin: string): (ok: bool)
    ensures account !in customer ==> !ok
  {
    account in customer && customer[account].pinHash == Hash(pin)
  }

  /**
   * Only the PIN whose digest is stored opens the account: with the digest of
   * `pin` on file, a PIN authenticates exactly when it is `pin`.
   */
  lemma AuthenticateExactPin(customer: map<int, Customer>, account: int, pin: string, q: string)
    requires account in customer && customer[account].pinHash == Hash(pin)
    ensures Authenticate(customer, account, q) <==> q == pin
  {
    HashInjective(q, pin);
  }

  /** Changing a balance does not change who can authenticate. */
  lemma BalanceUpdateKeepsCredentials(customer: map<int, Customer>, account: int, balance: int, other: int, q: string)
    requires account in customer
    ensures Authenticate(customer[account := customer[account].(balance := balance)], other, q)
        == Authenticate(customer, other, q)
  {
  }

  /** `get_balance`: the stored balance, or None for an unknown account. */
  function GetBalance(customer: map<int, Customer>, account: int): (r: Option<int>)
    ensures r.None? <==> account !in customer
  {
    if account in customer then Some(customer[account].balance) else None
  }

  /** The records of `account`, in the order they were written. */
  function OfAccount(log: seq<Transaction>, account: int): (rows: seq<Transaction>)
    ensures |rows| <= |log|
    ensures forall k :: 0 <= k < |rows| ==> rows[k].account == account
  {
    if log == [] then []
    else
      var rest := OfAccount(log[..|log| - 1], account);
      if log[|log| - 1].account == account then rest + [log[|log| - 1]] else rest
  }

  /** The sequence in the opposite order. */
  function Reverse(s: seq<Transaction>): (r: seq<Transaction>)
    ensures |r| == |s|
    ensures forall k :: 0 <= k < |s| ==> r[k] == s[|s| - 1 - k]
  {
    if s == [] then [] else [s[|s| - 1]] + Reverse(s[..|s| - 1])
  }

  /**
   * `get_transaction_history`: the records of `account` ordered newest first,
   * cut to `limit` rows. As in SQLite, a negative LIMIT means no limit.
   * Records are written with increasing ticks, so newest first is the reverse
   * of the write order (see HistoryNewestFirst).
   */
  function TransactionHistory(log: seq<Transaction>, account: int, limit: int := 10): (page: seq<Transaction>)
    ensures var rows := OfAccount(log, account);
      && |page| == (if 0 <= limit < |rows| then limit else |rows|)
      && forall k :: 0 <= k < |page| ==> page[k] == rows[|rows| - 1 - k]
  {
    var newest := Reverse(OfAccount(log, account));
    if 0 <= limit < |newest| then newest[..limit] else newest
  }

  // ---------------------------------------------------------------------------
  // Replaying the log
  // ---------------------------------------------------------------------------

  /** The effect of one record on a balance. */
  function Apply(balance: int, t: Transaction): int
  {
    match t.direction
    case Credit => balance + t.amount
    case Debit => balance - t.amount
  }

  /** The balance reached by applying `rows`, in write order, to an opening balance of 0. */
  function Replay(rows: seq<Transaction>): int
  {
    if rows == [] then 0 else Apply(Replay(rows[..|rows| - 1]), rows[|rows| - 1])
  }

  /** Sum of the amounts of the Credit records. */
  function Credits(rows: seq<Transaction>): int
  {
    if rows == [] then 0
    else (if rows[0].direction == Credit then rows[0].amount else 0) + Credits(rows[1..])
  }

  /** Sum of the amounts of the Debit records. */
  function Debits(rows: seq<Transaction>): int
  {
    if rows == [] then 0
    else (if rows[0].direction == Debit then rows[0].amount else 0) + Debits(rows[1..])
  }

  lemma {:induction false} CreditsDebitsAppend(rows: seq<Transaction>, t: Transaction)
    ensures Credits(rows + [t]) == Credits(rows) + (if t.direction == Credit then t.amount else 0)
    ensures Debits(rows + [t]) == Debits(rows) + (if t.direction == Debit then t.amount else 0)
  {
    if rows != [] {
      assert (rows + [t])[1..] == rows[1..] + [t];
      CreditsDebitsAppend(rows[1..], t);
    }
  }

  /** Conservation: replaying from 0 gives total credits minus total debits. */
  lemma {:induction false} ReplayIsNet(rows: seq<Transaction>)
    ensures Replay(rows) == Credits(rows) - Debits(rows)
  {
    if rows != [] {
      var init := rows[..|rows| - 1];
      ReplayIsNet(init);
      CreditsDebitsAppend(init, rows[|rows| - 1]);
      assert init + [rows[|rows| - 1]] == rows;
    }
  }

  // ---------------------------------------------------------------------------
  // The ledger invariant
  // ---------------------------------------------------------------------------

  /** No two accounts share a mobile number or an email (the UNIQUE columns). */
  ghost predicate UniqueContacts(customer: map<int, Customer>)
  {
    forall a, b :: a in customer && b in customer && a != b ==>
      customer[a].mobile != customer[b].mobile && customer[a].email != customer[b].email
  }

  function MobileTaken(customer: map<int, Customer>, mobile: string): bool
  {
    exists a :: a in customer && customer[a].mobile == mobile
  }

  function EmailTaken(customer: map<int, Customer>, email: string): bool
  {
    exists a :: a in customer && customer[a].email == email
  }

  /** The `balance_after` of record `i` is the balance its account had right after it. */
  ghost predicate SnapshotAt(log: seq<Transaction>, i: int)
    requires 0 <= i < |log|
  {
    log[i].balanceAfter == Replay(OfAccount(log[..i + 1], log[i].account))
  }

  ghost predicate Snapshots(log: seq<Transaction>)
  {
    forall i :: 0 <= i < |log| ==> SnapshotAt(log, i)
  }

  /** Record `i` belongs to an existing account and moves a positive amount. */
  ghost predicate RecordOk(customer: map<int, Customer>, log: seq<Transaction>, i: int)
    requires 0 <= i < |log|
  {
    log[i].account in customer && log[i].amount > 0
  }

  /** The balance of `account` is the replay of its records and is non-negative. */
  ghost predicate BalanceReplays(customer: map<int, Customer>, log: seq<Transaction>, account: int)
    requires account in customer
  {
    customer[account].balance == Replay(OfAccount(log, account)) && customer[account].balance >= 0
  }

  /**
   * The invariant that the paired UPDATE and INSERT of every deposit and
   * withdrawal maintain: every record belongs to an existing account and has
   * a positive amount, every record's snapshot is the running balance, and
   * every account's balance is the replay of its records and is non-negative.
   */
  ghost predicate Consistent(customer: map<int, Customer>, log: seq<Transaction>)
  {
    && UniqueContacts(customer)
    && (forall i {:trigger RecordOk(customer, log, i)} :: 0 <= i < |log| ==> RecordOk(customer, log, i))
    && Snapshots(log)
    && (forall a {:trigger BalanceReplays(customer, log, a)} :: a in customer ==> BalanceReplays(customer, log, a))
  }

  /** Record ids and ticks strictly increase in write order. */
  ghost predicate Chronological(log: seq<Transaction>)
  {
    forall i, j :: 0 <= i < j < |log| ==> log[i].id < log[j].id && log[i].tick < log[j].tick
  }

  /** A record newer than every record of the log can be appended in order. */
  lemma ChronologicalAppend(log: seq<Transaction>, t: Transaction)
    requires Chronological(log)
    requires forall i :: 0 <= i < |log| ==> log[i].id < t.id && log[i].tick < t.tick
    ensures Chronological(log + [t])
  {
  }

  // ---------------------------------------------------------------------------
  // Lemmas about the filter and the history
  // ---------------------------------------------------------------------------

  lemma OfAccountAppend(log: seq<Transaction>, t: Transaction, account: int)
    ensures OfAccount(log + [t], account) ==
            if t.account == account then OfAccount(log, account) + [t] else OfAccount(log, account)
  {
    assert (log + [t])[..|log|] == log;
  }

  /** The filter keeps exactly the records of the account: each kept row is a record of the log, and each record of the account is kept. */
  lemma {:induction false} OfAccountExact(log: seq<Transaction>, account: int)
    ensures forall k :: 0 <= k < |OfAccount(log, account)| ==> OfAccount(log, account)[k] in log
    ensures forall i :: 0 <= i < |log| && log[i].account == account ==> log[i] in OfAccount(log, account)
  {
    if log != [] {
      var init := log[..|log| - 1];
      OfAccountExact(init, account);
      assert init + [log[|log| - 1]] == log;
      OfAccountAppend(init, log[|log| - 1], account);
      forall i | 0 <= i < |log| - 1
        ensures log[i] == init[i]
      {
      }
    }
  }

  lemma {:induction false} OfAccountNone(log: seq<Transaction>, account: int)
    requires forall i :: 0 <= i < |log| ==> log[i].account != account
    ensures OfAccount(log, account) == []
  {
    if log != [] {
      OfAccountNone(log[..|log| - 1], account);
    }
  }

  /** The records of one account keep the write order's increasing ids and ticks. */
  lemma {:induction false} OfAccountChronological(log: seq<Transaction>, account: int)
    requires Chronological(log)
    ensures Chronological(OfAccount(log, account))
  {
    if log != [] {
      var init := log[..|log| - 1];
      var last := log[|log| - 1];
      OfAccountChronological(init, account);
      OfAccountExact(init, account);
      var rest := OfAccount(init, account);
      forall k | 0 <= k < |rest|
        ensures rest[k].id < last.id && rest[k].tick < last.tick
      {
        var i :| 0 <= i < |init| && init[i] == rest[k];
      }
    }
  }

  /** The history page is ordered newest first: ids and ticks strictly decrease. */
  lemma HistoryNewestFirst(log: seq<Transaction>, account: int, limit: int)
    requires Chronological(log)
    ensures var page := TransactionHistory(log, account, limit);
      forall k, k' :: 0 <= k < k' < |page| ==> page[k].tick > page[k'].tick && page[k].id > page[k'].id
  {
    OfAccountChronological(log, account);
  }

  /** Every row of the history page belongs to the account and is a record of the log. */
  lemma HistoryRowsBelong(log: seq<Transaction>, account: int, limit: int)
    ensures var page := TransactionHistory(log, account, limit);
      forall k :: 0 <= k < |page| ==> page[k].account == account && page[k] in log
  {
    var rows := OfAccount(log, account);
    var page := TransactionHistory(log, account, limit);
    OfAccountExact(log, account);
    forall k | 0 <= k < |page|
      ensures page[k].account == account && page[k] in log
    {
      assert page[k] == rows[|rows| - 1 - k];
    }
  }

  // ---------------------------------------------------------------------------
  // The balance agrees with the log
  // ---------------------------------------------------------------------------

  lemma {:induction false} LastSnapshot(log: seq<Transaction>, account: int)
    requires Snapshots(log)
    requires OfAccount(log, account) != []
    ensures var rows := OfAccount(log, account);
      rows[|rows| - 1].balanceAfter == Replay(rows)
  {
    var init := log[..|log| - 1];
    var last := log[|log| - 1];
    assert init + [last] == log;
    OfAccountAppend(init, last, account);
    if last.account != account {
      assert Snapshots(init) by {
        forall i | 0 <= i < |init|
          ensures SnapshotAt(init, i)
        {
          assert SnapshotAt(log, i);
          assert init[..i + 1] == log[..i + 1];
        }
      }
      LastSnapshot(init, account);
    } else {
      assert SnapshotAt(log, |log| - 1);
      assert log[..|log| - 1 + 1] == log;
    }
  }

  /**
   * Under the invariant, an account's balance equals its credits minus its
   * debits, is non-negative, and, when it has records, equals the
   * `balance_after` of the newest one, which heads its history.
   */
  lemma BalanceAgreesWithLog(customer: map<int, Customer>, log: seq<Transaction>, account: int)
    requires Consistent(customer, log)
    requires account in customer
    ensures var rows := OfAccount(log, account);
      && GetBalance(customer, account) == Some(Credits(rows) - Debits(rows))
      && customer[account].balance >= 0
      && (rows != [] ==> rows[|rows| - 1].balanceAfter == customer[account].balance)
      && (rows != [] ==> TransactionHistory(log, account)[0].balanceAfter == customer[account].balance)
  {
    var rows := OfAccount(log, account);
    assert BalanceReplays(customer, log, account);
    ReplayIsNet(rows);
    if rows != [] {
      LastSnapshot(log, account);
    }
  }

  // ---------------------------------------------------------------------------
  // The invariant is kept by opening an account and by recording a transaction
  // ---------------------------------------------------------------------------

  /**
   * Inserting a fresh account with balance 0 and unused mobile and email keeps
   * the invariant; the new account has no records.
   */
  lemma OpenKeepsConsistent(customer: map<int, Customer>, log: seq<Transaction>, account: int, c: Customer)
    requires Consistent(customer, log)
    requires account !in customer
    requires c.balance == 0
    requires !MobileTaken(customer, c.mobile) && !EmailTaken(customer, c.email)
    ensures Consistent(customer[account := c], log)
    ensures OfAccount(log, account) == []
  {
    forall i | 0 <= i < |log|
      ensures log[i].account != account
    {
      assert RecordOk(customer, log, i);
    }
    OfAccountNone(log, account);
    var after := customer[account := c];
    forall i | 0 <= i < |log|
      ensures RecordOk(after, log, i)
    {
      assert RecordOk(customer, log, i);
    }
    forall a | a in after
      ensures BalanceReplays(after, log, a)
    {
      if a != account {
        assert BalanceReplays(customer, log, a);
      }
    }
    forall a, b | a in after && b in after && a != b
      ensures after[a].mobile != after[b].mobile && after[a].email != after[b].email
    {
      if a != account && b != account {
        assert after[a] == customer[a] && after[b] == customer[b];
      }
    }
  }

  /**
   * Updating one balance to the result of a valid record and appending that
   * record keeps the invariant. This is the paired UPDATE and INSERT of a
   * deposit or a withdrawal.
   */
  lemma RecordKeepsConsistent(customer: map<int, Customer>, log: seq<Transaction>, t: Transaction)
    requires Consistent(customer, log)
    requires t.account in customer && t.amount > 0
    requires t.balanceAfter == Apply(customer[t.account].balance, t) >= 0
    ensures Consistent(customer[t.account := customer[t.account].(balance := t.balanceAfter)], log + [t])
  {
    var after := customer[t.account := customer[t.account].(balance := t.balanceAfter)];
    var log' := log + [t];
    forall a | a in after
      ensures BalanceReplays(after, log', a)
    {
      assert BalanceReplays(customer, log, a);
      OfAccountAppend(log, t, a);
    }
    forall i | 0 <= i < |log'|
      ensures RecordOk(after, log', i)
    {
      if i < |log| {
        assert RecordOk(customer, log, i);
      }
    }
    forall i | 0 <= i < |log'|
      ensures SnapshotAt(log', i)
    {
      if i < |log| {
        assert SnapshotAt(log, i);
        assert log'[..i + 1] == log[..i + 1];
      } else {
        assert BalanceReplays(customer, log, t.account);
        assert log'[..i + 1] == log';
        OfAccountAppend(log, t, t.account);
      }
    }
    assert UniqueContacts(after) by {
      forall a, b | a in after && b in after && a != b
        ensures after[a].mobile != after[b].mobile && after[a].email != after[b].email
      {
        assert after[a].mobile == customer[a].mobile && after[a].email == customer[a].email;
      }
    }
  }
}
