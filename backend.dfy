/**
 * The `BankBackend` class: the customer table as a map from account number
 * to row, the transactions table as an append-only sequence, and the two
 * AUTOINCREMENT counters. `CreateAccount`, `Deposit` and `Withdraw` change
 * the tables statement by statement and either commit (the new state stays)
 * or roll back (the state at the start of the unit is restored). The
 * read-only queries are the functions of module Ledger applied to the
 * fields.
 */
module Backend {
  import opened Records
  import opened Ledger

  /**
   * Where a storage fault strikes inside a deposit or a withdrawal: the
   * statement named raises instead of completing. The `except Exception`
   * handler then rolls the unit back and answers None.
   */
  datatype Fault = NoFault | SelectFails | UpdateFails | InsertFails | CommitFails

  class BankBackend {
    /** The customer table, keyed by `account_no`. */
    var customer: map<int, Customer>
    /** The transactions table, in write order. */
    var transactions: seq<Transaction>
    /** The last `account_no` handed out by AUTOINCREMENT. */
    var accountSeq: nat
    /** The last transaction `id` handed out by AUTOINCREMENT. */
    var transactionSeq: nat
    /** The tick the next recorded transaction is stamped with. */
    var clock: nat

    ghost predicate Valid()
      reads this
    {
      && Consistent(customer, transactions)
      && Chronological(transactions)
      && (forall a :: a in customer ==> 1 <= a <= accountSeq)
      && (forall i :: 0 <= i < |transactions| ==>
            1 <= transactions[i].id <= transactionSeq && transactions[i].tick < clock)
    }

    /** A backend over a freshly created, empty database. */
    constructor ()
      ensures Valid()
      ensures customer == map[] && transactions == []
      ensures accountSeq == 0 && transactionSeq == 0 && clock == 0
    {
      customer := map[];
      transactions := [];
      accountSeq := 0;
      transactionSeq := 0;
      clock := 0;
    }

    /**
     * `create_account`: insert a row with balance 0 and the digest of the PIN.
     * The INSERT is refused (and nothing is written) when the category is not
     * Savings or Current, or when the mobile number or the email is already
     * in use.
     */
    method CreateAccount(name: string, mobile: string, email: string, pin: string, category: string := "Savings")
      returns (accountNo: Option<int>)
      requires Valid()
      modifies this
      ensures Valid()
      ensures accountNo.Some? <==>
        ParseCategory(category).Some? && !MobileTaken(old(customer), mobile) && !EmailTaken(old(customer), email)
      ensures accountNo.None? ==> unchanged(this)
      ensures accountNo.Some? ==>
        && accountNo.value == old(accountSeq) + 1
        && accountNo.value !in old(customer)
        && customer == old(customer)[accountNo.value :=
             Customer(name, mobile, email, Hash(pin), ParseCategory(category).value, 0)]
        && transactions == old(transactions)
        && accountSeq == accountNo.value
        && transactionSeq == old(transactionSeq) && clock == old(clock)
      ensures accountNo.Some? ==>
        && GetBalance(customer, accountNo.value) == Some(0)
        && TransactionHistory(transactions, accountNo.value, -1) == []
        && forall q :: Authenticate(customer, accountNo.value, q) <==> q == pin
    {
      var pinHash := Hash(pin);
      var parsed := ParseCategory(category);
      if parsed.None? || MobileTaken(customer, mobile) || EmailTaken(customer, email) {
        // IntegrityError: the INSERT is rejected and the unit rolled back
        return None;
      }
      var no := accountSeq + 1;
      var row := Customer(name, mobile, email, pinHash, parsed.value, 0);
      OpenKeepsConsistent(customer, transactions, no, row);
      customer := customer[no := row];
      accountSeq := no;
      accountNo := Some(no);
    }

    /**
     * The atomic unit shared by deposit and withdrawal: UPDATE the balance,
     * INSERT one record stamped with the clock, COMMIT; a fault in any of
     * these statements rolls the whole unit back.
     */
    method ApplyAndRecord(account: int, direction: Direction, amount: int, fault: Fault)
      returns (newBalance: Option<int>)
      requires Valid()
      requires account in customer && amount > 0
      requires direction == Debit ==> customer[account].balance >= amount
      requires fault != SelectFails  // the SELECT runs, and fails, in the callers
      modifies this
      ensures Valid()
      ensures newBalance.Some? <==> fault == NoFault
      ensures newBalance.None? ==> unchanged(this)
      ensures newBalance.Some? ==>
        var before := old(customer[account]);
        var t := Transaction(old(transactionSeq) + 1, account, direction, amount, newBalance.value, old(clock));
        && newBalance.value == Apply(before.balance, t)
        && customer == old(customer)[account := before.(balance := newBalance.value)]
        && transactions == old(transactions) + [t]
        && accountSeq == old(accountSeq)
        && transactionSeq == old(transactionSeq) + 1 && clock == old(clock) + 1
    {
      // the start of the unit, restored by a rollback
      var savedCustomer, savedTransactions, savedSeq, savedClock := customer, transactions, transactionSeq, clock;
      var updated := if direction == Credit then customer[account].balance + amount
                     else customer[account].balance - amount;
      if fault == UpdateFails {
        return None;
      }
      var t := Transaction(transactionSeq + 1, account, direction, amount, updated, clock);
      customer := customer[account := customer[account].(balance := updated)];
      if fault == InsertFails {
        customer := savedCustomer;
        return None;
      }
      transactions := transactions + [t];
      transactionSeq := transactionSeq + 1;
      clock := clock + 1;
      if fault == CommitFails {
        customer, transactions, transactionSeq, clock := savedCustomer, savedTransactions, savedSeq, savedClock;
        return None;
      }
      assert BalanceReplays(savedCustomer, savedTransactions, account);
      RecordKeepsConsistent(savedCustomer, savedTransactions, t);
      ChronologicalAppend(savedTransactions, t);
      newBalance := Some(updated);
    }

    /**
     * `deposit`: a non-positive amount or an unknown account is refused with
     * no change; otherwise the balance grows by `amount` and one Credit
     * record carrying the new balance is appended, all or nothing.
     */
    method Deposit(account: int, amount: int, fault: Fault := NoFault) returns (newBalance: Option<int>)
      requires Valid()
      modifies this
      ensures Valid()
      ensures newBalance.Some? <==> amount > 0 && account in old(customer) && fault == NoFault
      ensures newBalance.None? ==> unchanged(this)
      ensures newBalance.Some? ==>
        var before := old(customer[account]);
        && newBalance.value == before.balance + amount
        && customer == old(customer)[account := before.(balance := newBalance.value)]
        && transactions == old(transactions) +
             [Transaction(old(transactionSeq) + 1, account, Credit, amount, newBalance.value, old(clock))]
        && accountSeq == old(accountSeq)
        && transactionSeq == old(transactionSeq) + 1 && clock == old(clock) + 1
    {
      if amount <= 0 {
        return None;
      }
      if fault == SelectFails || account !in customer {
        return None;
      }
      newBalance := ApplyAndRecord(account, Credit, amount, fault);
    }

    /**
     * `withdraw`: a non-positive amount, an unknown account or a balance below
     * `amount` is refused with no change; otherwise the balance shrinks by
     * `amount` (never below 0) and one Debit record carrying the new balance
     * is appended, all or nothing.
     */
    method Withdraw(account: int, amount: int, fault: Fault := NoFault) returns (newBalance: Option<int>)
      requires Valid()
      modifies this
      ensures Valid()
      ensures newBalance.Some? <==>
        amount > 0 && account in old(customer) && old(customer[account].balance) >= amount && fault == NoFault
      ensures newBalance.None? ==> unchanged(this)
      ensures newBalance.Some? ==>
        var before := old(customer[account]);
        && newBalance.value == before.balance - amount >= 0
        && customer == old(customer)[account := before.(balance := newBalance.value)]
        && transactions == old(transactions) +
             [Transaction(old(transactionSeq) + 1, account, Debit, amount, newBalance.value, old(clock))]
        && accountSeq == old(accountSeq)
        && transactionSeq == old(transactionSeq) + 1 && clock == old(clock) + 1
    {
      if amount <= 0 {
        return None;
      }
      if fault == SelectFails || account !in customer || customer[account].balance < amount {
        return None;
      }
      newBalance := ApplyAndRecord(account, Debit, amount, fault);
    }
  }

  /**
   * A session against a fresh database, checked against the contracts alone:
   * open an account, authenticate, deposit 1000.00, withdraw 200.00, and have
   * a withdrawal of 10000.00 refused.
   */
  method ExampleSession()
  {
    var bank := new BankBackend();
    var created := bank.CreateAccount("John Doe", "1234567890", "john@example.com", "1234");
    assert created == Some(1);
    assert Authenticate(bank.customer, 1, "1234") && !Authenticate(bank.customer, 1, "4321");
    assert !Authenticate(bank.customer, 2, "1234");

    var afterDeposit := bank.Deposit(1, 100000);
    assert afterDeposit == Some(100000);

    var afterWithdraw := bank.Withdraw(1, 20000);
    assert afterWithdraw == Some(80000);

    var refused := bank.Withdraw(1, 1000000);
    assert refused == None;
    assert GetBalance(bank.customer, 1) == Some(80000);
    var page := TransactionHistory(bank.transactions, 1);
    assert page[0] == Transaction(2, 1, Debit, 20000, 80000, 1);
    assert Authenticate(bank.customer, 1, "1234");
  }
}
