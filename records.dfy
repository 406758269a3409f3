/**
 * Row types of the bank ledger's two tables (`customer` and `transactions`),
 * the enumerations their CHECK constraints admit, and the PIN digest.
 *
 * Money is held in integer cents: `customer.balance`, `transactions.amount`
 * and `transactions.balance_after` are exact integers.
 */
module Records {

  datatype Option<+T> = None | Some(value: T)

  /** Account category: the `CHECK(action_type IN ('Savings', 'Current'))` of the customer table. */
  datatype Category = Savings | Current

  /** Transaction direction: the `CHECK(action_type IN ('Credit', 'Debit'))` of the transactions table. */
  datatype Direction = Credit | Debit

  /** The text stored for a category. */
  function CategoryName(c: Category): string
  {
    match c
    case Savings => "Savings"
    case Current => "Current"
  }

  /**
   * The CHECK constraint on the customer table: the category text is accepted
   * exactly when it names one of the two categories, and then it names that one.
   */
  function ParseCategory(text: string): (c: Option<Category>)
    ensures c.Some? <==> text == "Savings" || text == "Current"
    ensures c.Some? ==> CategoryName(c.value) == text
  {
    if text == "Savings" then Some(Savings)
    else if text == "Current" then Some(Current)
    else None
  }

  lemma CategoryRoundTrip(c: Category)
    ensures ParseCategory(CategoryName(c)) == Some(c)
  {
  }

  /**
   * The SHA-256 hex digest of a PIN's text form. The model keeps the digest
   * abstract: it only distinguishes the PIN texts it was computed from, which
   * makes it injective (no collisions are modelled).
   */
  datatype Digest = Sha256Hex(preimage: string)

  function Hash(pin: string): Digest
  {
    Sha256Hex(pin)
  }

  /** Two PINs with the same digest are the same PIN. */
  lemma HashInjective(p: string, q: string)
    ensures Hash(p) == Hash(q) <==> p == q
  {
  }

  /** A row of the customer table, without its key `account_no`. */
  datatype Customer = Customer(
    name: string,
    mobile: string,
    email: string,
    pinHash: Digest,
    category: Category,
    balance: int)

  /**
   * A row of the transactions table. `tick` stands for the `date_time` stamp:
   * a counter that increases with every recorded transaction.
   */
  datatype Transaction = Transaction(
    id: int,
    account: int,
    direction: Direction,
    amount: int,
    balanceAfter: int,
    tick: int)
}
