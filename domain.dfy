/** The domain of the fund-transfer service: the transfer request and its
    receipt, the two exception kinds the service raises, and the account
    whose balance is credited and debited in place.

    Money (an exact decimal in the service) is an `int` here: a balance or an
    amount counted in the smallest unit, so that add, subtract and compare are
    exact, as they are on the decimals. */
module Domain {

  /** The two exception kinds the transfer path raises, each with the message
      that callers (and the HTTP layer above the service) read back. */
  datatype Exception =
    | InvalidAccount(message: string)
    | InsufficientBalance(message: string)

  /** Success with a value, or a thrown exception. */
  datatype Result<T> = Success(value: T) | Failure(error: Exception)

  /** A call that returns nothing, or throws. */
  datatype Outcome = Pass | Fail(error: Exception)

  const InsufficientBalanceMessage: string := "Insufficient Account Balance."
  const SameAccountMessage: string := "Same Account transfer not supported."
  const SuccessMessage: string := "Transaction Successful!!"

  /** The message of the exception for an unknown account id. */
  function NotFoundMessage(id: string): (m: string)
    ensures |m| > |id| && m[|m| - |id|..] == id
  {
    "Account does not exists for id = " + id
  }

  /** A transfer request: move `amount` from `senderId` to `receiverId`. */
  datatype Transaction = Transaction(senderId: string, receiverId: string, amount: int)

  /** The receipt of a successful transfer. */
  datatype TransactionDetails =
    TransactionDetails(transactionId: string, transaction: Transaction, message: string)

  /** The balance a credit of `amount` leaves behind: credit never fails. */
  function AfterCredit(balance: int, amount: int): (credited: int)
  {
    balance + amount
  }

  /** The balance a debit of `amount` leaves behind, or the exception it throws
      when the balance is strictly smaller than the amount. */
  function AfterDebit(balance: int, amount: int): (r: Result<int>)
    ensures r.Success? <==> amount <= balance
    ensures r.Success? ==> r.value >= 0 && r.value + amount == balance
    ensures r.Failure? ==> r.error == InsufficientBalance(InsufficientBalanceMessage)
  {
    if balance < amount then Failure(InsufficientBalance(InsufficientBalanceMessage))
    else Success(balance - amount)
  }

  /** Debiting exactly the whole balance succeeds and leaves nothing: the
      comparison that refuses a debit is strict. */
  lemma DebitWholeBalance(balance: int)
    ensures AfterDebit(balance, balance) == Success(0)
  {
  }

  /** A debit undoes a credit of the same amount, and it always succeeds. */
  lemma CreditThenDebitRestores(balance: int, amount: int)
    requires balance >= 0
    ensures AfterDebit(AfterCredit(balance, amount), amount) == Success(balance)
  {
  }

  /** An account: its id never changes, its balance changes in place through
      `Credit` and `Debit` only. */
  class Account {
    const accountId: string
    var balance: int

    /** An account opened with a zero balance. */
    constructor (accountId: string)
      ensures this.accountId == accountId && balance == 0
    {
      this.accountId := accountId;
      balance := 0;
    }

    /** An account opened with the given balance. */
    constructor WithBalance(accountId: string, balance: int)
      ensures this.accountId == accountId && this.balance == balance
    {
      this.accountId := accountId;
      this.balance := balance;
    }

    /** Adds `amount` to the balance; never fails. */
    method Credit(amount: int)
      modifies this
      ensures balance == AfterCredit(old(balance), amount)
    {
      balance := balance + amount;
    }

    /** Subtracts `amount` from the balance, or throws InsufficientBalance and
        leaves the balance as it was when the balance is smaller. */
    method Debit(amount: int) returns (o: Outcome)
      modifies this
      ensures o.Pass? <==> AfterDebit(old(balance), amount).Success?
      ensures o.Pass? ==> balance == AfterDebit(old(balance), amount).value
      ensures o.Fail? ==>
        balance == old(balance) && o.error == InsufficientBalance(InsufficientBalanceMessage)
    {
      if balance < amount {
        return Fail(InsufficientBalance(InsufficientBalanceMessage));
      }
      balance := balance - amount;
      o := Pass;
    }
  }
}
