# Fund transfers between accounts: a Dafny model

This project models the sequential core of a small account service. An
account has a fixed id and a balance that changes in place. `credit` always
adds the amount. `debit` throws `InsufficientBalanceException` ("Insufficient
Account Balance.") when the balance is strictly smaller than the amount, and
otherwise subtracts it. `transferAmount` runs its checks in a fixed order:

1. It looks up the sender; an unknown sender is an `InvalidAccountException`
   ("Account does not exists for id = <id>").
2. It looks up the receiver, with the same exception for an unknown receiver.
3. It refuses a transfer to the same account ("Same Account transfer not
   supported.").
4. It debits the sender, then credits the receiver.
5. It builds a receipt carrying a fresh id, the request and "Transaction
   Successful!!".
6. It notifies the sender, then the receiver, and only then returns the
   receipt.

Money is a `BigDecimal` in the service. Here it is an `int`, a count of the
smallest unit, since the service only adds, subtracts and compares, all
exactly.

Files, one module each:

- `domain.dfy` (`Domain`): the request (`Transaction`), the receipt
  (`TransactionDetails`), the two exception kinds with their messages, and the
  `Account` class. `Account.Credit` and `Account.Debit` update `balance` in
  place. The pure functions `AfterCredit` and `AfterDebit` specify them.
- `store.dfy` (`Store`): `AccountStore`, a map from id to `Account` object.
  Looking up an unknown id yields `null`. Its invariant is that every account
  is registered under its own id.
- `transfers.dfy` (`Transfers`): `Transfer`, the transfer as a function of
  the map of balances. It is the reference the service method is proved
  against. The file also holds the lemmas about it: error order, failures
  change nothing, the effect of a success, conservation of the total,
  non-negativity, transfers commute, and repeated transfers (`Replay`).
- `service.dfy` (`Service`): `TransactionService.TransferAmount`, the method
  over the store's `Account` objects. It is proved to leave exactly the
  balances and return exactly the outcome that `Transfer` gives.
- `scenarios.dfy` (`Scenarios`): the service's test scenarios as lemmas, plus
  two methods that drive the objects themselves.

Points where the code is narrower than one might expect, and which the
model follows:

- The code takes no lock order, and the debit and the credit do not happen
  together under both locks. They are two separately locked calls
  (`TransactionServiceImpl.java:39-41`). The model runs them as two atomic
  steps, one after the other.
- `transferAmount` checks no amount at all, and the request's validation
  (`@Min(0)`, `Transaction.java:24`) lets 0 through. So `TransferAmount`
  takes any integer amount. Non-negativity is proved for amounts of at
  least 0, the range the validation admits.
- The code compares the ids of the two accounts it looked up. Under the
  store invariant (an account is registered under its own id), that is the
  same as comparing the two requested ids, which is what `Transfer` does.

## Model

| member | source | states |
|---|---|---|
| `Domain.NotFoundMessage` | src/main/java/com/db/awmd/challenge/service/TransactionServiceImpl.java:26 | the unknown-account message ends with the id it names |
| `Domain.AfterDebit` | src/main/java/com/db/awmd/challenge/domain/Account.java:55-66 | a debit succeeds exactly when the amount is at most the balance; a success leaves a balance that is exactly the amount lower and never negative, whatever the balance before; a refusal is InsufficientBalance with "Insufficient Account Balance." |
| `Domain.DebitWholeBalance` | src/main/java/com/db/awmd/challenge/domain/Account.java:59-62 | debiting the whole balance succeeds and leaves 0, because the refusing comparison is strict |
| `Domain.CreditThenDebitRestores` | src/main/java/com/db/awmd/challenge/domain/Account.java:45-66 | a debit of the amount just credited succeeds and restores the original balance |
| `Domain.Account.constructor` | src/main/java/com/db/awmd/challenge/domain/Account.java:33-36 | the one-argument constructor stores the id and a zero balance |
| `Domain.Account.WithBalance` | src/main/java/com/db/awmd/challenge/domain/Account.java:38-43 | the two-argument constructor stores the id and the given balance |
| `Domain.Account.Credit` | src/main/java/com/db/awmd/challenge/domain/Account.java:45-53 | the balance rises by exactly the amount; the id is a constant and cannot change |
| `Domain.Account.Debit` | src/main/java/com/db/awmd/challenge/domain/Account.java:55-66 | returns normally exactly when `AfterDebit` succeeds, leaving its balance; otherwise throws InsufficientBalance and leaves the balance unchanged |
| `Store.AccountStore.GetAccount` | src/main/java/com/db/awmd/challenge/service/TransactionServiceImpl.java:24-32 | lookup yields null exactly for an id the store does not hold, and otherwise the account registered under that id |
| `Store.AccountStore.CreateAccount` | src/test/java/com/db/awmd/challenge/service/TransactionServiceImplTest.java:47-52 | registers an account under its id unless the id is taken, keeping every account under its own id |
| `Transfers.Transfer` | src/main/java/com/db/awmd/challenge/service/TransactionServiceImpl.java:22-55 | a transfer never adds or removes an account from the store |
| `Transfers.TransferSucceedsIff` | src/main/java/com/db/awmd/challenge/service/TransactionServiceImpl.java:24-41 | success exactly when both ids are known, they differ and the sender's balance covers the amount |
| `Transfers.TransferFailureChangesNothing` | src/main/java/com/db/awmd/challenge/service/TransactionServiceImpl.java:24-41 | every failed transfer leaves all balances unchanged |
| `Transfers.TransferErrors` | src/main/java/com/db/awmd/challenge/service/TransactionServiceImpl.java:24-39 | the error in check order: an unknown sender (named even when the receiver is unknown too), then an unknown receiver, then the same account, then a short balance |
| `Transfers.TransferSuccessEffect` | src/main/java/com/db/awmd/challenge/service/TransactionServiceImpl.java:39-48 | on success the sender loses and the receiver gains exactly the amount, every other account is untouched, and the receipt carries the given id, the request and "Transaction Successful!!" |
| `Transfers.TransferConservesTotal` | src/main/java/com/db/awmd/challenge/service/TransactionServiceImpl.java:24-41 | the sum of all balances is the same after a transfer, whether it succeeds or fails |
| `Transfers.TransferKeepsNonNegative` | src/main/java/com/db/awmd/challenge/service/TransactionServiceImpl.java:39-41 | if every balance and the amount are non-negative, every balance is non-negative afterwards |
| `Transfers.TransferBackRestores` | src/test/java/com/db/awmd/challenge/service/TransactionServiceImplTest.java:142-163 | after a successful transfer, the same amount sent back succeeds and restores every balance |
| `Transfers.TransfersCommute` | src/test/java/com/db/awmd/challenge/service/TransactionServiceImplTest.java:119-163 | two transfers that succeed in either order leave the same balances in both orders |
| `Transfers.ReplayInvariants` | src/main/java/com/db/awmd/challenge/service/TransactionServiceImpl.java:24-41 | any sequence of transfers keeps the total, and keeps every balance non-negative when the amounts are non-negative |
| `Transfers.ReplayUnknownAccount` | src/test/java/com/db/awmd/challenge/web/TransactionControllerTest.java:200-227 | calls naming an unknown account change no balance, and each returns the InvalidAccount failure it would return on its own |
| `Transfers.RepeatedTransfer` | src/test/java/com/db/awmd/challenge/web/TransactionControllerTest.java:169-198 | n equal transfers of a positive amount, with `moves` = min(n, whole amounts the sender holds): the first `moves` calls succeed, every later one fails with InsufficientBalance (so n - `moves` are refused), and exactly `moves` amounts move |
| `Service.TransactionService.constructor` | src/main/java/com/db/awmd/challenge/service/TransactionServiceImpl.java:14-19 | the service works over the given store and has sent no notices |
| `Service.TransactionService.TransferAmount` | src/main/java/com/db/awmd/challenge/service/TransactionServiceImpl.java:22-55 | the new balances and the returned receipt or exception are those of `Transfer`; the set of accounts is unchanged; on success only, the sender and then the receiver are notified |
| `Scenarios.TransferScenarios` | src/test/java/com/db/awmd/challenge/service/TransactionServiceImplTest.java:94-140 | from 2000 each, 100 from "1" to "2" gives 1900/2100 with a success receipt, and a second gives 1800/2200 |
| `Scenarios.OppositeTransfersRestore` | src/test/java/com/db/awmd/challenge/service/TransactionServiceImplTest.java:142-163 | "1" to "2" and "2" to "1" of 100, in either order: all four calls succeed and the balances return to 2000/2000 |
| `Scenarios.ConcurrentPairsEitherOrder` | src/test/java/com/db/awmd/challenge/service/TransactionServiceImplTest.java:119-163 | the two concurrent test pairs end the same in either application order |
| `Scenarios.RefusedScenarios` | src/test/java/com/db/awmd/challenge/web/TransactionControllerTest.java:117-141 | unknown "4" as sender or as receiver, 1000 from a balance of 200, and a self-transfer fail with the exact messages and change nothing |
| `Scenarios.TenTransfersOfForty` | src/test/java/com/db/awmd/challenge/web/TransactionControllerTest.java:169-198 | ten transfers of 40 from 200/200: the first five succeed, the other five fail with "Insufficient Account Balance.", final balances 0/400 |
| `Scenarios.TenTransfersOfFive` | src/test/java/com/db/awmd/challenge/web/TransactionControllerTest.java:144-167 | ten transfers of 5 from 200/200: every call succeeds, final balances 150/250 |
| `Scenarios.TenTransfersToUnknown` | src/test/java/com/db/awmd/challenge/web/TransactionControllerTest.java:200-227 | ten transfers to unknown "4" each fail with "Account does not exists for id = 4" and leave the balances at 200 |
| `Scenarios.AccountScenarios` | src/test/java/com/db/awmd/challenge/service/TransactionServiceImplTest.java:59-92 | on an account opened with 2000: credit 100 gives 2100, debit 100 returns normally and gives 1900, debit 2500 throws InsufficientBalance and leaves 2000 |
| `Scenarios.TenServiceTransfersOfForty` | src/test/java/com/db/awmd/challenge/web/TransactionControllerTest.java:169-198 | ten calls of the service object, 40 from "1" to "2" from 200/200: exactly five fail with InsufficientBalance, balances end at 0 and 400 |

## Left out

- Locking: the per-account `ReentrantReadWriteLock` (`Account.java:31`). Each credit and each debit is one atomic step.
- Concurrency: the thread-pool tests are modelled as sequential interleavings. Between the sender's debit and the receiver's credit, another thread can see the money in neither account. The model does not capture this.
- The receipt id: a random UUID in the service, an opaque parameter here.
- Service.TransactionService.TransferAmount: assumes the notification service always returns normally. In the code, the notifications (`TransactionServiceImpl.java:51-52`) run after both balances have changed and before the receipt is returned, with no try/catch. A notifier that throws would make `transferAmount` throw with the money already moved, and the caller would get no receipt. The model does not capture that outcome.
- Notifications: the notification service is outside code. The model records which account is told of which debit or credit, and in what order. The formatted message text is not modelled.
- The account service and its repository are not part of this model. `AccountStore` stands in for them with a plain map. `CreateAccount` refuses an id already taken; the code for that refusal is not available. Clearing the repository, used between tests, is not modelled.
- The HTTP controller, which maps exceptions to status codes (404, 400, 500) and successes to 200. It is framework code.
- Bean validation of requests (`@NotEmpty`, `@Min(0)`) and the JSON field names `from` and `to`. `@Min(0)` lets an amount of 0 through, yet a controller test expects 400 for 0. That boundary behaviour is not modelled.
- The Lombok setter on `balance`, which overwrites it unchecked. Only the framework uses it.
- `BigDecimal` scale and `equals`: 100 and 100.00 compare equal but are not `equals`. Integers model only the exact add, subtract and compare that the code uses.
