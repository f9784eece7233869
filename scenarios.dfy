/** The service's test scenarios, over the reference `Transfer` and over the
    service object itself. Calls that the tests issue from several threads at
    once are run here one after another: each credit and debit is one atomic
    step, so a sequential order is one of the interleavings. */
module Scenarios {
  import opened Domain
  import opened Store
  import opened Transfers
  import opened Service

  /** Three accounts holding the same opening balance. */
  function Seeded(opening: int): (m: map<string, int>)
    ensures m.Keys == {"1", "2", "3"}
    ensures forall id :: id in m ==> m[id] == opening
  {
    map["1" := opening, "2" := opening, "3" := opening]
  }

  /** From 2000 each, moving 100 from "1" to "2" leaves 1900 and 2100, and a
      second such transfer leaves 1800 and 2200. */
  lemma TransferScenarios(id1: string, id2: string)
    ensures var once := Transfer(Seeded(2000), Transaction("1", "2", 100), id1);
      && once.outcome == Success(TransactionDetails(id1, Transaction("1", "2", 100), SuccessMessage))
      && once.balances == map["1" := 1900, "2" := 2100, "3" := 2000]
      && Transfer(once.balances, Transaction("1", "2", 100), id2).balances ==
           map["1" := 1800, "2" := 2200, "3" := 2000]
  {
  }

  /** From 2000 each, "1" to "2" and "2" to "1" of 100, in either order:
      all four calls succeed, and the balances return to 2000 and 2000. */
  lemma OppositeTransfersRestore(id1: string, id2: string)
    ensures var there := Transaction("1", "2", 100);
      var back := Transaction("2", "1", 100);
      && Transfer(Seeded(2000), there, id1).outcome.Success?
      && Transfer(Transfer(Seeded(2000), there, id1).balances, back, id2).outcome.Success?
      && Transfer(Transfer(Seeded(2000), there, id1).balances, back, id2).balances == Seeded(2000)
      && Transfer(Seeded(2000), back, id2).outcome.Success?
      && Transfer(Transfer(Seeded(2000), back, id2).balances, there, id1).outcome.Success?
      && Transfer(Transfer(Seeded(2000), back, id2).balances, there, id1).balances == Seeded(2000)
  {
    TransferBackRestores(Seeded(2000), Transaction("1", "2", 100), id1, id2);
    TransferBackRestores(Seeded(2000), Transaction("2", "1", 100), id2, id1);
  }

  /** An unknown sender "4" is refused with its id in the message; so is an
      unknown receiver; more than the balance is refused as insufficient; and
      none of them changes a balance. */
  lemma RefusedScenarios(id: string)
    ensures Transfer(Seeded(200), Transaction("4", "2", 1000), id) ==
      Step(Seeded(200), Failure(InvalidAccount("Account does not exists for id = 4")))
    ensures Transfer(Seeded(200), Transaction("1", "4", 40), id) ==
      Step(Seeded(200), Failure(InvalidAccount("Account does not exists for id = 4")))
    ensures Transfer(Seeded(200), Transaction("1", "2", 1000), id) ==
      Step(Seeded(200), Failure(InsufficientBalance("Insufficient Account Balance.")))
    ensures Transfer(Seeded(200), Transaction("1", "1", 40), id) ==
      Step(Seeded(200), Failure(InvalidAccount("Same Account transfer not supported.")))
  {
    assert NotFoundMessage("4") == "Account does not exists for id = 4";
  }

  /** Ten transfers of 40 from "1" to "2", from 200 each: the first five
      succeed, the other five are refused for insufficient balance, and "1"
      ends at 0, "2" at 400. */
  lemma {:induction false} TenTransfersOfForty(calls: seq<Call>)
    requires |calls| == 10
    requires forall i :: 0 <= i < |calls| ==> calls[i].transaction == Transaction("1", "2", 40)
    ensures forall i :: 0 <= i < 5 ==> Replay(Seeded(200), calls).1[i].Success?
    ensures forall i :: 5 <= i < 10 ==>
      Replay(Seeded(200), calls).1[i] == Failure(InsufficientBalance("Insufficient Account Balance."))
    ensures CountInsufficient(Replay(Seeded(200), calls).1) == 5
    ensures Replay(Seeded(200), calls).0 == map["1" := 0, "2" := 400, "3" := 200]
  {
    RepeatedTransfer(Seeded(200), Transaction("1", "2", 40), calls, 5);
  }

  /** Ten transfers of 5 from "1" to "2", from 200 each: all succeed, and
      "1" ends at 150, "2" at 250. */
  lemma {:induction false} TenTransfersOfFive(calls: seq<Call>)
    requires |calls| == 10
    requires forall i :: 0 <= i < |calls| ==> calls[i].transaction == Transaction("1", "2", 5)
    ensures forall i :: 0 <= i < 10 ==> Replay(Seeded(200), calls).1[i].Success?
    ensures Replay(Seeded(200), calls).0 == map["1" := 150, "2" := 250, "3" := 200]
  {
    RepeatedTransfer(Seeded(200), Transaction("1", "2", 5), calls, 10);
  }

  /** Ten transfers of 40 from "1" to the unknown "4", from 200 each: every
      one is refused with "Account does not exists for id = 4", and no
      balance changes. */
  lemma {:induction false} TenTransfersToUnknown(calls: seq<Call>)
    requires |calls| == 10
    requires forall i :: 0 <= i < |calls| ==> calls[i].transaction == Transaction("1", "4", 40)
    ensures Replay(Seeded(200), calls).0 == Seeded(200)
    ensures forall i :: 0 <= i < |calls| ==>
      Replay(Seeded(200), calls).1[i] == Failure(InvalidAccount("Account does not exists for id = 4"))
  {
    ReplayUnknownAccount(Seeded(200), calls);
    assert NotFoundMessage("4") == "Account does not exists for id = 4";
  }

  /** From 2000 each, two transfers of 100 from "1" to "2" give 1800 and 2200
      in either order, and so do "1" to "2" and "2" to "1" give 2000 and 2000:
      competing transfers end the same whichever is applied first. */
  lemma ConcurrentPairsEitherOrder(id1: string, id2: string)
    ensures var t := Transaction("1", "2", 100);
      Transfer(Transfer(Seeded(2000), t, id1).balances, t, id2).balances ==
      Transfer(Transfer(Seeded(2000), t, id2).balances, t, id1).balances
    ensures var there, back := Transaction("1", "2", 100), Transaction("2", "1", 100);
      Transfer(Transfer(Seeded(2000), there, id1).balances, back, id2).balances ==
      Transfer(Transfer(Seeded(2000), back, id2).balances, there, id1).balances
  {
    var there, back := Transaction("1", "2", 100), Transaction("2", "1", 100);
    TransfersCommute(Seeded(2000), there, there, id1, id2);
    TransfersCommute(Seeded(2000), there, back, id1, id2);
  }

  /** The account tests on one account opened with 2000: a credit of 100
      gives 2100, a debit of 100 returns normally and gives 1900, and a debit
      of 2500 is refused and leaves 2000. */
  method AccountScenarios() returns (credited: int, withdrawn: Outcome, debited: int, refused: Outcome, kept: int)
    ensures credited == 2100 && withdrawn == Pass && debited == 1900
    ensures refused == Fail(InsufficientBalance("Insufficient Account Balance.")) && kept == 2000
  {
    var a := new Account.WithBalance("1", 2000);
    a.Credit(100);
    credited := a.balance;
    var b := new Account.WithBalance("1", 2000);
    withdrawn := b.Debit(100);
    debited := b.balance;
    var c := new Account.WithBalance("1", 2000);
    refused := c.Debit(2500);
    kept := c.balance;
  }

  /** Ten calls of the service moving 40 from "1" to "2", from 200 each, run
      one after another: exactly five fail with InsufficientBalance, and the
      balances end at 0 and 400. */
  method TenServiceTransfersOfForty(transactionIds: seq<string>) returns (insufficient: nat, balance1: int, balance2: int)
    requires |transactionIds| == 10
    ensures insufficient == 5 && balance1 == 0 && balance2 == 400
  {
    var store := new AccountStore();
    var a1 := new Account.WithBalance("1", 200);
    var a2 := new Account.WithBalance("2", 200);
    var a3 := new Account.WithBalance("3", 200);
    var ok := store.CreateAccount(a1);
    ok := store.CreateAccount(a2);
    ok := store.CreateAccount(a3);
    var service := new TransactionService(store);
    insufficient := 0;
    var i := 0;
    while i < 10
      invariant 0 <= i <= 10
      invariant service.Valid() && service.store == store
      invariant store.byId == map["1" := a1, "2" := a2, "3" := a3]
      invariant fresh(a1) && fresh(a2) && fresh(a3) && fresh(service)
      invariant a1.balance == if i <= 5 then 200 - 40 * i else 0
      invariant a2.balance == if i <= 5 then 200 + 40 * i else 400
      invariant a3.balance == 200
      invariant insufficient == if i <= 5 then 0 else i - 5
    {
      var r := service.TransferAmount(Transaction("1", "2", 40), transactionIds[i]);
      if r.Failure? && r.error.InsufficientBalance? {
        insufficient := insufficient + 1;
      }
      i := i + 1;
    }
    balance1, balance2 := a1.balance, a2.balance;
  }
}
