/** The transfer as a function of the store's balances: the reference the
    service's `TransferAmount` is proved against, and the properties proved
    about it (error order, failures change nothing, the effect of a success,
    conservation of the total, non-negativity). */
module Transfers {
  import opened Domain

  /** The balances after a transfer attempt, and what the attempt returned. */
  datatype Step = Step(balances: map<string, int>, outcome: Result<TransactionDetails>)

  /** One transfer over the balances, with the checks in the service's order:
      the sender exists, the receiver exists, the two differ, the sender's
      debit succeeds; then the receiver is credited. */
  function Transfer(balances: map<string, int>, t: Transaction, transactionId: string): (s: Step)
    ensures s.balances.Keys == balances.Keys
  {
    if t.senderId !in balances then
      Step(balances, Failure(InvalidAccount(NotFoundMessage(t.senderId))))
    else if t.receiverId !in balances then
      Step(balances, Failure(InvalidAccount(NotFoundMessage(t.receiverId))))
    else if t.senderId == t.receiverId then
      Step(balances, Failure(InvalidAccount(SameAccountMessage)))
    else
      match AfterDebit(balances[t.senderId], t.amount)
      case Failure(e) => Step(balances, Failure(e))
      case Success(debited) =>
        var afterDebit := balances[t.senderId := debited];
        Step(afterDebit[t.receiverId := AfterCredit(afterDebit[t.receiverId], t.amount)],
             Success(TransactionDetails(transactionId, t, SuccessMessage)))
  }

  /** A transfer succeeds exactly when both accounts exist, they differ and
      the sender holds at least the amount. */
  lemma TransferSucceedsIff(balances: map<string, int>, t: Transaction, transactionId: string)
    ensures Transfer(balances, t, transactionId).outcome.Success? <==>
      t.senderId in balances && t.receiverId in balances &&
      t.senderId != t.receiverId && t.amount <= balances[t.senderId]
  {
  }

  /** A failed transfer changes no balance. */
  lemma TransferFailureChangesNothing(balances: map<string, int>, t: Transaction, transactionId: string)
    ensures Transfer(balances, t, transactionId).outcome.Failure? ==>
      Transfer(balances, t, transactionId).balances == balances
  {
  }

  /** The error of a failed transfer, in the order the checks run: an unknown
      sender is reported first (even when the receiver is unknown too), then
      an unknown receiver, then a transfer to oneself, then a short balance. */
  lemma TransferErrors(balances: map<string, int>, t: Transaction, transactionId: string)
    ensures t.senderId !in balances ==>
      Transfer(balances, t, transactionId).outcome == Failure(InvalidAccount(NotFoundMessage(t.senderId)))
    ensures t.senderId in balances && t.receiverId !in balances ==>
      Transfer(balances, t, transactionId).outcome == Failure(InvalidAccount(NotFoundMessage(t.receiverId)))
    ensures t.senderId in balances && t.receiverId in balances && t.senderId == t.receiverId ==>
      Transfer(balances, t, transactionId).outcome == Failure(InvalidAccount(SameAccountMessage))
    ensures (t.senderId in balances && t.receiverId in balances && t.senderId != t.receiverId &&
             balances[t.senderId] < t.amount) ==>
      Transfer(balances, t, transactionId).outcome == Failure(InsufficientBalance(InsufficientBalanceMessage))
  {
  }

  /** A successful transfer takes exactly the amount from the sender, gives
      it to the receiver, leaves every other account alone and returns the
      request with the given id and the success message. */
  lemma TransferSuccessEffect(balances: map<string, int>, t: Transaction, transactionId: string)
    requires Transfer(balances, t, transactionId).outcome.Success?
    ensures var after := Transfer(balances, t, transactionId).balances;
      && after[t.senderId] == balances[t.senderId] - t.amount
      && after[t.receiverId] == balances[t.receiverId] + t.amount
      && forall id :: id in balances && id != t.senderId && id != t.receiverId ==>
           after[id] == balances[id]
    ensures Transfer(balances, t, transactionId).outcome.value ==
      TransactionDetails(transactionId, t, SuccessMessage)
  {
  }

  /** The sum of all balances. */
  ghost function Total(balances: map<string, int>): (total: int)
    decreases |balances|
  {
    if balances == map[] then 0
    else
      var id :| id in balances;
      balances[id] + Total(balances - {id})
  }

  /** The total can be split at any account, not only at the one `Total`
      happens to pick. */
  lemma {:induction false} TotalSplit(balances: map<string, int>, id: string)
    requires id in balances
    ensures Total(balances) == balances[id] + Total(balances - {id})
    decreases |balances|
  {
    var picked :| picked in balances && Total(balances) == balances[picked] + Total(balances - {picked});
    if picked != id {
      var rest := balances - {picked} - {id};
      assert balances - {id} - {picked} == rest;
      TotalSplit(balances - {picked}, id);
      TotalSplit(balances - {id}, picked);
    }
  }

  /** Overwriting one balance changes the total by the difference. */
  lemma TotalUpdate(balances: map<string, int>, id: string, value: int)
    requires id in balances
    ensures Total(balances[id := value]) == Total(balances) - balances[id] + value
  {
    TotalSplit(balances, id);
    TotalSplit(balances[id := value], id);
    assert balances[id := value] - {id} == balances - {id};
  }

  /** Conservation: a transfer, successful or not, leaves the total of all
      balances as it was. */
  lemma TransferConservesTotal(balances: map<string, int>, t: Transaction, transactionId: string)
    ensures Total(Transfer(balances, t, transactionId).balances) == Total(balances)
  {
    var s := Transfer(balances, t, transactionId);
    if s.outcome.Success? {
      var debited := balances[t.senderId := balances[t.senderId] - t.amount];
      TotalUpdate(balances, t.senderId, balances[t.senderId] - t.amount);
      TotalUpdate(debited, t.receiverId, debited[t.receiverId] + t.amount);
    }
  }

  /** Every balance is non-negative. */
  ghost predicate NonNegative(balances: map<string, int>)
  {
    forall id :: id in balances ==> balances[id] >= 0
  }

  /** Non-negativity survives a transfer of a non-negative amount. */
  lemma TransferKeepsNonNegative(balances: map<string, int>, t: Transaction, transactionId: string)
    requires NonNegative(balances) && t.amount >= 0
    ensures NonNegative(Transfer(balances, t, transactionId).balances)
  {
  }

  /** Transferring an amount back the other way restores every balance, as
      long as the first transfer succeeded and its receiver was not in debt. */
  lemma TransferBackRestores(balances: map<string, int>, t: Transaction, id1: string, id2: string)
    requires Transfer(balances, t, id1).outcome.Success?
    requires balances[t.receiverId] >= 0
    ensures var back := Transaction(t.receiverId, t.senderId, t.amount);
      var there := Transfer(balances, t, id1).balances;
      Transfer(there, back, id2).outcome.Success? && Transfer(there, back, id2).balances == balances
  {
  }

  /** Two transfers that succeed in either order leave the same balances:
      the order in which competing transfers are applied does not matter. */
  lemma TransfersCommute(balances: map<string, int>, t1: Transaction, t2: Transaction, id1: string, id2: string)
    requires Transfer(balances, t1, id1).outcome.Success?
    requires Transfer(Transfer(balances, t1, id1).balances, t2, id2).outcome.Success?
    requires Transfer(balances, t2, id2).outcome.Success?
    requires Transfer(Transfer(balances, t2, id2).balances, t1, id1).outcome.Success?
    ensures Transfer(Transfer(balances, t1, id1).balances, t2, id2).balances ==
            Transfer(Transfer(balances, t2, id2).balances, t1, id1).balances
  {
    var a := Transfer(Transfer(balances, t1, id1).balances, t2, id2).balances;
    var b := Transfer(Transfer(balances, t2, id2).balances, t1, id1).balances;
    forall id | id in balances
      ensures a[id] == b[id]
    {
      TransferSuccessEffect(balances, t1, id1);
      TransferSuccessEffect(balances, t2, id2);
      TransferSuccessEffect(Transfer(balances, t1, id1).balances, t2, id2);
      TransferSuccessEffect(Transfer(balances, t2, id2).balances, t1, id1);
    }
  }

  /** A transfer request as one call of the service: the request and the id
      that call generates for its receipt. */
  datatype Call = Call(transaction: Transaction, transactionId: string)

  /** The balances after a sequence of calls run one after another, and what
      each call returned, in order. */
  function Replay(balances: map<string, int>, calls: seq<Call>): (r: (map<string, int>, seq<Result<TransactionDetails>>))
    ensures |r.1| == |calls|
    ensures r.0.Keys == balances.Keys
    decreases |calls|
  {
    if calls == [] then (balances, [])
    else
      var s := Transfer(balances, calls[0].transaction, calls[0].transactionId);
      var rest := Replay(s.balances, calls[1..]);
      (rest.0, [s.outcome] + rest.1)
  }

  /** Conservation and non-negativity over any sequence of calls. */
  lemma {:induction false} ReplayInvariants(balances: map<string, int>, calls: seq<Call>)
    ensures Total(Replay(balances, calls).0) == Total(balances)
    ensures (NonNegative(balances) &&
             forall i :: 0 <= i < |calls| ==> calls[i].transaction.amount >= 0) ==>
      NonNegative(Replay(balances, calls).0)
    decreases |calls|
  {
    if calls != [] {
      var s := Transfer(balances, calls[0].transaction, calls[0].transactionId);
      TransferConservesTotal(balances, calls[0].transaction, calls[0].transactionId);
      if NonNegative(balances) && calls[0].transaction.amount >= 0 {
        TransferKeepsNonNegative(balances, calls[0].transaction, calls[0].transactionId);
      }
      ReplayInvariants(s.balances, calls[1..]);
    }
  }

  /** Calls that each name an account the store does not hold all fail with
      InvalidAccount, none of them changes a balance, and each returns what it
      would return if it ran alone on the original balances (so the message
      names the unknown id, as `TransferErrors` states). */
  lemma {:induction false} ReplayUnknownAccount(balances: map<string, int>, calls: seq<Call>)
    requires forall i :: 0 <= i < |calls| ==>
      calls[i].transaction.senderId !in balances || calls[i].transaction.receiverId !in balances
    ensures Replay(balances, calls).0 == balances
    ensures forall i :: 0 <= i < |calls| ==>
      && Replay(balances, calls).1[i] ==
           Transfer(balances, calls[i].transaction, calls[i].transactionId).outcome
      && Replay(balances, calls).1[i].Failure?
      && Replay(balances, calls).1[i].error.InvalidAccount?
    decreases |calls|
  {
    if calls != [] {
      ReplayUnknownAccount(balances, calls[1..]);
      var first := Transfer(balances, calls[0].transaction, calls[0].transactionId);
      assert Replay(balances, calls).1 == [first.outcome] + Replay(balances, calls[1..]).1;
      forall i | 1 <= i < |calls|
        ensures calls[1..][i - 1] == calls[i]
      {
      }
    }
  }

  /** How many of the results are InsufficientBalance failures. */
  function CountInsufficient(results: seq<Result<TransactionDetails>>): (n: nat)
    ensures n <= |results|
  {
    if results == [] then 0
    else (if results[0].Failure? && results[0].error.InsufficientBalance? then 1 else 0)
         + CountInsufficient(results[1..])
  }

  /** The first `moves` results are successes and every later one is an
      InsufficientBalance failure. */
  ghost predicate FirstSucceed(results: seq<Result<TransactionDetails>>, moves: nat)
  {
    forall i :: 0 <= i < |results| ==>
      && (i < moves ==> results[i].Success?)
      && (moves <= i ==> results[i] == Failure(InsufficientBalance(InsufficientBalanceMessage)))
  }

  /** `FirstSucceed` for a result put in front of others: a success in front
      adds one to the count of leading successes, a refusal in front needs
      none to follow. */
  lemma FirstSucceedCons(first: Result<TransactionDetails>, rest: seq<Result<TransactionDetails>>, moves: nat)
    requires moves >= 1 ==> first.Success? && FirstSucceed(rest, moves - 1)
    requires moves == 0 ==> first == Failure(InsufficientBalance(InsufficientBalanceMessage)) && FirstSucceed(rest, 0)
    ensures FirstSucceed([first] + rest, moves)
  {
    var all := [first] + rest;
    forall i | 1 <= i < |all|
      ensures all[i] == rest[i - 1]
    {
    }
  }

  /** The same transfer of a positive amount, repeated `|calls|` times from a
      non-negative sender: the first `moves` of them succeed, where `moves` is
      the number of calls or the number of whole amounts the sender holds,
      whichever is smaller; every later call fails with InsufficientBalance,
      so that many are refused, and the money that moved is exactly what
      those successes moved. */
  lemma {:induction false} RepeatedTransfer(balances: map<string, int>, t: Transaction, calls: seq<Call>, moves: nat)
    requires t.senderId in balances && t.receiverId in balances && t.senderId != t.receiverId
    requires t.amount > 0
    requires forall i :: 0 <= i < |calls| ==> calls[i].transaction == t
    requires moves <= |calls| && moves * t.amount <= balances[t.senderId]
    requires moves == |calls| || balances[t.senderId] < (moves + 1) * t.amount
    ensures var r := Replay(balances, calls);
      && FirstSucceed(r.1, moves)
      && CountInsufficient(r.1) == |calls| - moves
      && r.0 == balances[t.senderId := balances[t.senderId] - moves * t.amount]
                        [t.receiverId := balances[t.receiverId] + moves * t.amount]
    decreases |calls|, 1
  {
    if calls != [] {
      ReplayFirst(balances, calls);
      var first := Transfer(balances, t, calls[0].transactionId);
      var rest := Replay(first.balances, calls[1..]);
      if t.amount <= balances[t.senderId] {
        RepeatedTransferSucceeds(balances, t, calls, moves);
      } else {
        RepeatedTransferRefused(balances, t, calls, moves);
      }
      FirstSucceedCons(first.outcome, rest.1, moves);
    }
  }

  /** The step of `RepeatedTransfer` where the sender still holds the amount:
      the first call moves it, and one move fewer remains. */
  lemma {:induction false} RepeatedTransferSucceeds(balances: map<string, int>, t: Transaction, calls: seq<Call>, moves: nat)
    requires t.senderId in balances && t.receiverId in balances && t.senderId != t.receiverId
    requires 0 < t.amount <= balances[t.senderId] && calls != []
    requires forall i :: 0 <= i < |calls| ==> calls[i].transaction == t
    requires moves <= |calls| && moves * t.amount <= balances[t.senderId]
    requires moves == |calls| || balances[t.senderId] < (moves + 1) * t.amount
    ensures moves >= 1
    ensures var first := Transfer(balances, t, calls[0].transactionId);
      var r := Replay(first.balances, calls[1..]);
      && first.outcome.Success?
      && FirstSucceed(r.1, moves - 1)
      && CountInsufficient(r.1) == |calls| - moves
      && r.0 == balances[t.senderId := balances[t.senderId] - moves * t.amount]
                        [t.receiverId := balances[t.receiverId] + moves * t.amount]
    decreases |calls|, 0
  {
    var b, c, a := balances[t.senderId], balances[t.receiverId], t.amount;
    assert moves >= 1;
    var first := Transfer(balances, t, calls[0].transactionId);
    assert first.balances == balances[t.senderId := b - a][t.receiverId := c + a];
    assert (moves - 1) * a == moves * a - a;
    RepeatedTransfer(first.balances, t, calls[1..], moves - 1);
    UpdateTwiceCollapses(balances, t.senderId, t.receiverId, b - a, c + a, b - moves * a, c + moves * a);
  }

  /** The step of `RepeatedTransfer` where the sender no longer holds the
      amount: no move remains, and the first call is refused. */
  lemma {:induction false} RepeatedTransferRefused(balances: map<string, int>, t: Transaction, calls: seq<Call>, moves: nat)
    requires t.senderId in balances && t.receiverId in balances && t.senderId != t.receiverId
    requires 0 < t.amount && balances[t.senderId] < t.amount && calls != []
    requires forall i :: 0 <= i < |calls| ==> calls[i].transaction == t
    requires moves <= |calls| && moves * t.amount <= balances[t.senderId]
    ensures moves == 0
    ensures var first := Transfer(balances, t, calls[0].transactionId);
      var r := Replay(first.balances, calls[1..]);
      && first.outcome == Failure(InsufficientBalance(InsufficientBalanceMessage))
      && FirstSucceed(r.1, 0)
      && CountInsufficient(r.1) == |calls| - 1
      && r.0 == balances
    decreases |calls|, 0
  {
    assert moves == 0;
    var first := Transfer(balances, t, calls[0].transactionId);
    RepeatedTransfer(first.balances, t, calls[1..], 0);
    var b, c := balances[t.senderId], balances[t.receiverId];
    assert balances[t.senderId := b][t.receiverId := c] == balances;
  }

  /** Replaying a non-empty sequence of calls runs the first call, then the
      rest from the balances it leaves. */
  lemma ReplayFirst(balances: map<string, int>, calls: seq<Call>)
    requires calls != []
    ensures var first := Transfer(balances, calls[0].transaction, calls[0].transactionId);
      var rest := Replay(first.balances, calls[1..]);
      && Replay(balances, calls).0 == rest.0
      && Replay(balances, calls).1 == [first.outcome] + rest.1
      && CountInsufficient(Replay(balances, calls).1) ==
           (if first.outcome.Failure? && first.outcome.error.InsufficientBalance? then 1 else 0)
           + CountInsufficient(rest.1)
  {
    var first := Transfer(balances, calls[0].transaction, calls[0].transactionId);
    var rest := Replay(first.balances, calls[1..]);
    assert ([first.outcome] + rest.1)[1..] == rest.1;
  }

  /** Writing the same two keys twice keeps only the second writes. */
  lemma UpdateTwiceCollapses(m: map<string, int>, k1: string, k2: string, v1: int, v2: int, w1: int, w2: int)
    requires k1 != k2
    ensures m[k1 := v1][k2 := v2][k1 := w1][k2 := w2] == m[k1 := w1][k2 := w2]
  {
  }
}
