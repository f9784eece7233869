/** The transfer service: looks both accounts up in the store, refuses an
    unknown id or a transfer to oneself, debits the sender, credits the
    receiver, builds the receipt and notifies both parties.

    The receipt's id, a random UUID in the service, is a parameter here. The
    notification service is an outside collaborator; the notices it was asked
    to send are recorded in `notices`. */
module Service {
  import opened Domain
  import opened Store
  import opened Transfers

  /** What the notification service was asked to tell an account holder. */
  datatype NoticeKind = Debited(amount: int) | Credited(amount: int)
  datatype Notice = Notice(accountId: string, kind: NoticeKind)

  class TransactionService {
    const store: AccountStore
    var notices: seq<Notice>

    ghost predicate Valid()
      reads this, store
    {
      store.Valid()
    }

    constructor (store: AccountStore)
      requires store.Valid()
      ensures Valid() && this.store == store && notices == []
    {
      this.store := store;
      notices := [];
    }

    /** Moves `t.amount` from `t.senderId` to `t.receiverId`. The balances and
        the returned receipt or exception are exactly those of the reference
        `Transfer`; on success both holders are notified, the sender first,
        after both balances have changed; on failure no one is. */
    method TransferAmount(t: Transaction, transactionId: string) returns (r: Result<TransactionDetails>)
      requires Valid()
      modifies this, store.byId.Values
      ensures Valid() && store.byId == old(store.byId)
      ensures store.Balances() == Transfer(old(store.Balances()), t, transactionId).balances
      ensures r == Transfer(old(store.Balances()), t, transactionId).outcome
      ensures notices == old(notices) +
        if r.Success? then [Notice(t.senderId, Debited(t.amount)), Notice(t.receiverId, Credited(t.amount))]
        else []
    {
      ghost var before := store.Balances();
      var sender := store.GetAccount(t.senderId);
      if sender == null {
        return Failure(InvalidAccount(NotFoundMessage(t.senderId)));
      }
      var receiver := store.GetAccount(t.receiverId);
      if receiver == null {
        return Failure(InvalidAccount(NotFoundMessage(t.receiverId)));
      }
      if sender.accountId == receiver.accountId {
        return Failure(InvalidAccount(SameAccountMessage));
      }
      var debited := sender.Debit(t.amount);
      if debited.Fail? {
        assert store.Balances() == before;
        return Failure(debited.error);
      }
      receiver.Credit(t.amount);
      assert store.Balances() == before[t.senderId := before[t.senderId] - t.amount]
                                       [t.receiverId := before[t.receiverId] + t.amount];
      r := Success(TransactionDetails(transactionId, t, SuccessMessage));
      notices := notices + [Notice(sender.accountId, Debited(t.amount)), Notice(receiver.accountId, Credited(t.amount))];
    }
  }
}
