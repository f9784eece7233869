/** The account store the transfer service looks accounts up in: a map from
    account id to the one `Account` object registered under it. Lookup of an
    unknown id yields `null`, as the service's account lookup does. */
module Store {
  import opened Domain

  class AccountStore {
    var byId: map<string, Account>

    /** Every account is registered under its own id. Since ids are fixed,
        two different keys never share one account object. */
    ghost predicate Valid()
      reads this
    {
      forall id :: id in byId ==> byId[id].accountId == id
    }

    /** The balance of every registered account, by id. */
    ghost function Balances(): (m: map<string, int>)
      reads this, byId.Values
      ensures m.Keys == byId.Keys
    {
      map id | id in byId :: byId[id].balance
    }

    /** An empty store. */
    constructor ()
      ensures Valid() && byId == map[]
    {
      byId := map[];
    }

    /** The account registered under `id`, or `null` when there is none. */
    function GetAccount(id: string): (a: Account?)
      reads this
      requires Valid()
      ensures a == null <==> id !in byId
      ensures a != null ==> a.accountId == id && a in byId.Values
    {
      if id in byId then byId[id] else null
    }

    /** Registers `account` under its id; an id already present is refused
        and the store is left as it was. */
    method CreateAccount(account: Account) returns (created: bool)
      requires Valid()
      modifies this
      ensures Valid()
      ensures created <==> account.accountId !in old(byId)
      ensures byId == if created then old(byId)[account.accountId := account] else old(byId)
    {
      created := account.accountId !in byId;
      if created {
        byId := byId[account.accountId := account];
      }
    }
  }
}
