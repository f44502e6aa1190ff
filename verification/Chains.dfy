/** What the chain lends to a call, and the keepers that change it. */
module Chains {
  import opened Options
  import opened Authz
  import opened Bank

  datatype Event =
    | Approval(owner: Address, spender: Address, value: int)
    | Transferred(from: Address, to: Address, value: int)
    | TransferAuthorized(grantee: Address, granter: Address, allocations: seq<Allocation>)

  datatype Log = Log(emitter: Address, event: Event)

  /** The state the chain hands to a call: block time, grants, balances and the logs of the transaction. */
  class Chain {
    var now: int
    var grants: Store
    var balances: Balances
    var logs: seq<Log>

    constructor (now: int, grants: Store, balances: Balances)
      ensures this.now == now && this.grants == grants && this.balances == balances && logs == []
    {
      this.now, this.grants, this.balances, this.logs := now, grants, balances, [];
    }

    method SaveGrant(key: Key, auth: Authorization, expiration: Option<int>) returns (ok: bool)
      modifies this`grants
      ensures ok <==> Savable(expiration, now)
      ensures grants == if ok then old(grants)[key := Grant(auth, expiration)] else old(grants)
    {
      ok := Savable(expiration, now);
      if ok {
        grants := grants[key := Grant(auth, expiration)];
      }
    }

    method DeleteGrant(key: Key) returns (ok: bool)
      modifies this`grants
      ensures ok <==> key in old(grants)
      ensures grants == old(grants) - {key}
    {
      ok := key in grants;
      grants := grants - {key};
    }

    /** The bank's `Send`; `accepts` says whether it takes the denomination and the recipient. */
    method Send(from: Address, to: Address, d: string, amount: nat, accepts: bool) returns (ok: bool)
      modifies this`balances
      ensures ok <==> accepts && Balance(old(balances), from, d) >= amount
      ensures balances == if ok then Move(old(balances), from, to, d, amount) else old(balances)
      ensures ok ==> Moved(old(balances), balances, from, to, d, amount)
    {
      ok := accepts && Balance(balances, from, d) >= amount;
      if ok {
        MoveMoves(balances, from, to, d, amount);
        balances := balances[(from, d) := Balance(balances, from, d) - amount];
        balances := balances[(to, d) := Balance(balances, to, d) + amount];
      }
    }
  }
}
