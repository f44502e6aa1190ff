/** Authorizations one account has granted to another, by message type, each with an optional expiry. */
module Authz {
  import opened Options
  import opened Arith
  import opened Coins

  type Address = nat

  /** One IBC channel, what may be sent over it and to whom. */
  datatype Allocation = Allocation(port: string, channel: string, limit: seq<Coin>, allowed: seq<string>)

  datatype Authorization =
    | Send(limit: seq<Coin>, allowed: seq<Address>)
    | Transfer(allocations: seq<Allocation>)
    | Stake(max: Option<nat>, validators: seq<Address>)
    | Generic

  datatype Grant = Grant(auth: Authorization, expiration: Option<int>)

  datatype MsgType = MsgSend | MsgTransfer | MsgDelegate | MsgUndelegate | MsgBeginRedelegate | MsgCancelUnbondingDelegation

  datatype Key = Key(granter: Address, grantee: Address, msg: MsgType)

  type Store = map<Key, Grant>

  predicate Expired(g: Grant, now: int) {
    g.expiration.Some? && g.expiration.value < now
  }

  /** `GetAuthorization`: an expired grant is as good as none. */
  function Get(grants: Store, key: Key, now: int): Option<Grant> {
    if key in grants && !Expired(grants[key], now) then Some(grants[key]) else None
  }

  /** `SaveGrant` refuses an expiry that is not in the future. */
  predicate Savable(expiration: Option<int>, now: int) {
    expiration.Some? ==> expiration.value > now
  }

  /** What a 256-bit unsigned integer can hold. */
  predicate FitsUint256(a: int) {
    0 <= a < 0x1_0000000000000000_0000000000000000_0000000000000000_0000000000000000
  }

  /** The bounds are those of 256 bits. */
  lemma {:induction false} Uint256(a: int)
    ensures FitsUint256(a) <==> 0 <= a < Pow2(256)
    ensures MAX_UINT256 == Pow2(256) - 1
  {
    Pow2Values();
    Pow2Add(64, 64);
    Pow2Add(128, 128);
  }

  const MAX_UINT256 := 0xffffffffffffffff_ffffffffffffffff_ffffffffffffffff_ffffffffffffffff
}
