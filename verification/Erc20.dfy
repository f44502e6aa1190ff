/** The ERC-20 face of a bank denomination: allowances kept as authorizations to send. */
module Erc20 {
  import opened Options
  import opened Coins
  import opened Authz
  import opened Bank
  import opened Allowances
  import opened Chains

  // ---------------------------------------------------------------- one grant replaced or deleted

  /** Writing a live grant back with another amount of the token changes that allowance only. */
  lemma {:induction false} GrantUpdated(grants: Store, now: int, token: Token, owner: Address, spender: Address,
                                        limit: seq<Coin>, a: int)
    requires ValidStore(grants) && HasSend(grants, now, owner, spender) && FitsUint256(a)
    requires var before := grants[SendKey(owner, spender)].auth.limit;
             Valid(limit) && limit != [] &&
             forall d :: AmountOf(limit, d) == if d == token.denom then a else AmountOf(before, d)
    ensures var k := SendKey(owner, spender);
            var grants' := grants[k := grants[k].(auth := grants[k].auth.(limit := limit))];
            ValidStore(grants') && AllowanceSet(grants, grants', now, token, owner, spender, a)
  {
    hide Valid, AmountOf;
  }

  /** Deleting a live grant that has nothing but the token takes that allowance to zero. */
  lemma {:induction false} GrantDeleted(grants: Store, now: int, token: Token, owner: Address, spender: Address)
    requires ValidStore(grants) && HasSend(grants, now, owner, spender)
    requires forall d | d != token.denom :: AmountOf(grants[SendKey(owner, spender)].auth.limit, d) == 0
    ensures var grants' := grants - {SendKey(owner, spender)};
            ValidStore(grants') && AllowanceSet(grants, grants', now, token, owner, spender, 0)
  {
    hide Valid, AmountOf;
  }

  /** A new grant replaces nothing that still counted. */
  lemma {:induction false} GrantCreated(grants: Store, now: int, token: Token, owner: Address, spender: Address, a: int)
    requires ValidStore(grants) && NoGrant(grants, now, owner, spender) && a > 0 && FitsUint256(a)
    ensures var grants' := grants[SendKey(owner, spender) := Grant(Send([Coin(token.denom, a)], []), Some(now + token.period))];
            ValidStore(grants') && AllowanceSet(grants, grants', now, token, owner, spender, a)
  {
    assert forall d :: AmountOf([Coin(token.denom, a)], d) == if d == token.denom then a else 0;
  }

  /** No grant and nothing done: the allowance is zero. */
  lemma {:induction false} NothingGranted(grants: Store, now: int, token: Token, owner: Address, spender: Address)
    requires NoGrant(grants, now, owner, spender)
    ensures AllowanceSet(grants, grants, now, token, owner, spender, 0)
  {}

  lemma SetNow(grants: Store, grants': Store, now: int, token: Token, owner: Address, spender: Address, a: int)
    requires AllowanceSet(grants, grants', now, token, owner, spender, a)
    requires a == 0 || HasSend(grants, now, owner, spender) || token.period >= 0
    ensures AllowanceAt(grants', now, owner, spender, token.denom) == a
  {
    hide AllowanceAt;
  }

  lemma AllowanceBounded(grants: Store, now: int, owner: Address, spender: Address, d: string)
    requires ValidStore(grants)
    ensures FitsUint256(AllowanceAt(grants, now, owner, spender, d))
  {
    hide AmountOf, ValidStore;
    if HasSend(grants, now, owner, spender) {
      LimitBounded(grants, SendKey(owner, spender), d);
    }
  }

  class Precompile {
    const token: Token
    const chain: Chain

    constructor (token: Token, chain: Chain)
      ensures this.token == token && this.chain == chain
    {
      this.token, this.chain := token, chain;
    }

    method CreateAuthorization(owner: Address, spender: Address, amount: int) returns (ok: bool)
      requires amount > 0 && ValidStore(chain.grants) && NoGrant(chain.grants, chain.now, owner, spender)
      modifies chain`grants
      ensures ok <==> FitsUint256(amount) && Writable(old(chain.grants), chain.now, token, owner, spender)
      ensures ok ==>
                ValidStore(chain.grants) && AllowanceSet(old(chain.grants), chain.grants, chain.now, token, owner, spender, amount)
      ensures !ok ==> chain.grants == old(chain.grants)
    {
      hide ValidStore, AllowanceSet, FitsUint256;
      if !FitsUint256(amount) {
        return false;
      }
      GrantCreated(chain.grants, chain.now, token, owner, spender, amount);
      var coins := [Coin(token.denom, amount)];
      ok := chain.SaveGrant(Key(owner, spender, MsgSend), Authorization.Send(coins, []), Some(chain.now + token.period));
    }

    method UpdateAuthorization(owner: Address, spender: Address, amount: int, auth: Authorization,
                               expiration: Option<int>)
      returns (ok: bool)
      requires amount > 0 && ValidStore(chain.grants)
      requires auth.Send? && Get(chain.grants, Key(owner, spender, MsgSend), chain.now) == Some(Grant(auth, expiration))
      modifies chain`grants
      ensures ok <==> FitsUint256(amount) && Writable(old(chain.grants), chain.now, token, owner, spender)
      ensures ok ==>
                ValidStore(chain.grants) && AllowanceSet(old(chain.grants), chain.grants, chain.now, token, owner, spender, amount)
      ensures !ok ==> chain.grants == old(chain.grants)
    {
      hide AllowanceSet, FitsUint256, Valid, AmountOf;
      if !FitsUint256(amount) {
        return false;
      }
      assert ValidAuth(chain.grants[Key(owner, spender, MsgSend)].auth);
      var limit := UpdateOrAddCoin(auth.limit, Coin(token.denom, amount));
      GrantUpdated(chain.grants, chain.now, token, owner, spender, limit, amount);
      ok := chain.SaveGrant(Key(owner, spender, MsgSend), auth.(limit := limit), expiration);
    }

    method RemoveSpendLimitOrDeleteAuthorization(owner: Address, spender: Address, auth: Authorization,
                                                 expiration: Option<int>)
      returns (ok: bool)
      requires ValidStore(chain.grants)
      requires Get(chain.grants, Key(owner, spender, MsgSend), chain.now) == Some(Grant(auth, expiration))
      modifies chain`grants
      ensures ok <==> CanRemove(old(chain.grants), chain.now, token, owner, spender)
      ensures ok ==>
                ValidStore(chain.grants) && AllowanceSet(old(chain.grants), chain.grants, chain.now, token, owner, spender, 0)
      ensures !ok ==> chain.grants == old(chain.grants)
    {
      hide AllowanceSet, Valid, AmountOf, Set;
      if !auth.Send? {
        return false;
      }
      assert ValidAuth(chain.grants[Key(owner, spender, MsgSend)].auth);
      AmountNonNegative(auth.limit, token.denom);
      if AmountOf(auth.limit, token.denom) == 0 {
        return false;
      }
      var limit := Set(auth.limit, token.denom, 0);
      SetAmounts(auth.limit, token.denom, 0);
      EmptyAmounts(limit);
      if limit == [] {
        assert forall d | d != token.denom :: AmountOf(auth.limit, d) == AmountOf(limit, d) == 0;
        assert OnlyDenom(chain.grants, chain.now, owner, spender, token.denom);
        GrantDeleted(chain.grants, chain.now, token, owner, spender);
        ok := chain.DeleteGrant(Key(owner, spender, MsgSend));
      } else {
        assert AllowanceAt(chain.grants, chain.now, owner, spender, limit[0].denom) == AmountOf(auth.limit, limit[0].denom) != 0;
        GrantUpdated(chain.grants, chain.now, token, owner, spender, limit, 0);
        ok := chain.SaveGrant(Key(owner, spender, MsgSend), auth.(limit := limit), expiration);
      }
    }

    /** `DispatchActions` of one bank send under a live send authorization: charge the grant, then send. */
    method DispatchSend(owner: Address, spender: Address, to: Address, amount: nat, accepts: bool) returns (ok: bool)
      requires ValidStore(chain.grants) && HasSend(chain.grants, chain.now, owner, spender) && amount > 0
      modifies chain`grants, chain`balances
      ensures ValidStore(chain.grants)
      ensures ok <==> && CanSpend(old(chain.grants), chain.now, token, owner, spender, to, amount)
                      && accepts && Balance(old(chain.balances), owner, token.denom) >= amount
      ensures Charged(old(chain.grants), chain.grants, chain.now, token, owner, spender, to, amount)
      ensures chain.balances == if ok then Move(old(chain.balances), owner, to, token.denom, amount) else old(chain.balances)
      ensures ok ==> Moved(old(chain.balances), chain.balances, owner, to, token.denom, amount)
    {
      hide AllowanceSet, Valid, AmountOf, Set;
      var key := Key(owner, spender, MsgSend);
      var auth := chain.grants[key].auth;
      LimitBounded(chain.grants, key, token.denom);
      assert ValidAuth(auth);
      if AmountOf(auth.limit, token.denom) < amount {
        return false;
      }
      if auth.allowed != [] && to !in auth.allowed {
        return false;
      }
      var left := AmountOf(auth.limit, token.denom) - amount;
      var limit := Set(auth.limit, token.denom, left);
      SetAmounts(auth.limit, token.denom, left);
      EmptyAmounts(limit);
      if limit == [] {
        assert AmountOf(limit, token.denom) == 0;
        assert forall d | d != token.denom :: AmountOf(auth.limit, d) == AmountOf(limit, d) == 0;
        GrantDeleted(chain.grants, chain.now, token, owner, spender);
        chain.grants := chain.grants - {key};
      } else {
        GrantUpdated(chain.grants, chain.now, token, owner, spender, limit, left);
        chain.grants := chain.grants[key := chain.grants[key].(auth := auth.(limit := limit))];
      }
      ok := chain.Send(owner, to, token.denom, amount, accepts);
    }

    method EmitApprovalEvent(owner: Address, spender: Address, value: int)
      modifies chain`logs
      ensures chain.logs == old(chain.logs) + [Log(token.address, Approval(owner, spender, value))]
    {
      chain.logs := chain.logs + [Log(token.address, Approval(owner, spender, value))];
    }

    /** `approve`: the allowance becomes the amount, or zero if that is negative. */
    method Approve(caller: Address, spender: Address, amount: int) returns (ok: bool)
      requires ValidStore(chain.grants)
      modifies chain`grants, chain`logs
      ensures ApproveStep(old(chain.grants), chain.grants, chain.now, token, caller, spender, amount, ok)
      ensures ValidStore(chain.grants)
      ensures chain.logs == old(chain.logs) +
              if ok then [Log(token.address, Approval(token.address, spender, amount))] else []
    {
      hide ValidStore, AllowanceSet, FitsUint256, CanRemove;
      if spender == caller {
        return false;
      }
      var found := Get(chain.grants, Key(caller, spender, MsgSend), chain.now);
      ok := true;
      if found.None? && amount < 0 {
        ok := false;
      } else if found.None? && amount > 0 {
        ok := CreateAuthorization(caller, spender, amount);
      } else if found.Some? && amount <= 0 {
        ok := RemoveSpendLimitOrDeleteAuthorization(caller, spender, found.value.auth, found.value.expiration);
      } else if found.Some? && amount > 0 {
        if !found.value.auth.Send? {
          return false;
        }
        ok := UpdateAuthorization(caller, spender, amount, found.value.auth, found.value.expiration);
      } else {
        NothingGranted(chain.grants, chain.now, token, caller, spender);
      }
      if ok {
        EmitApprovalEvent(token.address, spender, amount);
      }
    }

    /** `increaseAllowance`: the allowance grows by exactly the added value. */
    method IncreaseAllowance(caller: Address, spender: Address, added: int) returns (ok: bool)
      requires ValidStore(chain.grants)
      modifies chain`grants, chain`logs
      ensures IncreaseStep(old(chain.grants), chain.grants, chain.now, token, caller, spender, added, ok)
      ensures ValidStore(chain.grants)
      ensures chain.logs == old(chain.logs) +
              if !ok then []
              else [Log(token.address, Approval(token.address, spender,
                                                AllowanceAt(chain.grants, chain.now, caller, spender, token.denom)))]
    {
      hide ValidStore, AllowanceSet, AmountOf;
      if spender == caller {
        return false;
      }
      var found := Get(chain.grants, Key(caller, spender, MsgSend), chain.now);
      var amount := 0;
      if added <= 0 {
        return false;
      } else if found.None? {
        amount := added;
        ok := CreateAuthorization(caller, spender, added);
      } else {
        if !found.value.auth.Send? {
          return false;
        }
        LimitBounded(chain.grants, Key(caller, spender, MsgSend), token.denom);
        amount := AmountOf(found.value.auth.limit, token.denom) + added;
        if !FitsUint256(amount) {
          return false;
        }
        ok := UpdateAuthorization(caller, spender, amount, found.value.auth, found.value.expiration);
      }
      if ok {
        SetNow(old(chain.grants), chain.grants, chain.now, token, caller, spender, amount);
        EmitApprovalEvent(token.address, spender, amount);
      }
    }

    /** `decreaseAllowance`: the allowance shrinks by exactly the subtracted value. */
    method DecreaseAllowance(caller: Address, spender: Address, subtracted: int) returns (ok: bool)
      requires ValidStore(chain.grants)
      modifies chain`grants, chain`logs
      ensures DecreaseStep(old(chain.grants), chain.grants, chain.now, token, caller, spender, subtracted, ok)
      ensures ValidStore(chain.grants)
      ensures chain.logs == old(chain.logs) +
              if !ok then []
              else [Log(token.address, Approval(token.address, spender,
                                                AllowanceAt(chain.grants, chain.now, caller, spender, token.denom)))]
    {
      hide ValidStore, AllowanceSet, CanRemove, AmountOf;
      if spender == caller {
        return false;
      }
      var found := Get(chain.grants, Key(caller, spender, MsgSend), chain.now);
      if subtracted <= 0 || found.None? || !found.value.auth.Send? {
        return false;
      }
      LimitBounded(chain.grants, Key(caller, spender, MsgSend), token.denom);
      var allowance := AmountOf(found.value.auth.limit, token.denom);
      var amount := 0;
      if subtracted < allowance {
        amount := allowance - subtracted;
        ok := UpdateAuthorization(caller, spender, amount, found.value.auth, found.value.expiration);
      } else if subtracted == allowance {
        ok := RemoveSpendLimitOrDeleteAuthorization(caller, spender, found.value.auth, found.value.expiration);
      } else {
        return false;
      }
      if ok {
        SetNow(old(chain.grants), chain.grants, chain.now, token, caller, spender, amount);
        EmitApprovalEvent(token.address, spender, amount);
      }
    }

    method EmitTransferEvent(from: Address, to: Address, value: int)
      modifies chain`logs
      ensures chain.logs == old(chain.logs) + [Log(token.address, Transferred(from, to, value))]
    {
      chain.logs := chain.logs + [Log(token.address, Transferred(from, to, value))];
    }

    /**
     `transfer` and `transferFrom`: owners send directly, others under their allowance. If the
     bank refuses a send the grant covers, the charge stands until the transaction is rolled back.
     */
    method Transfer(isTransferFrom: bool, caller: Address, from: Address, to: Address, amount: int, accepts: bool)
      returns (ok: bool)
      requires ValidStore(chain.grants)
      modifies chain`grants, chain`balances, chain`logs
      ensures ValidStore(chain.grants)
      ensures TransferStep(old(chain.grants), chain.grants, old(chain.balances), chain.balances, chain.now, token,
                           caller, from, to, amount, accepts, ok)
      ensures ok ==> Moved(old(chain.balances), chain.balances, from, to, token.denom, amount)
      ensures chain.logs == old(chain.logs) +
              (if ok then [Log(token.address, Transferred(from, to, amount))] else []) +
              (if ok && isTransferFrom
               then [Log(token.address, Approval(from, caller, AllowanceQuery(chain.grants, chain.now, from, caller, token.denom)))]
               else [])
    {
      hide ValidStore, AllowanceSet, AmountOf;
      AllowanceBounded(chain.grants, chain.now, from, caller, token.denom);
      if amount <= 0 || !FitsUint256(amount) {
        return false;
      }
      var prevAllowance := 0;
      if caller == from {
        ok := chain.Send(from, to, token.denom, amount, accepts);
      } else {
        var found := Get(chain.grants, Key(from, caller, MsgSend), chain.now);
        if found.None? || !found.value.auth.Send? {
          return false;
        }
        prevAllowance := AmountOf(found.value.auth.limit, token.denom);
        ok := DispatchSend(from, caller, to, amount, accepts);
      }
      if !ok {
        return false;
      }
      EmitTransferEvent(from, to, amount);
      if !isTransferFrom {
        return true;
      }
      var newAllowance := if caller == from then MAX_UINT256 else prevAllowance - amount;
      if caller != from {
        SetNow(old(chain.grants), chain.grants, chain.now, token, from, caller, newAllowance);
      }
      EmitApprovalEvent(from, caller, newAllowance);
    }
  }

  lemma LimitBounded(grants: Store, k: Key, d: string)
    requires ValidStore(grants) && k in grants && grants[k].auth.Send?
    ensures FitsUint256(AmountOf(grants[k].auth.limit, d))
  {
    hide AmountOf;
    assert ValidAuth(grants[k].auth);
  }
}
