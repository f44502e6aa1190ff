/** Staking authorizations: for each message type, a limit in the bond denomination or none at all. */
module Staking {
  import opened Options
  import opened Authz
  import opened Chains

  /** The message types this precompile handles; one of them cannot be increased. */
  predicate IsStaking(t: MsgType) {
    t.MsgDelegate? || t.MsgUndelegate? || t.MsgBeginRedelegate? || t.MsgCancelUnbondingDelegation?
  }

  predicate CanBeIncreased(t: MsgType) {
    IsStaking(t) && !t.MsgCancelUnbondingDelegation?
  }

  /** What a grantee may do: nothing, anything, or up to an amount. */
  datatype View = Absent | Unlimited | Limited(amount: nat)

  function ViewAt(grants: Store, now: int, key: Key): View {
    var g := Get(grants, key, now);
    if g.None? || !g.value.auth.Stake? then Absent
    else if g.value.auth.max.None? then Unlimited
    else Limited(g.value.auth.max.value)
  }

  // ---------------------------------------------------------------- one message type

  /** Zero deletes a grant, any other amount makes one. */
  predicate CanGrant(grants: Store, now: int, key: Key, amount: int, validators: seq<Address>, period: int) {
    && IsStaking(key.msg)
    && if amount == 0 then key in grants else validators != [] && Savable(Some(now + period), now)
  }

  /** The largest amount stands for no limit, by which a limit cannot be increased or decreased. */
  predicate CanIncrease(grants: Store, now: int, key: Key, amount: int) {
    && CanBeIncreased(key.msg)
    && match ViewAt(grants, now, key)
       case Absent => false
       case Unlimited => true
       case Limited(n) => amount != MAX_UINT256 && FitsUint256(n + amount) && Savable(grants[key].expiration, now)
  }

  predicate CanDecrease(grants: Store, now: int, key: Key, amount: int) {
    && IsStaking(key.msg)
    && match ViewAt(grants, now, key)
       case Absent => false
       case Unlimited => true
       case Limited(n) => amount != MAX_UINT256 && amount <= n && Savable(grants[key].expiration, now)
  }

  /** The grant covers a message and can be charged for it. */
  predicate CanUse(grants: Store, now: int, key: Key, amount: nat, validator: Address) {
    && (key in grants && grants[key].auth.Stake? && (grants[key].auth.validators == [] || validator in grants[key].auth.validators))
    && match ViewAt(grants, now, key)
       case Absent => false
       case Unlimited => Savable(grants[key].expiration, now)
       case Limited(n) => amount == n || (amount < n && Savable(grants[key].expiration, now))
  }

  // ---------------------------------------------------------------- many message types

  /** Grants for these types were made, without a limit for the largest amount, or deleted for zero; nothing else changed. */
  ghost predicate GrantedMany(g: Store, g': Store, granter: Address, grantee: Address, types: seq<MsgType>,
                              amount: nat, validators: seq<Address>, expiration: int)
  {
    && (forall t | t in types :: var k := Key(granter, grantee, t);
         if amount == 0 then k !in g'
         else && k in g' && g'[k].auth.Stake? && g'[k].expiration == Some(expiration) && g'[k].auth.validators == validators
              && g'[k].auth.max == (if amount == MAX_UINT256 then None else Some(amount)))
    && (forall k | !Named(k, granter, grantee, types) :: k in g' <==> k in g)
    && (forall k | !Named(k, granter, grantee, types) && k in g :: g'[k] == g[k])
  }

  ghost predicate Named(k: Key, granter: Address, grantee: Address, types: seq<MsgType>) {
    k.granter == granter && k.grantee == grantee && k.msg in types
  }

  function Times(n: nat, delta: int): int {
    n * delta
  }

  /** A limit moved by delta once for every time its type is named; no limit stays no limit. */
  ghost predicate Shifted(a: Grant, b: Grant, n: nat, delta: int) {
    && a.auth.Stake? && b.auth.Stake? && b.expiration == a.expiration && b.auth.validators == a.auth.validators
    && (b.auth.max.None? <==> a.auth.max.None?)
    && (a.auth.max.Some? ==> b.auth.max.value == a.auth.max.value + Times(n, delta))
  }

  ghost predicate ShiftedMany(g: Store, g': Store, granter: Address, grantee: Address, types: seq<MsgType>, delta: int)
  {
    && g'.Keys == g.Keys
    && (forall k | k in g && !Named(k, granter, grantee, types) :: g'[k] == g[k])
    && (forall k | k in g && Named(k, granter, grantee, types) :: Shifted(g[k], g'[k], multiset(types)[k.msg], delta))
  }

  /** All these types have a live grant. */
  ghost predicate AllLive(g: Store, now: int, granter: Address, grantee: Address, types: seq<MsgType>) {
    forall t | t in types :: !ViewAt(g, now, Key(granter, grantee, t)).Absent?
  }

  /** A shift makes no grant come or go. */
  lemma {:induction false} ShiftedView(g: Store, g': Store, granter: Address, grantee: Address, types: seq<MsgType>,
                                       delta: int, now: int, k: Key)
    requires ShiftedMany(g, g', granter, grantee, types, delta)
    ensures ViewAt(g', now, k).Absent? <==> ViewAt(g, now, k).Absent?
    ensures ViewAt(g', now, k).Unlimited? <==> ViewAt(g, now, k).Unlimited?
    ensures ViewAt(g, now, k).Limited? ==>
              ViewAt(g', now, k).amount == ViewAt(g, now, k).amount
                + (if Named(k, granter, grantee, types) then Times(multiset(types)[k.msg], delta) else 0)
  {
    hide Times;
    if k in g && Named(k, granter, grantee, types) {
      assert Shifted(g[k], g'[k], multiset(types)[k.msg], delta);
    }
  }

  lemma TimesNext(n: nat, delta: int)
    ensures Times(n + 1, delta) == Times(n, delta) + delta
    ensures Times(0, delta) == 0
  {}

  lemma {:induction false} ShiftedTwice(a: Grant, b: Grant, c: Grant, n: nat, delta: int)
    requires Shifted(a, b, n, delta) && Shifted(b, c, 1, delta)
    ensures Shifted(a, c, n + 1, delta)
  {
    hide Times;
    TimesNext(0, delta);
    TimesNext(n, delta);
  }

  lemma {:induction false} ShiftedNot(a: Grant, delta: int)
    requires a.auth.Stake?
    ensures Shifted(a, a, 0, delta)
  {
    hide Times;
    TimesNext(0, delta);
  }

  /** One more shift of one more type. */
  lemma {:induction false} ShiftedNext(g: Store, g1: Store, granter: Address, grantee: Address, types: seq<MsgType>,
                                       t: MsgType, delta: int, b: Grant)
    requires ShiftedMany(g, g1, granter, grantee, types, delta)
    requires Key(granter, grantee, t) in g1 && Shifted(g1[Key(granter, grantee, t)], b, 1, delta)
    ensures ShiftedMany(g, g1[Key(granter, grantee, t) := b], granter, grantee, types + [t], delta)
  {
    hide Shifted;
    var key := Key(granter, grantee, t);
    var g2 := g1[key := b];
    assert multiset(types + [t]) == multiset(types) + multiset{t};
    forall k | k in g && Named(k, granter, grantee, types + [t])
      ensures Shifted(g[k], g2[k], multiset(types + [t])[k.msg], delta)
    {
      if k == key {
        if t !in types {
          assert multiset(types)[t] == 0;
          StakeOnly(g1[key], b, delta);
          ShiftedNot(g1[key], delta);
        }
        ShiftedTwice(g[k], g1[k], b, multiset(types)[t], delta);
      } else {
        assert k.msg != t;
        assert Named(k, granter, grantee, types);
      }
    }
  }

  lemma StakeOnly(a: Grant, b: Grant, delta: int)
    requires Shifted(a, b, 1, delta)
    ensures a.auth.Stake?
  {}

  /** One more type granted. */
  lemma {:induction false} GrantedNext(g: Store, g1: Store, g2: Store, granter: Address, grantee: Address,
                                       types: seq<MsgType>, t: MsgType,
                                       amount: nat, validators: seq<Address>, expiration: int)
    requires GrantedMany(g, g1, granter, grantee, types, amount, validators, expiration)
    requires var k, max := Key(granter, grantee, t), if amount == MAX_UINT256 then None else Some(amount);
             g2 == if amount == 0 then g1 - {k} else g1[k := Grant(Stake(max, validators), Some(expiration))]
    ensures GrantedMany(g, g2, granter, grantee, types + [t], amount, validators, expiration)
  {
    forall k | !Named(k, granter, grantee, types + [t])
      ensures !Named(k, granter, grantee, types) && k != Key(granter, grantee, t)
    {
      assert t in types + [t];
      assert forall x | x in types :: x in types + [t];
    }
  }

  // ---------------------------------------------------------------- the precompile

  /** A message the staking module has executed; a redelegation has a source beside its validator. */
  datatype Staked = Staked(msg: MsgType, delegator: Address, amount: int, source: Option<Address>, validator: Address)

  /** `executed` are the messages of the transaction so far, `evm` the balances as the EVM will commit them. */
  class Precompile {
    const period: int
    const chain: Chain
    var executed: seq<Staked>
    var evm: map<Address, int>

    constructor (period: int, chain: Chain, evm: map<Address, int>)
      ensures this.period == period && this.chain == chain && executed == [] && this.evm == evm
    {
      this.period, this.chain, this.executed, this.evm := period, chain, [], evm;
    }

    /** `grantOrDeleteStakingAuthz`; the validators are those not jailed. */
    method GrantOrDelete(key: Key, coin: Option<nat>, validators: seq<Address>) returns (ok: bool)
      requires IsStaking(key.msg)
      modifies chain`grants
      ensures ok <==> if coin == Some(0) then key in old(chain.grants)
                      else validators != [] && Savable(Some(chain.now + period), chain.now)
      ensures chain.grants == if !ok then old(chain.grants)
                              else if coin == Some(0) then old(chain.grants) - {key}
                              else old(chain.grants)[key := Grant(Stake(coin, validators), Some(chain.now + period))]
    {
      if coin.Some? && coin.value == 0 {
        ok := chain.DeleteGrant(key);
      } else if validators == [] {
        ok := false;
      } else {
        ok := chain.SaveGrant(key, Stake(coin, validators), Some(chain.now + period));
      }
    }

    /** `approve`: goes through the types until one is refused. */
    method Approve(origin: Address, grantee: Address, amount: int, types: seq<MsgType>, validators: seq<Address>)
      returns (ok: bool, ghost done: nat)
      modifies chain`grants
      ensures done <= |types|
      ensures ok <==> FitsUint256(amount) && types != [] && done == |types|
      ensures FitsUint256(amount) ==>
                GrantedMany(old(chain.grants), chain.grants, origin, grantee, types[..done], amount, validators, chain.now + period)
      ensures FitsUint256(amount) ==> forall t | t in types[..done] ::
                ViewAt(chain.grants, chain.now, Key(origin, grantee, t)) ==
                if amount == MAX_UINT256 then Unlimited else if amount == 0 then Absent else Limited(amount)
      ensures !FitsUint256(amount) ==> chain.grants == old(chain.grants)
      ensures FitsUint256(amount) && done < |types| ==>
                !CanGrant(chain.grants, chain.now, Key(origin, grantee, types[done]), amount, validators, period)
    {
      hide GrantedMany;
      done := 0;
      if !FitsUint256(amount) {
        return false, 0;
      }
      var coin: Option<nat> := None;
      if amount != MAX_UINT256 {
        coin := Some(amount);
      }
      NothingGranted(chain.grants, origin, grantee, amount, validators, chain.now + period);
      if types == [] {
        return false, 0;
      }
      for i := 0 to |types|
        invariant done == i
        invariant GrantedMany(old(chain.grants), chain.grants, origin, grantee, types[..i], amount, validators, chain.now + period)
        invariant i > 0 && amount != 0 ==> period > 0
      {
        GrantedViews(old(chain.grants), chain.grants, origin, grantee, types[..i], amount, validators, chain.now, period);
        match types[i] {
          case MsgDelegate | MsgUndelegate | MsgBeginRedelegate | MsgCancelUnbondingDelegation =>
          case _ => return false, i;
        }
        ghost var before := chain.grants;
        var one := GrantOrDelete(Key(origin, grantee, types[i]), coin, validators);
        if !one {
          return false, i;
        }
        GrantedNext(old(chain.grants), before, chain.grants, origin, grantee, types[..i], types[i], amount, validators, chain.now + period);
        assert types[..i] + [types[i]] == types[..i + 1];
        done := i + 1;
      }
      GrantedViews(old(chain.grants), chain.grants, origin, grantee, types[..|types|], amount, validators, chain.now, period);
      ok := true;
    }

    /** `increaseAllowance`, one type. */
    method Increase(key: Key, coin: Option<nat>, ghost amount: int) returns (ok: bool)
      requires CanBeIncreased(key.msg) && FitsUint256(amount) && coin == (if amount == MAX_UINT256 then None else Some(amount))
      modifies chain`grants
      ensures ok <==> CanIncrease(old(chain.grants), chain.now, key, amount)
      ensures !ok ==> chain.grants == old(chain.grants)
      ensures ok ==>
                key in old(chain.grants) && key in chain.grants && chain.grants == old(chain.grants)[key := chain.grants[key]]
      ensures ok ==> Shifted(old(chain.grants)[key], chain.grants[key], 1, amount)
    {
      hide FitsUint256;
      var found := Get(chain.grants, key, chain.now);
      if found.None? || !found.value.auth.Stake? {
        return false;
      }
      var auth := found.value.auth;
      if auth.max.None? {
        return true;
      }
      if coin.None? || !FitsUint256(auth.max.value + coin.value) {
        return false;
      }
      ok := chain.SaveGrant(key, auth.(max := Some(auth.max.value + coin.value)), found.value.expiration);
    }

    /** `decreaseAllowance`, one type. */
    method Decrease(key: Key, coin: Option<nat>, ghost amount: int) returns (ok: bool)
      requires IsStaking(key.msg) && FitsUint256(amount) && coin == (if amount == MAX_UINT256 then None else Some(amount))
      modifies chain`grants
      ensures ok <==> CanDecrease(old(chain.grants), chain.now, key, amount)
      ensures !ok ==> chain.grants == old(chain.grants)
      ensures ok ==>
                key in old(chain.grants) && key in chain.grants && chain.grants == old(chain.grants)[key := chain.grants[key]]
      ensures ok ==> Shifted(old(chain.grants)[key], chain.grants[key], 1, -amount)
    {
      var found := Get(chain.grants, key, chain.now);
      if found.None? || !found.value.auth.Stake? {
        return false;
      }
      var auth := found.value.auth;
      if auth.max.None? {
        return true;
      }
      if coin.None? || auth.max.value < coin.value {
        return false;
      }
      ok := chain.SaveGrant(key, auth.(max := Some(auth.max.value - coin.value)), found.value.expiration);
    }

    /** `increaseAllowance`: goes through the types until one is refused. */
    method IncreaseAllowance(origin: Address, grantee: Address, amount: int, types: seq<MsgType>)
      returns (ok: bool, ghost done: nat)
      modifies chain`grants
      ensures done <= |types|
      ensures ok <==> FitsUint256(amount) && types != [] && done == |types|
      ensures !FitsUint256(amount) ==> chain.grants == old(chain.grants)
      ensures FitsUint256(amount) ==>
                ShiftedMany(old(chain.grants), chain.grants, origin, grantee, types[..done], amount)
      ensures AllLive(old(chain.grants), chain.now, origin, grantee, types[..done])
      ensures amount == MAX_UINT256 ==> forall t | t in types[..done] ::
                ViewAt(old(chain.grants), chain.now, Key(origin, grantee, t)).Unlimited?
      ensures FitsUint256(amount) ==> forall t | t in types[..done] ::
                ViewMoved(old(chain.grants), chain.grants, chain.now, Key(origin, grantee, t), multiset(types[..done])[t], amount)
      ensures FitsUint256(amount) && done < |types| ==>
                !CanIncrease(chain.grants, chain.now, Key(origin, grantee, types[done]), amount)
    {
      hide ShiftedMany, Shifted, ViewMoved;
      done := 0;
      if !FitsUint256(amount) {
        return false, 0;
      }
      var coin: Option<nat> := None;
      if amount != MAX_UINT256 {
        coin := Some(amount);
      }
      ghost var delta := amount;
      NothingShifted(chain.grants, origin, grantee, delta);
      if types == [] {
        return false, 0;
      }
      for i := 0 to |types|
        invariant done == i
        invariant ShiftedMany(old(chain.grants), chain.grants, origin, grantee, types[..i], delta)
        invariant AllLive(old(chain.grants), chain.now, origin, grantee, types[..i])
        invariant amount == MAX_UINT256 ==> forall t | t in types[..i] ::
                    ViewAt(old(chain.grants), chain.now, Key(origin, grantee, t)).Unlimited?
      {
        ShiftedViews(old(chain.grants), chain.grants, origin, grantee, types[..i], delta, chain.now);
        match types[i] {
          case MsgDelegate | MsgUndelegate | MsgBeginRedelegate =>
          case _ => return false, i;
        }
        ghost var before := chain.grants;
        var key := Key(origin, grantee, types[i]);
        var one := Increase(key, coin, amount);
        if !one {
          return false, i;
        }
        ShiftedView(old(chain.grants), before, origin, grantee, types[..i], delta, chain.now, key);
        ShiftedNext(old(chain.grants), before, origin, grantee, types[..i], types[i], delta, chain.grants[key]);
        assert types[..i] + [types[i]] == types[..i + 1];
        done := i + 1;
      }
      ShiftedViews(old(chain.grants), chain.grants, origin, grantee, types[..|types|], delta, chain.now);
      ok := true;
    }

    /** `decreaseAllowance`: goes through the types until one is refused. */
    method DecreaseAllowance(origin: Address, grantee: Address, amount: int, types: seq<MsgType>)
      returns (ok: bool, ghost done: nat)
      modifies chain`grants
      ensures done <= |types|
      ensures ok <==> FitsUint256(amount) && types != [] && done == |types|
      ensures !FitsUint256(amount) ==> chain.grants == old(chain.grants)
      ensures FitsUint256(amount) ==>
                ShiftedMany(old(chain.grants), chain.grants, origin, grantee, types[..done], -amount)
      ensures AllLive(old(chain.grants), chain.now, origin, grantee, types[..done])
      ensures amount == MAX_UINT256 ==> forall t | t in types[..done] ::
                ViewAt(old(chain.grants), chain.now, Key(origin, grantee, t)).Unlimited?
      ensures FitsUint256(amount) ==> forall t | t in types[..done] ::
                ViewMoved(old(chain.grants), chain.grants, chain.now, Key(origin, grantee, t), multiset(types[..done])[t], -amount)
      ensures FitsUint256(amount) && done < |types| ==>
                !CanDecrease(chain.grants, chain.now, Key(origin, grantee, types[done]), amount)
    {
      hide ShiftedMany, Shifted, ViewMoved;
      done := 0;
      if !FitsUint256(amount) {
        return false, 0;
      }
      var coin: Option<nat> := None;
      if amount != MAX_UINT256 {
        coin := Some(amount);
      }
      ghost var delta := -amount;
      NothingShifted(chain.grants, origin, grantee, delta);
      if types == [] {
        return false, 0;
      }
      for i := 0 to |types|
        invariant done == i
        invariant ShiftedMany(old(chain.grants), chain.grants, origin, grantee, types[..i], delta)
        invariant AllLive(old(chain.grants), chain.now, origin, grantee, types[..i])
        invariant amount == MAX_UINT256 ==> forall t | t in types[..i] ::
                    ViewAt(old(chain.grants), chain.now, Key(origin, grantee, t)).Unlimited?
      {
        ShiftedViews(old(chain.grants), chain.grants, origin, grantee, types[..i], delta, chain.now);
        match types[i] {
          case MsgDelegate | MsgUndelegate | MsgBeginRedelegate | MsgCancelUnbondingDelegation =>
          case _ => return false, i;
        }
        ghost var before := chain.grants;
        var key := Key(origin, grantee, types[i]);
        var one := Decrease(key, coin, amount);
        if !one {
          return false, i;
        }
        ShiftedView(old(chain.grants), before, origin, grantee, types[..i], delta, chain.now, key);
        ShiftedNext(old(chain.grants), before, origin, grantee, types[..i], types[i], delta, chain.grants[key]);
        assert types[..i] + [types[i]] == types[..i + 1];
        done := i + 1;
      }
      ShiftedViews(old(chain.grants), chain.grants, origin, grantee, types[..|types|], delta, chain.now);
      ok := true;
    }

    /** `UpdateStakingAuthorization` after `Accept`: what is left of the limit, or no grant. */
    method Update(key: Key, auth: Authorization, expiration: Option<int>, amount: nat, validator: Address)
      returns (ok: bool)
      requires amount > 0 && auth.Stake? && (auth.max.Some? ==> amount <= auth.max.value)
      requires Get(chain.grants, key, chain.now) == Some(Grant(auth, expiration))
      modifies chain`grants
      ensures ok <==> CanUse(old(chain.grants), chain.now, key, amount, validator)
      ensures chain.grants == if ok then Used(old(chain.grants), key, amount) else old(chain.grants)
    {
      if auth.validators != [] && validator !in auth.validators {
        return false;
      }
      if auth.max.Some? && auth.max.value - amount == 0 {
        ok := chain.DeleteGrant(key);
      } else {
        var updated := if auth.max.Some? then auth.(max := Some(auth.max.value - amount)) else auth;
        ok := chain.SaveGrant(key, updated, expiration);
      }
    }

    /**
     `Delegate`, `Undelegate`, `Redelegate` and `CancelUnbondingDelegation`: check the grant, have
     the staking module execute the message (`accepts` if it does), then charge the grant. If that
     fails, the message has been executed and the call relies on being rolled back.
     */
    method Execute(t: MsgType, origin: Address, caller: Address, delegator: Address, amount: int,
                   source: Option<Address>, validator: Address, accepts: bool)
      returns (ok: bool)
      requires IsStaking(t)
      modifies chain`grants, this`executed, this`evm
      ensures var key, now := Key(origin, caller, t), chain.now;
              && (ok <==> && accepts && Permitted(old(chain.grants), now, key, delegator, amount)
                          && (caller == origin || CanUse(old(chain.grants), now, key, amount, validator)))
              && chain.grants == (if ok && caller != origin then Used(old(chain.grants), key, amount) else old(chain.grants))
              && executed == (if accepts && Permitted(old(chain.grants), now, key, delegator, amount)
                              then old(executed) + [Staked(t, delegator, amount, source, validator)] else old(executed))
      ensures evm == if ok && t.MsgDelegate? && caller == delegator
                     then old(evm)[caller := (if caller in old(evm) then old(evm)[caller] else 0) - amount] else old(evm)
    {
      hide Used;
      if amount <= 0 {
        return false;
      }
      if caller != delegator && origin != delegator {
        return false;
      }
      var key := Key(origin, caller, t);
      var found := Get(chain.grants, key, chain.now);
      if caller != origin {
        if found.None? || !found.value.auth.Stake? {
          return false;
        }
        if found.value.auth.max.Some? && amount > found.value.auth.max.value {
          return false;
        }
      }
      if !accepts {
        return false;
      }
      executed := executed + [Staked(t, delegator, amount, source, validator)];
      ok := true;
      if caller != origin {
        ok := Update(key, found.value.auth, found.value.expiration, amount, validator);
      }
      if ok && t.MsgDelegate? && caller == delegator {
        var balance := 0;
        if caller in evm {
          balance := evm[caller];
        }
        evm := evm[caller := balance - amount];
      }
    }
  }

  /** The checks before execution: a delegator who is the caller or the origin, and a limit that is not exceeded. */
  predicate Permitted(grants: Store, now: int, key: Key, delegator: Address, amount: int) {
    var origin, caller := key.granter, key.grantee;
    && amount > 0 && (caller == delegator || origin == delegator)
    && (caller == origin ||
        match ViewAt(grants, now, key)
        case Absent => false
        case Unlimited => true
        case Limited(n) => amount <= n)
  }

  /** The grant after a message: without a limit as it was, otherwise less the amount and deleted at zero. */
  function Used(grants: Store, key: Key, amount: nat): Store {
    if key !in grants || !grants[key].auth.Stake? || grants[key].auth.max.None? then grants
    else if grants[key].auth.max.value <= amount then grants - {key}
    else grants[key := grants[key].(auth := grants[key].auth.(max := Some(grants[key].auth.max.value - amount)))]
  }

  lemma NothingShifted(g: Store, granter: Address, grantee: Address, delta: int)
    ensures ShiftedMany(g, g, granter, grantee, [], delta)
  {}

  /** What a use leaves: the same grant with less, or none, and every other grant as it was. */
  lemma {:induction false} UsedKeeps(grants: Store, now: int, key: Key, amount: nat, validator: Address, t: int)
    requires CanUse(grants, now, key, amount, validator)
    ensures var g := Used(grants, key, amount);
            && (forall k | k != key :: (k in g <==> k in grants) && (k in g ==> g[k] == grants[k]))
            && (key in g ==> g[key].expiration == grants[key].expiration && g[key].auth.Stake?
                             && g[key].auth.validators == grants[key].auth.validators)
            && ViewAt(g, now, key) == match ViewAt(grants, now, key)
                                      case Limited(n) => if n == amount then Absent else Limited(n - amount)
                                      case v => v
  {}

  lemma NothingGranted(g: Store, granter: Address, grantee: Address, amount: nat, validators: seq<Address>, expiration: int)
    ensures GrantedMany(g, g, granter, grantee, [], amount, validators, expiration)
  {}

  /** The views of the types an approval went through. */
  lemma {:induction false} GrantedViews(g: Store, g': Store, granter: Address, grantee: Address, types: seq<MsgType>,
                                        amount: nat, validators: seq<Address>, now: int, period: int)
    requires GrantedMany(g, g', granter, grantee, types, amount, validators, now + period)
    requires types != [] && amount != 0 ==> period > 0
    ensures forall t | t in types ::
              ViewAt(g', now, Key(granter, grantee, t)) ==
              if amount == MAX_UINT256 then Unlimited else if amount == 0 then Absent else Limited(amount)
  {}

  /** A limit named n times moves by n times delta, and every other view stays. */
  ghost predicate ViewMoved(g: Store, g': Store, now: int, key: Key, n: nat, delta: int) {
    match ViewAt(g, now, key)
    case Absent => ViewAt(g', now, key).Absent?
    case Unlimited => ViewAt(g', now, key).Unlimited?
    case Limited(m) => ViewAt(g', now, key).Limited? && ViewAt(g', now, key).amount == m + n * delta
  }

  lemma {:induction false} ShiftedViews(g: Store, g': Store, granter: Address, grantee: Address, types: seq<MsgType>,
                                        delta: int, now: int)
    requires ShiftedMany(g, g', granter, grantee, types, delta)
    ensures forall t | t in types :: ViewMoved(g, g', now, Key(granter, grantee, t), multiset(types)[t], delta)
  {
    hide ViewAt, ShiftedMany;
    forall t | t in types
      ensures ViewMoved(g, g', now, Key(granter, grantee, t), multiset(types)[t], delta)
    {
      ShiftedView(g, g', granter, grantee, types, delta, now, Key(granter, grantee, t));
    }
  }
}
