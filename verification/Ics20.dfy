/** Transfer authorizations: per IBC channel spend limits that are increased and decreased in place. */
module Ics20 {
  import opened Options
  import opened Coins
  import opened Authz
  import opened Chains

  predicate Matches(a: Allocation, port: string, channel: string) {
    a.port == port && a.channel == channel
  }

  /** The first allocation of a channel; their number if there is none. */
  function First(allocs: seq<Allocation>, port: string, channel: string): (i: nat)
    ensures i <= |allocs| && (i < |allocs| ==> allocs[i].port == port && allocs[i].channel == channel)
    ensures forall j | 0 <= j < i :: allocs[j].port != port || allocs[j].channel != channel
  {
    if allocs == [] || Matches(allocs[0], port, channel) then 0
    else
      var i := First(allocs[1..], port, channel);
      assert forall j | 1 <= j < i + 1 :: allocs[j] == allocs[1..][j - 1];
      i + 1
  }

  /** What may be sent of a denomination over a channel. */
  function Allowed(allocs: seq<Allocation>, port: string, channel: string, d: string): int {
    var i := First(allocs, port, channel);
    if i < |allocs| then AmountOf(allocs[i].limit, d) else 0
  }

  ghost predicate ValidAllocations(allocs: seq<Allocation>) {
    forall i | 0 <= i < |allocs| :: Valid(allocs[i].limit)
  }

  ghost predicate ValidStore(grants: Store) {
    forall k | k in grants && grants[k].auth.Transfer? :: ValidAllocations(grants[k].auth.allocations)
  }

  /** The channel's limit has amount a of d; its other coins and all other allocations are as before. */
  ghost predicate AllowedSet(allocs: seq<Allocation>, allocs': seq<Allocation>, port: string, channel: string,
                             d: string, a: int)
  {
    var i := First(allocs, port, channel);
    && i < |allocs| == |allocs'|
    && allocs' == allocs[i := allocs'[i]]
    && allocs'[i] == allocs[i].(limit := allocs'[i].limit)
    && Valid(allocs'[i].limit)
    && forall d' :: AmountOf(allocs'[i].limit, d') == if d' == d then a else AmountOf(allocs[i].limit, d')
  }

  // ---------------------------------------------------------------- checkAllocationExists

  method CheckAllocationExists(allocs: seq<Allocation>, port: string, channel: string, d: string)
    returns (found: bool, amount: int, idx: nat)
    requires ValidAllocations(allocs)
    ensures found <==> Allowed(allocs, port, channel, d) > 0
    ensures found ==> idx == First(allocs, port, channel) < |allocs| && amount == Allowed(allocs, port, channel, d)
  {
    hide Valid, AmountOf;
    for i := 0 to |allocs|
      invariant forall j | 0 <= j < i :: allocs[j].port != port || allocs[j].channel != channel
    {
      if allocs[i].port != port || allocs[i].channel != channel {
        continue;
      }
      AmountNonNegative(allocs[i].limit, d);
      amount := AmountOf(allocs[i].limit, d);
      return amount != 0, amount, i;
    }
    return false, 0, 0;
  }

  // ---------------------------------------------------------------- deleting while ranging

  /** `append(a[:i], a[i+1:]...)` on the first n elements: they move down, the last cell keeps its value. */
  method Delete(a: array<Coin>, i: nat, n: nat)
    requires i < n <= a.Length
    modifies a
    ensures a[..] == old(a[..i]) + old(a[i + 1..n]) + old(a[n - 1..])
  {
    var j := i + 1;
    while j < n
      invariant i + 1 <= j <= n
      invariant forall k | 0 <= k < i :: a[k] == old(a[k])
      invariant forall k | i <= k < j - 1 :: a[k] == old(a[k + 1])
      invariant forall k | j - 1 <= k < a.Length :: a[k] == old(a[k])
    {
      a[j - 1] := a[j];
      j := j + 1;
    }
    assert a[..] == old(a[..i]) + old(a[i + 1..n]) + old(a[n - 1..]);
  }

  /**
   The loop of `DecreaseAllowance` over a spend limit. The range was fixed when the loop began,
   so after a deletion it goes on over the shifted cells, and ends on a last cell that is no
   longer part of the limit.
   */
  method DecreaseLimit(limit: seq<Coin>, d: string, expense: nat) returns (r: seq<Coin>)
    requires Valid(limit) && AmountOf(limit, d) >= expense
    ensures Valid(r)
    ensures forall d' :: AmountOf(r, d') == AmountOf(limit, d') - if d' == d then expense else 0
  {
    hide Valid, AmountOf, Set;
    SetAmounts(limit, d, AmountOf(limit, d) - expense);
    r := DecreaseInPlace(limit, d, expense);
  }

  method DecreaseInPlace(limit: seq<Coin>, d: string, expense: nat) returns (r: seq<Coin>)
    requires Valid(limit) && AmountOf(limit, d) >= expense
    ensures r == Set(limit, d, AmountOf(limit, d) - expense)
  {
    hide Valid, AmountOf, Set;
    var cells := new Coin[|limit|](i requires 0 <= i < |limit| => limit[i]);
    assert cells[..] == limit;
    var n := |limit|;
    ghost var done := false;
    for i := 0 to |limit|
      invariant 0 <= n <= |limit| && cells.Length == |limit|
      invariant !done ==> n == |limit| && cells[..] == limit && forall j | 0 <= j < i :: limit[j].denom != d
      invariant done ==> cells[..n] == Set(limit, d, AmountOf(limit, d) - expense)
      invariant done ==> forall j | i <= j < |limit| :: cells[j].denom != d
    {
      if cells[i].denom != d {
        continue;
      }
      assert !done && limit[i].denom == d;
      Found(limit, i);
      ghost var left := AmountOf(limit, d) - expense;
      var diff := cells[i].amount - expense;
      if diff <= 0 {
        Delete(cells, i, n);
        n := n - 1;
        Removed(limit, i, cells[..]);
      } else {
        SetInPlace(limit, i, diff);
        cells[i] := cells[i].(amount := diff);
        assert cells[..] == limit[i := Coin(d, diff)];
      }
      done := true;
    }
    if !done {
      AmountAbsent(limit, d);
      SetAbsent(limit, d);
    }
    r := cells[..n];
  }

  /** Where a denomination is found, and that it is found nowhere else. */
  lemma {:induction false} Found(limit: seq<Coin>, i: nat)
    requires Valid(limit) && i < |limit|
    ensures AmountOf(limit, limit[i].denom) == limit[i].amount
    ensures forall j | 0 <= j < |limit| && j != i :: limit[j].denom != limit[i].denom
  {
    hide AmountOf;
    AmountAt(limit, i);
    forall j | 0 <= j < |limit| && j != i
      ensures limit[j].denom != limit[i].denom
    {
      DistinctDenoms(limit, i, j);
    }
  }

  /** The cells after a deletion: the shorter limit, then the stale last coin. */
  lemma {:induction false} Removed(limit: seq<Coin>, i: nat, cells: seq<Coin>)
    requires Valid(limit) && i < |limit|
    requires cells == limit[..i] + limit[i + 1..] + limit[|limit| - 1..]
    ensures cells[..|limit| - 1] == Set(limit, limit[i].denom, 0)
    ensures forall j | i < j < |limit| :: cells[j].denom != limit[i].denom
  {
    hide Set, AmountOf;
    SetRemoves(limit, i);
    Found(limit, i);
    assert cells[..|limit| - 1] == limit[..i] + limit[i + 1..];
    forall j | i < j < |limit|
      ensures cells[j].denom != limit[i].denom
    {
      assert cells[j] == if j < |limit| - 1 then limit[j + 1] else limit[j];
    }
  }

  // ---------------------------------------------------------------- the steps

  datatype Channel = Channel(port: string, channel: string)

  function TransferKey(granter: Address, grantee: Address): Key {
    Key(granter, grantee, MsgTransfer)
  }

  predicate HasTransfer(grants: Store, now: int, key: Key) {
    var g := Get(grants, key, now);
    g.Some? && g.value.auth.Transfer?
  }

  /** What the grant allows of a denomination over a channel, now. */
  function AllowedNow(grants: Store, now: int, key: Key, ch: Channel, d: string): int {
    if HasTransfer(grants, now, key) then Allowed(grants[key].auth.allocations, ch.port, ch.channel, d) else 0
  }

  /** The grant is there, covers the denomination and can be written back. */
  predicate CanChange(grants: Store, now: int, key: Key, ch: Channel, d: string) {
    HasTransfer(grants, now, key) && AllowedNow(grants, now, key, ch, d) > 0 && Savable(grants[key].expiration, now)
  }

  /** One grant changes, in one coin of one allocation; its expiry and everything else stay. */
  ghost predicate Changed(grants: Store, grants': Store, now: int, key: Key, ch: Channel, d: string, a: int) {
    && HasTransfer(grants, now, key) && HasTransfer(grants', now, key)
    && grants' == grants[key := grants'[key]]
    && grants'[key].expiration == grants[key].expiration
    && AllowedSet(grants[key].auth.allocations, grants'[key].auth.allocations, ch.port, ch.channel, d, a)
  }

  ghost predicate IncreaseStep(grants: Store, grants': Store, now: int, key: Key, ch: Channel, d: string, amount: nat,
                               ok: bool)
  {
    && (ok <==> CanChange(grants, now, key, ch, d) && FitsUint256(AllowedNow(grants, now, key, ch, d) + amount))
    && if ok then Changed(grants, grants', now, key, ch, d, AllowedNow(grants, now, key, ch, d) + amount) else grants' == grants
  }

  ghost predicate DecreaseStep(grants: Store, grants': Store, now: int, key: Key, ch: Channel, d: string, amount: nat,
                               ok: bool)
  {
    && (ok <==> CanChange(grants, now, key, ch, d) && amount <= AllowedNow(grants, now, key, ch, d))
    && if ok then Changed(grants, grants', now, key, ch, d, AllowedNow(grants, now, key, ch, d) - amount) else grants' == grants
  }

  lemma {:induction false} ChangedValid(grants: Store, grants': Store, now: int, key: Key, ch: Channel, d: string,
                                        a: int)
    requires ValidStore(grants) && Changed(grants, grants', now, key, ch, d, a)
    ensures ValidStore(grants')
  {
    hide Valid, AmountOf, First;
  }

  /** A change is announced with all allocations the grant now has; a failed call announces nothing. */
  ghost predicate Announced(logs: seq<Log>, logs': seq<Log>, address: Address, grants: Store,
                            granter: Address, grantee: Address, ok: bool)
  {
    var k := TransferKey(granter, grantee);
    if ok then
      && k in grants && grants[k].auth.Transfer?
      && logs' == logs + [Log(address, TransferAuthorized(grantee, granter, grants[k].auth.allocations))]
    else logs' == logs
  }

  method IncreaseAllowance(chain: Chain, address: Address, granter: Address, grantee: Address, ch: Channel, d: string, amount: nat)
    returns (ok: bool)
    requires ValidStore(chain.grants)
    modifies chain`grants, chain`logs
    ensures IncreaseStep(old(chain.grants), chain.grants, chain.now, TransferKey(granter, grantee), ch, d, amount, ok)
    ensures ValidStore(chain.grants)
    ensures Announced(old(chain.logs), chain.logs, address, chain.grants, granter, grantee, ok)
  {
    hide Valid, AmountOf, Set, First, FitsUint256;
    var key := Key(granter, grantee, MsgTransfer);
    var found := Get(chain.grants, key, chain.now);
    if found.None? || !found.value.auth.Transfer? {
      return false;
    }
    var allocs := found.value.auth.allocations;
    var present, limit, idx := CheckAllocationExists(allocs, ch.port, ch.channel, d);
    if !present {
      return false;
    }
    if !FitsUint256(limit + amount) {
      return false;
    }
    SetAmounts(allocs[idx].limit, d, limit + amount);
    var alloc := allocs[idx].(limit := Set(allocs[idx].limit, d, limit + amount));
    ok := chain.SaveGrant(key, Transfer(allocs[idx := alloc]), found.value.expiration);
    if ok {
      ChangedValid(old(chain.grants), chain.grants, chain.now, key, ch, d, limit + amount);
      var event := TransferAuthorized(grantee, granter, allocs[idx := alloc]);
      chain.logs := chain.logs + [Log(address, event)];
    }
  }

  method DecreaseAllowance(chain: Chain, address: Address, granter: Address, grantee: Address, ch: Channel, d: string, amount: nat)
    returns (ok: bool)
    requires ValidStore(chain.grants)
    modifies chain`grants, chain`logs
    ensures DecreaseStep(old(chain.grants), chain.grants, chain.now, TransferKey(granter, grantee), ch, d, amount, ok)
    ensures ValidStore(chain.grants)
    ensures Announced(old(chain.logs), chain.logs, address, chain.grants, granter, grantee, ok)
  {
    hide Valid, AmountOf, Set, First, FitsUint256;
    var key := Key(granter, grantee, MsgTransfer);
    var found := Get(chain.grants, key, chain.now);
    if found.None? || !found.value.auth.Transfer? {
      return false;
    }
    var allocs := found.value.auth.allocations;
    var present, limit, idx := CheckAllocationExists(allocs, ch.port, ch.channel, d);
    if !present {
      return false;
    }
    if limit < amount {
      return false;
    }
    var left := DecreaseLimit(allocs[idx].limit, d, amount);
    var alloc := allocs[idx].(limit := left);
    ok := chain.SaveGrant(key, Transfer(allocs[idx := alloc]), found.value.expiration);
    if ok {
      ChangedValid(old(chain.grants), chain.grants, chain.now, key, ch, d, limit - amount);
      var event := TransferAuthorized(grantee, granter, allocs[idx := alloc]);
      chain.logs := chain.logs + [Log(address, event)];
    }
  }

  // ---------------------------------------------------------------- undoing

  /** The changed allocation is still the first of its channel, with the amount it was given. */
  lemma {:induction false} ChangedAllowed(grants: Store, grants': Store, now: int, key: Key, ch: Channel, d: string,
                                          a: int)
    requires Changed(grants, grants', now, key, ch, d, a)
    ensures AllowedNow(grants', now, key, ch, d) == a
    ensures First(grants'[key].auth.allocations, ch.port, ch.channel) == First(grants[key].auth.allocations, ch.port, ch.channel)
  {
    hide Valid, AmountOf;
    var allocs, allocs' := grants[key].auth.allocations, grants'[key].auth.allocations;
    SameFirst(allocs, allocs', ch);
  }

  lemma {:induction false} SameFirst(allocs: seq<Allocation>, allocs': seq<Allocation>, ch: Channel)
    requires |allocs| == |allocs'|
    requires forall i | 0 <= i < |allocs| :: allocs[i].port == allocs'[i].port && allocs[i].channel == allocs'[i].channel
    ensures First(allocs', ch.port, ch.channel) == First(allocs, ch.port, ch.channel)
  {}

  /** Setting a coin and setting it back gives the same store. */
  lemma {:induction false} ChangedBack(g0: Store, g1: Store, g2: Store, now: int, key: Key, ch: Channel, d: string,
                                       a: int)
    requires ValidStore(g0) && Changed(g0, g1, now, key, ch, d, a)
    requires Changed(g1, g2, now, key, ch, d, AllowedNow(g0, now, key, ch, d))
    ensures g2 == g0
  {
    hide Valid, AmountOf, First;
    ChangedAllowed(g0, g1, now, key, ch, d, a);
    var i := First(g0[key].auth.allocations, ch.port, ch.channel);
    var x0, x2 := g0[key].auth.allocations, g2[key].auth.allocations;
    Canonical(x0[i].limit, x2[i].limit);
    assert x2[i] == x0[i];
    assert x2 == x0;
    assert g2[key] == g0[key];
  }

  /** A decrease always undoes an equal increase. */
  lemma {:induction false} DecreaseUndoesIncrease(g0: Store, g1: Store, g2: Store, now: int, key: Key, ch: Channel,
                                                  d: string, amount: nat, ok: bool)
    requires ValidStore(g0) && IncreaseStep(g0, g1, now, key, ch, d, amount, true)
    requires DecreaseStep(g1, g2, now, key, ch, d, amount, ok)
    ensures ok && g2 == g0
  {
    hide Changed, FitsUint256, ValidStore, Allowed;
    ChangedAllowed(g0, g1, now, key, ch, d, AllowedNow(g0, now, key, ch, d) + amount);
    KeepsExpiry(g0, g1, now, key, ch, d, AllowedNow(g0, now, key, ch, d) + amount);
    ChangedBack(g0, g1, g2, now, key, ch, d, AllowedNow(g0, now, key, ch, d) + amount);
  }

  /**
   An increase undoes an equal decrease if and only if the decrease left something: a coin
   brought to zero is gone from the allocation, and only coins that are there can be increased.
   */
  lemma {:induction false} IncreaseUndoesDecrease(g0: Store, g1: Store, g2: Store, now: int, key: Key, ch: Channel,
                                                  d: string, amount: nat, ok: bool)
    requires ValidStore(g0) && DecreaseStep(g0, g1, now, key, ch, d, amount, true)
    requires FitsUint256(AllowedNow(g0, now, key, ch, d))
    requires IncreaseStep(g1, g2, now, key, ch, d, amount, ok)
    ensures ok <==> amount < AllowedNow(g0, now, key, ch, d)
    ensures ok ==> g2 == g0
  {
    hide Changed, FitsUint256, ValidStore, Allowed;
    ChangedAllowed(g0, g1, now, key, ch, d, AllowedNow(g0, now, key, ch, d) - amount);
    KeepsExpiry(g0, g1, now, key, ch, d, AllowedNow(g0, now, key, ch, d) - amount);
    if ok {
      ChangedBack(g0, g1, g2, now, key, ch, d, AllowedNow(g0, now, key, ch, d) - amount);
    }
  }

  lemma KeepsExpiry(g0: Store, g1: Store, now: int, key: Key, ch: Channel, d: string, a: int)
    requires Changed(g0, g1, now, key, ch, d, a)
    ensures HasTransfer(g1, now, key) && g1[key].expiration == g0[key].expiration
  {}

  /** The smallest case: five of five are taken away and cannot be given back. */
  lemma {:induction false} TakenAwayForGood(key: Key, ch: Channel, d: string, g2: Store, ok: bool)
    requires IncreaseStep(Only(key, ch, []), g2, 0, key, ch, d, 5, ok)
    ensures DecreaseStep(Only(key, ch, [Coin(d, 5)]), Only(key, ch, []), 0, key, ch, d, 5, true)
    ensures !ok
  {
    var limit := [Coin(d, 5)];
    assert limit[1..] == [];
    assert forall d' :: AmountOf(limit, d') == if d' == d then 5 else 0;
    assert Valid([]) && forall d' :: AmountOf([], d') == 0;
    var allocs := [Allocation(ch.port, ch.channel, limit, [])];
    assert Matches(allocs[0], ch.port, ch.channel);
    assert First(allocs, ch.port, ch.channel) == 0;
    var allocs' := [Allocation(ch.port, ch.channel, [], [])];
    assert Matches(allocs'[0], ch.port, ch.channel);
    assert First(allocs', ch.port, ch.channel) == 0;
  }

  /** One grant with one allocation. */
  function Only(key: Key, ch: Channel, limit: seq<Coin>): Store {
    map[key := Grant(Transfer([Allocation(ch.port, ch.channel, limit, [])]), None)]
  }
}
