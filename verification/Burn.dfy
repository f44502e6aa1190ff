/** Burning the fees of Cosmos transactions from the fee collector. */
module Burn {
  import opened Lex
  import opened Coins
  import opened Authz
  import opened Bank

  datatype Msg = EthereumTx | CosmosMsg

  datatype Outcome = NotFeeTx | BurnFailed | Continued

  function Min(a: int, b: int): int {
    if a < b then a else b
  }

  function Max(a: int, b: int): int {
    if a < b then b else a
  }

  function Recorded(supply: map<string, nat>, d: string): nat {
    if d in supply then supply[d] else 0
  }

  // ---------------------------------------------------------------- balances after a burn

  /** One account gives up these coins. */
  function Debited(b: Balances, who: Address, coins: seq<Coin>): Balances
    requires forall d :: 0 <= AmountOf(coins, d) <= Balance(b, who, d)
  {
    map k | k in b :: var left: nat := Balance(b, k.0, k.1) - (if k.0 == who then AmountOf(coins, k.1) else 0); left
  }

  lemma {:induction false} DebitedBalance(b: Balances, who: Address, coins: seq<Coin>, a: Address, d: string)
    requires forall d :: 0 <= AmountOf(coins, d) <= Balance(b, who, d)
    ensures Balance(Debited(b, who, coins), a, d) == Balance(b, a, d) - if a == who then AmountOf(coins, d) else 0
  {
    hide AmountOf;
    assert 0 <= AmountOf(coins, d) <= Balance(b, who, d);
  }

  /** The sum of all balances falls by exactly what was burned. */
  lemma {:induction false} DebitedSupply(b: Balances, who: Address, coins: seq<Coin>, d: string)
    requires forall d :: 0 <= AmountOf(coins, d) <= Balance(b, who, d)
    ensures Supply(Debited(b, who, coins), d) == Supply(b, d) - AmountOf(coins, d)
  {
    hide AmountOf, Debited, Sum, Balance;
    var b' := Debited(b, who, coins);
    DebitedHolders(b, who, coins, d);
    forall a
      ensures Balance(b', a, d) == Balance(b, a, d) - if a == who then AmountOf(coins, d) else 0
    {
      DebitedBalance(b, who, coins, a, d);
    }
    var holders := Holders(b, d);
    NotHolder(b, d, who);
    if who in holders {
      SumWithout(b, d, holders, who);
      SumWithout(b', d, holders, who);
      SumSame(b, b', d, holders - {who});
    } else {
      assert 0 <= AmountOf(coins, d) <= Balance(b, who, d);
      SumSame(b, b', d, holders);
    }
  }

  lemma DebitedHolders(b: Balances, who: Address, coins: seq<Coin>, d: string)
    requires forall d :: 0 <= AmountOf(coins, d) <= Balance(b, who, d)
    ensures Holders(Debited(b, who, coins), d) == Holders(b, d)
  {
    hide AmountOf;
    assert Debited(b, who, coins).Keys == b.Keys;
  }

  /** Every coin of a valid list is covered. */
  predicate Covered(b: Balances, who: Address, coins: seq<Coin>) {
    forall i | 0 <= i < |coins| :: coins[i].amount <= Balance(b, who, coins[i].denom)
  }

  lemma {:induction false} CoveredIff(b: Balances, who: Address, coins: seq<Coin>)
    requires Valid(coins)
    ensures Covered(b, who, coins) <==> forall d :: 0 <= AmountOf(coins, d) <= Balance(b, who, d)
  {
    hide Valid, AmountOf, Balance;
    forall d
      ensures AmountOf(coins, d) >= 0
    {
      AmountNonNegative(coins, d);
    }
    if Covered(b, who, coins) {
      forall d
        ensures AmountOf(coins, d) <= Balance(b, who, d)
      {
        if AmountOf(coins, d) != 0 {
          var i := AmountPresent(coins, d);
        }
      }
    }
    if forall d :: 0 <= AmountOf(coins, d) <= Balance(b, who, d) {
      forall i | 0 <= i < |coins|
        ensures coins[i].amount <= Balance(b, who, coins[i].denom)
      {
        ValidAmountAt(coins, i);
      }
    }
  }

  lemma ValidAmountAt(coins: seq<Coin>, i: nat)
    requires Valid(coins) && i < |coins|
    ensures AmountOf(coins, coins[i].denom) == coins[i].amount
  {
    AmountAt(coins, i);
  }

  // ---------------------------------------------------------------- the post handler

  class BurnDecorator {
    const collector: Address
    var balances: Balances
    var supply: map<string, nat>

    constructor (collector: Address, balances: Balances, supply: map<string, nat>)
      ensures this.collector == collector && this.balances == balances && this.supply == supply
    {
      this.collector, this.balances, this.supply := collector, balances, supply;
    }

    /** The recorded supply is the sum of the balances. */
    ghost predicate SupplyMatches()
      reads this
    {
      forall d :: Recorded(supply, d) == Supply(balances, d)
    }

    /** The bank's `BurnCoins`, from the collector. */
    method BurnCoins(coins: seq<Coin>) returns (ok: bool)
      requires SupplyMatches()
      modifies this`balances, this`supply
      ensures SupplyMatches()
      ensures ok <==> Valid(coins) && Covered(old(balances), collector, coins)
      ensures ok ==>
                forall a, d :: Balance(balances, a, d) == Balance(old(balances), a, d) - if a == collector then AmountOf(coins, d) else 0
      ensures ok ==> forall d :: Recorded(supply, d) == Recorded(old(supply), d) - AmountOf(coins, d)
      ensures !ok ==> balances == old(balances) && supply == old(supply)
    {
      hide Valid, AmountOf, Balance, Supply, Debited;
      ok := Valid(coins) && Covered(balances, collector, coins);
      if ok {
        CoveredIff(balances, collector, coins);
        forall d
          ensures AmountOf(coins, d) <= Recorded(supply, d)
        {
          BalanceWithinSupply(balances, collector, d);
        }
        forall a, d
          ensures Balance(Debited(balances, collector, coins), a, d)
               == Balance(balances, a, d) - if a == collector then AmountOf(coins, d) else 0
        {
          DebitedBalance(balances, collector, coins, a, d);
        }
        forall d
          ensures Supply(Debited(balances, collector, coins), d) == Supply(balances, d) - AmountOf(coins, d)
        {
          DebitedSupply(balances, collector, coins, d);
        }
        balances := Debited(balances, collector, coins);
        supply := map d | d in supply :: var left: nat := Recorded(supply, d) - AmountOf(coins, d); left;
      }
    }

    /** The coins to burn: of each fee what the collector has, up to the fee. */
    method CoinsToBurn(fees: seq<Coin>) returns (burned: seq<Coin>)
      ensures Covered(balances, collector, burned)
      ensures Valid(fees) ==>
                Valid(burned) && forall d :: AmountOf(burned, d) == Min(AmountOf(fees, d), Balance(balances, collector, d))
    {
      hide AmountOf, StringLess, Balance;
      burned := [];
      NoCoins();
      for i := 0 to |fees|
        invariant Covered(balances, collector, burned)
        invariant Valid(fees) ==> Valid(burned) && Below(burned, fees, i)
        invariant Valid(fees) ==>
                  forall d :: AmountOf(burned, d) == Min(AmountOf(fees[..i], d), Balance(balances, collector, d))
      {
        var fee := fees[i];
        var balance := Balance(balances, collector, fee.denom);
        if Valid(fees) {
          NextFee(burned, fees, i, balances, collector);
        }
        if balance <= 0 {
          continue;
        }
        var amount := fee.amount;
        if balance < amount {
          amount := balance;
        }
        burned := burned + [Coin(fee.denom, amount)];
      }
      assert fees[..|fees|] == fees;
    }

    /**
     `PostHandle`. Of a transaction without Ethereum messages and with positive fees, min(balance, fee)
     of every denomination is burned: it cannot fail for valid fees, the collector is left with
     max(0, balance - fee), nobody else is touched and the supply falls by exactly what was burned.
     */
    method PostHandle(isFeeTx: bool, msgs: seq<Msg>, fees: seq<Coin>) returns (r: Outcome)
      requires SupplyMatches()
      modifies this`balances, this`supply
      ensures SupplyMatches()
      ensures r.NotFeeTx? <==> !isFeeTx
      ensures r.BurnFailed? ==> !Valid(fees)
      ensures !r.Continued? || EthereumTx in msgs || fees == [] || (exists i | 0 <= i < |fees| :: fees[i].amount <= 0) ==>
                balances == old(balances) && supply == old(supply)
      ensures isFeeTx && EthereumTx !in msgs && Valid(fees) ==>
                && (forall d :: Balance(balances, collector, d) == Max(0, Balance(old(balances), collector, d) - AmountOf(fees, d)))
                && (forall a, d | a != collector :: Balance(balances, a, d) == Balance(old(balances), a, d))
                && (forall d :: Recorded(supply, d)
                             == Recorded(old(supply), d) - Min(AmountOf(fees, d), Balance(old(balances), collector, d)))
    {
      hide AmountOf, Valid, Balance, SupplyMatches, Recorded;
      if !isFeeTx {
        return NotFeeTx;
      }
      for i := 0 to |msgs|
        invariant EthereumTx !in msgs[..i]
        invariant balances == old(balances) && supply == old(supply)
      {
        if msgs[i].EthereumTx? {
          return Continued;
        }
      }
      assert msgs[..|msgs|] == msgs;
      if fees == [] {
        ZeroFees(fees);
        return Continued;
      }
      for i := 0 to |fees|
        invariant forall j | 0 <= j < i :: fees[j].amount > 0
        invariant balances == old(balances) && supply == old(supply)
      {
        if fees[i].amount <= 0 {
          InvalidFee(fees, i);
          return Continued;
        }
      }
      var burned := CoinsToBurn(fees);
      var ok := BurnCoins(burned);
      if !ok {
        return BurnFailed;
      }
      return Continued;
    }
  }

  lemma ZeroFees(fees: seq<Coin>)
    requires fees == []
    ensures forall d :: AmountOf(fees, d) == 0
  {}

  lemma InvalidFee(fees: seq<Coin>, i: nat)
    requires i < |fees| && fees[i].amount <= 0
    ensures !Valid(fees)
  {}

  /** The burned coins come before all fees not yet seen. */
  ghost predicate Below(burned: seq<Coin>, fees: seq<Coin>, i: nat)
    requires i <= |fees|
  {
    forall j, k | 0 <= j < |burned| && i <= k < |fees| :: StringLess(burned[j].denom, fees[k].denom)
  }

  lemma NoCoins()
    ensures Valid([]) && forall d :: AmountOf([], d) == 0
  {}

  /** What one more fee adds. */
  lemma {:induction false} NextFee(burned: seq<Coin>, fees: seq<Coin>, i: nat, b: Balances, who: Address)
    requires Valid(fees) && i < |fees| && Valid(burned) && Below(burned, fees, i)
    requires forall d :: AmountOf(burned, d) == Min(AmountOf(fees[..i], d), Balance(b, who, d))
    ensures var fee := fees[i];
            var balance := Balance(b, who, fee.denom);
            var next := if balance <= 0 then burned else burned + [Coin(fee.denom, Min(fee.amount, balance))];
            && Valid(next) && Below(next, fees, i + 1)
            && forall d :: AmountOf(next, d) == Min(AmountOf(fees[..i + 1], d), Balance(b, who, d))
  {
    hide AmountOf, StringLess, Balance;
    var fee := fees[i];
    var balance := Balance(b, who, fee.denom);
    var c := Coin(fee.denom, Min(fee.amount, balance));
    assert fees[..i + 1] == fees[..i] + [fee];
    forall d
      ensures AmountOf(fees[..i + 1], d) == if d == fee.denom then fee.amount else AmountOf(fees[..i], d)
      ensures balance > 0 ==>
                Valid(burned + [c]) && AmountOf(burned + [c], d) == if d == c.denom then c.amount else AmountOf(burned, d)
    {
      Append(fees[..i], fee, d);
      if balance > 0 {
        Append(burned, c, d);
      }
    }
    Append(fees[..i], fee, fee.denom);
    forall d
      ensures AmountOf(fees[..i], d) >= 0
    {
      AmountNonNegative(fees[..i], d);
    }
    FeeIsNew(fees, i);
  }

  lemma {:induction false} FeeIsNew(fees: seq<Coin>, i: nat)
    requires Valid(fees) && i < |fees|
    ensures AmountOf(fees[..i], fees[i].denom) == 0
  {
    hide AmountOf, StringLess;
    forall j | 0 <= j < i
      ensures fees[..i][j].denom != fees[i].denom
    {
      DistinctDenoms(fees, j, i);
    }
    AmountAbsent(fees[..i], fees[i].denom);
  }
}
