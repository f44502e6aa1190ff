/** Account balances and the transfers between them. */
module Bank {
  import opened Authz

  type Balances = map<(Address, string), nat>

  function Balance(b: Balances, a: Address, d: string): nat {
    if (a, d) in b then b[(a, d)] else 0
  }

  /** `SendCoins` of one coin, for a sender who has it. */
  function Move(b: Balances, from: Address, to: Address, d: string, amount: nat): Balances
    requires Balance(b, from, d) >= amount
  {
    var b1 := b[(from, d) := Balance(b, from, d) - amount];
    b1[(to, d) := Balance(b1, to, d) + amount]
  }

  /** What a transfer does to every balance. */
  ghost predicate Moved(b: Balances, b': Balances, from: Address, to: Address, d: string, amount: int) {
    forall a, e :: Balance(b', a, e) == Balance(b, a, e)
                     - (if a == from && e == d then amount else 0) + (if a == to && e == d then amount else 0)
  }

  lemma {:induction false} MoveMoves(b: Balances, from: Address, to: Address, d: string, amount: nat)
    requires Balance(b, from, d) >= amount
    ensures Moved(b, Move(b, from, to, d, amount), from, to, d, amount)
  {}

  // ---------------------------------------------------------------- conservation

  ghost function Holders(b: Balances, d: string): set<Address> {
    set k | k in b && k.1 == d :: k.0
  }

  ghost function Sum(b: Balances, d: string, who: set<Address>): nat {
    if who == {} then 0
    else
      var a :| a in who;
      Balance(b, a, d) + Sum(b, d, who - {a})
  }

  /** All the coins of a denomination there are. */
  ghost function Supply(b: Balances, d: string): nat {
    Sum(b, d, Holders(b, d))
  }

  lemma {:induction false} SumWithout(b: Balances, d: string, who: set<Address>, a: Address)
    requires a in who
    ensures Sum(b, d, who) == Balance(b, a, d) + Sum(b, d, who - {a})
    decreases |who|
  {
    hide Balance;
    var c :| c in who && Sum(b, d, who) == Balance(b, c, d) + Sum(b, d, who - {c});
    if c != a {
      SumWithout(b, d, who - {c}, a);
      SumWithout(b, d, who - {a}, c);
      assert who - {c} - {a} == who - {a} - {c};
    }
  }

  lemma NotHolder(b: Balances, d: string, a: Address)
    ensures a !in Holders(b, d) ==> Balance(b, a, d) == 0
  {
    if (a, d) in b {
      assert (a, d).0 in Holders(b, d);
    }
  }

  /** Accounts outside the holders add nothing. */
  lemma {:induction false} SumOverMore(b: Balances, d: string, who: set<Address>)
    requires Holders(b, d) <= who
    ensures Sum(b, d, who) == Supply(b, d)
    decreases |who - Holders(b, d)|
  {
    hide Sum, Holders;
    var more := who - Holders(b, d);
    if more == {} {
      assert who == Holders(b, d);
    } else {
      var a :| a in more;
      NotHolder(b, d, a);
      SumWithout(b, d, who, a);
      assert who - {a} - Holders(b, d) == more - {a};
      SumOverMore(b, d, who - {a});
    }
  }

  lemma {:induction false} SumSame(b: Balances, b': Balances, d: string, who: set<Address>)
    requires forall a | a in who :: Balance(b', a, d) == Balance(b, a, d)
    ensures Sum(b', d, who) == Sum(b, d, who)
    decreases |who|
  {
    hide Balance;
    if who != {} {
      var a :| a in who;
      SumWithout(b, d, who, a);
      SumWithout(b', d, who, a);
      SumSame(b, b', d, who - {a});
    }
  }

  /** Setting one balance changes the supply by the difference. */
  lemma {:induction false} SupplyOfUpdate(b: Balances, a: Address, d: string, n: nat, e: string)
    ensures Supply(b[(a, d) := n], e) == Supply(b, e) + if e == d then n - Balance(b, a, d) else 0
  {
    hide Sum;
    var b' := b[(a, d) := n];
    var who := Holders(b, e) + Holders(b', e);
    SumOverMore(b, e, who);
    SumOverMore(b', e, who);
    if e == d {
      assert (a, d) in b';
      assert a in who;
      SumWithout(b, e, who, a);
      SumWithout(b', e, who, a);
      SumSame(b, b', e, who - {a});
    } else {
      SumSame(b, b', e, who);
    }
  }

  /** A transfer keeps the supply of every denomination. */
  lemma {:induction false} MoveConserves(b: Balances, from: Address, to: Address, d: string, amount: nat, e: string)
    requires Balance(b, from, d) >= amount
    ensures Supply(Move(b, from, to, d, amount), e) == Supply(b, e)
  {
    hide Supply;
    var b1 := b[(from, d) := Balance(b, from, d) - amount];
    SupplyOfUpdate(b, from, d, Balance(b, from, d) - amount, e);
    SupplyOfUpdate(b1, to, d, Balance(b1, to, d) + amount, e);
  }

  lemma {:induction false} BalanceWithinSupply(b: Balances, a: Address, d: string)
    ensures Balance(b, a, d) <= Supply(b, d)
  {
    hide Sum, Holders;
    NotHolder(b, d, a);
    if a in Holders(b, d) {
      SumWithout(b, d, Holders(b, d), a);
    }
  }
}
