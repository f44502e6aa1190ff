/** Coin lists as the Cosmos SDK keeps them: strictly sorted by denomination, every amount positive. */
module Coins {
  import opened Lex

  datatype Coin = Coin(denom: string, amount: int)

  predicate Sorted(cs: seq<Coin>) {
    forall i, j | 0 <= i < j < |cs| :: StringLess(cs[i].denom, cs[j].denom)
  }

  predicate Positive(cs: seq<Coin>) {
    forall i | 0 <= i < |cs| :: cs[i].amount > 0
  }

  predicate Valid(cs: seq<Coin>) {
    Sorted(cs) && Positive(cs)
  }

  /** `AmountOfNoDenomValidation`, and with it `Find`: a denomination is found if its amount is not zero. */
  function AmountOf(cs: seq<Coin>, d: string): int {
    if cs == [] then 0 else if cs[0].denom == d then cs[0].amount else AmountOf(cs[1..], d)
  }

  /**
   The valid list with amount a of d and everything else as in cs. It stands for the SDK
   operations `Add` and `SafeSub` of one coin: both rebuild the list in order and drop zeros.
   */
  function Set(cs: seq<Coin>, d: string, a: nat): seq<Coin> {
    var one := if a == 0 then [] else [Coin(d, a)];
    if cs == [] then one
    else if cs[0].denom == d then one + cs[1..]
    else if StringLess(d, cs[0].denom) then one + cs
    else [cs[0]] + Set(cs[1..], d, a)
  }

  // ---------------------------------------------------------------- reading

  lemma {:induction false} ValidTail(cs: seq<Coin>)
    requires Valid(cs) && cs != []
    ensures Valid(cs[1..]) && forall i | 0 <= i < |cs[1..]| :: StringLess(cs[0].denom, cs[1..][i].denom)
  {
    hide StringLess;
  }

  lemma {:induction false} ValidCons(c: Coin, cs: seq<Coin>)
    requires Valid(cs) && c.amount > 0 && forall i | 0 <= i < |cs| :: StringLess(c.denom, cs[i].denom)
    ensures Valid([c] + cs)
  {
    hide StringLess;
  }

  lemma {:induction false} AmountAt(cs: seq<Coin>, i: nat)
    requires Sorted(cs) && i < |cs|
    ensures AmountOf(cs, cs[i].denom) == cs[i].amount
  {
    hide StringLess;
    if i > 0 {
      assert StringLess(cs[0].denom, cs[i].denom);
      StringAsymmetric(cs[0].denom, cs[i].denom);
      assert cs[1..][i - 1] == cs[i];
      AmountAt(cs[1..], i - 1);
    }
  }

  lemma {:induction false} AmountAbsent(cs: seq<Coin>, d: string)
    requires forall i | 0 <= i < |cs| :: cs[i].denom != d
    ensures AmountOf(cs, d) == 0
  {
    if cs != [] {
      AmountAbsent(cs[1..], d);
    }
  }

  /** The amount is not zero exactly where the denomination occurs. */
  lemma {:induction false} AmountPresent(cs: seq<Coin>, d: string) returns (i: nat)
    requires AmountOf(cs, d) != 0
    ensures i < |cs| && cs[i].denom == d && cs[i].amount == AmountOf(cs, d)
  {
    if cs[0].denom == d {
      i := 0;
    } else {
      i := AmountPresent(cs[1..], d);
      i := i + 1;
    }
  }

  lemma {:induction false} AmountNonNegative(cs: seq<Coin>, d: string)
    requires Valid(cs)
    ensures AmountOf(cs, d) >= 0
  {
    if cs != [] {
      ValidTail(cs);
      AmountNonNegative(cs[1..], d);
    }
  }

  /** Nothing sorts before the head of a list and is in it. */
  lemma {:induction false} AmountBefore(cs: seq<Coin>, d: string)
    requires forall i | 0 <= i < |cs| :: StringLess(d, cs[i].denom)
    ensures AmountOf(cs, d) == 0
  {
    hide StringLess;
    forall i | 0 <= i < |cs|
      ensures cs[i].denom != d
    {
      StringAsymmetric(d, cs[i].denom);
    }
    AmountAbsent(cs, d);
  }

  lemma {:induction false} BeforeAll(cs: seq<Coin>, d: string)
    requires Valid(cs) && (cs == [] || StringLess(d, cs[0].denom))
    ensures forall i | 0 <= i < |cs| :: StringLess(d, cs[i].denom)
  {
    hide StringLess;
    forall i | 0 <= i < |cs|
      ensures StringLess(d, cs[i].denom)
    {
      if i > 0 {
        StringTransitive(d, cs[0].denom, cs[i].denom);
      }
    }
  }

  // ---------------------------------------------------------------- writing

  lemma {:induction false} SetAbove(cs: seq<Coin>, d: string, a: nat, low: string)
    requires StringLess(low, d) && forall i | 0 <= i < |cs| :: StringLess(low, cs[i].denom)
    ensures forall i | 0 <= i < |Set(cs, d, a)| :: StringLess(low, Set(cs, d, a)[i].denom)
  {
    hide StringLess;
    if cs != [] && cs[0].denom != d && !StringLess(d, cs[0].denom) {
      SetAbove(cs[1..], d, a, low);
    }
  }

  lemma {:induction false} SetValid(cs: seq<Coin>, d: string, a: nat)
    requires Valid(cs)
    ensures Valid(Set(cs, d, a))
  {
    hide StringLess, Valid;
    if cs == [] {
      ValidOne(Coin(d, a), cs);
      assert Set(cs, d, a) + cs == Set(cs, d, a);
    } else {
      ValidTail(cs);
      if cs[0].denom == d {
        ValidOne(Coin(d, a), cs[1..]);
      } else if StringLess(d, cs[0].denom) {
        BeforeAll(cs, d);
        ValidOne(Coin(d, a), cs);
      } else {
        StringTotal(d, cs[0].denom);
        SetValid(cs[1..], d, a);
        SetAbove(cs[1..], d, a, cs[0].denom);
        HeadPositive(cs);
        ValidCons(cs[0], Set(cs[1..], d, a));
      }
    }
  }

  lemma HeadPositive(cs: seq<Coin>)
    requires Valid(cs) && cs != []
    ensures cs[0].amount > 0
  {}

  lemma {:induction false} ValidOne(c: Coin, cs: seq<Coin>)
    requires Valid(cs) && c.amount >= 0 && forall i | 0 <= i < |cs| :: StringLess(c.denom, cs[i].denom)
    ensures Valid((if c.amount == 0 then [] else [c]) + cs)
  {
    hide StringLess, Valid;
    if c.amount == 0 {
      assert [] + cs == cs;
    } else {
      ValidCons(c, cs);
    }
  }

  lemma AmountCons(c: Coin, cs: seq<Coin>, e: string)
    ensures AmountOf([c] + cs, e) == if e == c.denom then c.amount else AmountOf(cs, e)
  {
    assert ([c] + cs)[1..] == cs;
  }

  lemma {:induction false} AmountOne(c: Coin, cs: seq<Coin>, e: string)
    requires AmountOf(cs, c.denom) == 0
    ensures AmountOf((if c.amount == 0 then [] else [c]) + cs, e) == if e == c.denom then c.amount else AmountOf(cs, e)
  {
    hide AmountOf;
    if c.amount == 0 {
      assert [] + cs == cs;
    } else {
      AmountCons(c, cs, e);
    }
  }

  /** Only the amount of d changes. */
  lemma {:induction false} SetAmount(cs: seq<Coin>, d: string, a: nat, e: string)
    requires Valid(cs)
    ensures AmountOf(Set(cs, d, a), e) == if e == d then a else AmountOf(cs, e)
  {
    hide StringLess, AmountOf, Valid;
    if cs == [] {
      AmountAbsent(cs, d);
      AmountAbsent(cs, e);
      AmountOne(Coin(d, a), cs, e);
      assert Set(cs, d, a) + cs == Set(cs, d, a);
    } else {
      ValidTail(cs);
      assert [cs[0]] + cs[1..] == cs;
      AmountCons(cs[0], cs[1..], e);
      if cs[0].denom == d {
        AmountBefore(cs[1..], d);
        AmountOne(Coin(d, a), cs[1..], e);
      } else if StringLess(d, cs[0].denom) {
        BeforeAll(cs, d);
        AmountBefore(cs, d);
        AmountOne(Coin(d, a), cs, e);
      } else {
        SetAmount(cs[1..], d, a, e);
        AmountCons(cs[0], Set(cs[1..], d, a), e);
      }
    }
  }

  lemma {:induction false} SetAmounts(cs: seq<Coin>, d: string, a: nat)
    requires Valid(cs)
    ensures Valid(Set(cs, d, a))
    ensures forall e :: AmountOf(Set(cs, d, a), e) == if e == d then a else AmountOf(cs, e)
  {
    hide Valid, AmountOf, Set;
    SetValid(cs, d, a);
    forall e
      ensures AmountOf(Set(cs, d, a), e) == if e == d then a else AmountOf(cs, e)
    {
      SetAmount(cs, d, a, e);
    }
  }

  /** A valid list is determined by its amounts. */
  lemma {:induction false} Canonical(a: seq<Coin>, b: seq<Coin>)
    requires Valid(a) && Valid(b) && forall d :: AmountOf(a, d) == AmountOf(b, d)
    ensures a == b
  {
    hide StringLess, Valid, AmountOf;
    if a == [] || b == [] {
      EmptyAmounts(a);
      EmptyAmounts(b);
    } else {
      SameHead(a, b);
      ValidTail(a);
      ValidTail(b);
      forall d
        ensures AmountOf(a[1..], d) == AmountOf(b[1..], d)
      {
        TailAmount(a, d);
        TailAmount(b, d);
      }
      Canonical(a[1..], b[1..]);
    }
  }

  lemma {:induction false} EmptyAmounts(a: seq<Coin>)
    requires Valid(a)
    ensures a == [] ==> forall d :: AmountOf(a, d) == 0
    ensures a != [] ==> AmountOf(a, a[0].denom) > 0
  {}

  lemma {:induction false} TailAmount(a: seq<Coin>, d: string)
    requires Valid(a) && a != []
    ensures AmountOf(a[1..], d) == if d == a[0].denom then 0 else AmountOf(a, d)
  {
    hide StringLess;
    if d == a[0].denom {
      ValidTail(a);
      AmountBefore(a[1..], d);
    }
  }

  lemma {:induction false} SameHead(a: seq<Coin>, b: seq<Coin>)
    requires Valid(a) && Valid(b) && a != [] && b != [] && forall d :: AmountOf(a, d) == AmountOf(b, d)
    ensures a[0] == b[0]
  {
    hide StringLess;
    var x, y := a[0].denom, b[0].denom;
    assert AmountOf(a, x) == a[0].amount > 0 && AmountOf(b, y) == b[0].amount > 0;
    assert AmountOf(b, x) > 0 && AmountOf(a, y) > 0;
    StringTotal(x, y);
    if StringLess(x, y) {
      BeforeAll(b, x);
      AmountBefore(b, x);
    } else if StringLess(y, x) {
      BeforeAll(a, y);
      AmountBefore(a, y);
    }
  }

  /** A coin that sorts after all others goes at the end. */
  lemma {:induction false} Append(cs: seq<Coin>, c: Coin, e: string)
    requires Valid(cs) && c.amount > 0 && forall i | 0 <= i < |cs| :: StringLess(cs[i].denom, c.denom)
    ensures Valid(cs + [c])
    ensures AmountOf(cs + [c], e) == if e == c.denom then c.amount else AmountOf(cs, e)
  {
    hide StringLess;
    if cs == [] {
      assert cs + [c] == [c];
    } else {
      ValidTail(cs);
      Append(cs[1..], c, e);
      StringAsymmetric(cs[0].denom, c.denom);
      assert (cs + [c])[1..] == cs[1..] + [c];
    }
  }

  // ---------------------------------------------------------------- updateOrAddCoin

  /** Past a smaller head the list is set in its tail. */
  lemma {:induction false} SetTail(cs: seq<Coin>, i: nat, a: nat)
    requires Valid(cs) && 0 < i < |cs|
    ensures Valid(cs[1..]) && cs[1..][i - 1] == cs[i]
    ensures Set(cs, cs[i].denom, a) == [cs[0]] + Set(cs[1..], cs[i].denom, a)
  {
    hide StringLess;
    ValidTail(cs);
    assert StringLess(cs[0].denom, cs[i].denom);
    StringAsymmetric(cs[0].denom, cs[i].denom);
  }

  lemma {:induction false} SetInPlace(cs: seq<Coin>, i: nat, a: nat)
    requires Valid(cs) && i < |cs| && a > 0
    ensures cs[i := Coin(cs[i].denom, a)] == Set(cs, cs[i].denom, a)
  {
    hide StringLess, Valid;
    if i > 0 {
      SetTail(cs, i, a);
      SetInPlace(cs[1..], i - 1, a);
      assert cs[i := Coin(cs[i].denom, a)] == [cs[0]] + cs[1..][i - 1 := Coin(cs[i].denom, a)];
    } else {
      assert cs[i := Coin(cs[i].denom, a)] == [Coin(cs[0].denom, a)] + cs[1..];
    }
  }

  lemma {:induction false} WithoutInTail(cs: seq<Coin>, i: nat)
    requires 0 < i < |cs|
    ensures [cs[0]] + (cs[1..][..i - 1] + cs[1..][i..]) == cs[..i] + cs[i + 1..]
  {
    hide *;
    var l, r := [cs[0]] + (cs[1..][..i - 1] + cs[1..][i..]), cs[..i] + cs[i + 1..];
    forall k | 0 <= k < |l|
      ensures l[k] == r[k]
    {
      assert k > 0 ==> l[k] == (cs[1..][..i - 1] + cs[1..][i..])[k - 1];
    }
  }

  lemma SetRemovesHead(cs: seq<Coin>)
    requires cs != []
    ensures Set(cs, cs[0].denom, 0) == cs[1..]
  {}

  lemma {:induction false} SetRemoves(cs: seq<Coin>, i: nat)
    requires Valid(cs) && i < |cs|
    ensures Set(cs, cs[i].denom, 0) == cs[..i] + cs[i + 1..]
  {
    hide Valid, Set;
    if i > 0 {
      SetTail(cs, i, 0);
      SetRemoves(cs[1..], i - 1);
      WithoutInTail(cs, i);
    } else {
      SetRemovesHead(cs);
      assert cs[..0] + cs[1..] == cs[1..];
    }
  }

  lemma {:induction false} SetAbsent(cs: seq<Coin>, d: string)
    requires AmountOf(cs, d) == 0 && Valid(cs)
    ensures Set(cs, d, 0) == cs
  {
    hide StringLess;
    if cs != [] {
      ValidTail(cs);
      if cs[0].denom != d && !StringLess(d, cs[0].denom) {
        SetAbsent(cs[1..], d);
      }
    }
  }

  lemma {:induction false} DistinctDenoms(cs: seq<Coin>, i: nat, j: nat)
    requires Valid(cs) && i < |cs| && j < |cs| && i != j
    ensures cs[i].denom != cs[j].denom
  {
    hide StringLess;
    if i < j {
      StringAsymmetric(cs[i].denom, cs[j].denom);
    } else {
      StringAsymmetric(cs[j].denom, cs[i].denom);
    }
  }

  /** `updateOrAddCoin`: the coin takes the place of the one with its denomination, or is added. */
  method UpdateOrAddCoin(coins: seq<Coin>, coin: Coin) returns (r: seq<Coin>)
    requires Valid(coins) && coin.amount > 0
    ensures Valid(r) && r != []
    ensures forall d :: AmountOf(r, d) == if d == coin.denom then coin.amount else AmountOf(coins, d)
  {
    hide Valid, AmountOf, Set, StringLess;
    SetAmounts(coins, coin.denom, coin.amount);
    EmptyAmounts(Set(coins, coin.denom, coin.amount));
    assert AmountOf(Set(coins, coin.denom, coin.amount), coin.denom) == coin.amount;
    for idx := 0 to |coins|
      invariant forall i | 0 <= i < idx :: coins[i].denom != coin.denom
    {
      if coins[idx].denom == coin.denom {
        SetInPlace(coins, idx, coin.amount);
        return coins[idx := coin];
      }
    }
    return Set(coins, coin.denom, coin.amount);
  }
}
