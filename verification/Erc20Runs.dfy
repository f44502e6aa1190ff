/**
 Whole runs of any number of token contracts over one chain: what a spender can move, what the
 logs say, and that nothing is minted or lost.
 */
module Erc20Runs {
  import opened Options
  import opened Authz
  import opened Bank
  import opened Allowances
  import opened Coins

  datatype State = State(now: int, grants: Store, balances: Balances)

  datatype Call =
    | Approve(token: Token, owner: Address, spender: Address, amount: int)
    | Increase(token: Token, owner: Address, spender: Address, amount: int)
    | Decrease(token: Token, owner: Address, spender: Address, amount: int)
    | Transfer(token: Token, owner: Address, spender: Address, amount: int, to: Address, accepts: bool)
    | Tick

  ghost predicate Step(s: State, c: Call, ok: bool, s': State) {
    match c
    case Approve(token, owner, spender, amount) =>
      && ApproveStep(s.grants, s'.grants, s.now, token, owner, spender, amount, ok)
      && s'.balances == s.balances && s'.now == s.now
    case Increase(token, owner, spender, amount) =>
      && IncreaseStep(s.grants, s'.grants, s.now, token, owner, spender, amount, ok)
      && s'.balances == s.balances && s'.now == s.now
    case Decrease(token, owner, spender, amount) =>
      && DecreaseStep(s.grants, s'.grants, s.now, token, owner, spender, amount, ok)
      && s'.balances == s.balances && s'.now == s.now
    case Transfer(token, owner, spender, amount, to, accepts) =>
      && TransferStep(s.grants, s'.grants, s.balances, s'.balances, s.now, token, spender, owner, to, amount, accepts, ok)
      && s'.now == s.now
    case Tick =>
      TickStep(s.grants, s'.grants, s.now, s'.now) && s'.balances == s.balances && ok
  }

  ghost predicate Run(states: seq<State>, calls: seq<Call>, oks: seq<bool>) {
    && |states| == |calls| + 1 == |oks| + 1
    && forall i | 0 <= i < |calls| :: Step(states[i], calls[i], oks[i], states[i + 1])
  }

  /** An allowance under observation. */
  datatype Pair = Pair(owner: Address, spender: Address, denom: string)

  function Allowance(s: State, p: Pair): int {
    AllowanceAt(s.grants, s.now, p.owner, p.spender, p.denom)
  }

  ghost predicate Concerns(c: Call, p: Pair) {
    !c.Tick? && c.owner == p.owner && c.spender == p.spender && c.token.denom == p.denom
  }

  /**
   What the owner has set aside since the last approval and what the spender has moved out of
   it; `exact` until something is lost to an expiry or to a send the bank refused.
   */
  datatype Account = Account(budget: int, spent: int, exact: bool)

  ghost function Track(acc: Account, p: Pair, s: State, c: Call, ok: bool, s': State): Account {
    if c.Tick? then acc.(exact := acc.exact && Allowance(s', p) == Allowance(s, p))
    else if !Concerns(c, p) || p.owner == p.spender then acc
    else if c.Approve? then if ok then Account(if c.amount > 0 then c.amount else 0, 0, true) else acc
    else if c.Increase? then if ok then acc.(budget := acc.budget + c.amount) else acc
    else if c.Decrease? then if ok then acc.(budget := acc.budget - c.amount) else acc
    else if ok then acc.(spent := acc.spent + c.amount)
    else acc.(exact := acc.exact && !CanSpend(s.grants, s.now, c.token, c.owner, c.spender, c.to, c.amount))
  }

  ghost function TrackAll(acc: Account, p: Pair, states: seq<State>, calls: seq<Call>, oks: seq<bool>, n: nat): Account
    requires n < |states| && n <= |calls| && n <= |oks|
  {
    if n == 0 then acc
    else Track(TrackAll(acc, p, states, calls, oks, n - 1), p, states[n - 1], calls[n - 1], oks[n - 1], states[n])
  }

  ghost predicate Balanced(acc: Account, allowance: int) {
    && 0 <= allowance && 0 <= acc.spent
    && allowance + acc.spent <= acc.budget
    && (acc.exact ==> allowance + acc.spent == acc.budget)
  }

  /** Time can only take an allowance away. */
  lemma TickAllowance(s: State, s': State, p: Pair)
    requires TickStep(s.grants, s'.grants, s.now, s'.now)
    ensures Allowance(s', p) == Allowance(s, p) || Allowance(s', p) == 0
  {
    hide AmountOf;
  }

  /** A step on one allowance is not felt by another. */
  lemma SetElsewhere(s: State, s': State, token: Token, owner: Address, spender: Address, a: int, p: Pair)
    requires AllowanceSet(s.grants, s'.grants, s.now, token, owner, spender, a) && s'.now == s.now
    requires (owner, spender, token.denom) != (p.owner, p.spender, p.denom)
    ensures Allowance(s', p) == Allowance(s, p)
  {
    hide AmountOf, RecipientsKept, AllowedUntil;
  }

  /** The allowance that was set holds now. */
  lemma SetHere(s: State, s': State, token: Token, a: int, p: Pair)
    requires AllowanceSet(s.grants, s'.grants, s.now, token, p.owner, p.spender, a) && s'.now == s.now && token.denom == p.denom
    requires a == 0 || Writable(s.grants, s.now, token, p.owner, p.spender) || HasSend(s.grants, s.now, p.owner, p.spender)
    ensures Allowance(s', p) == a
  {
    hide AllowanceAt, RecipientsKept, OthersKept;
  }

  // ---------------------------------------------------------------- one step

  /** What a call that changes an allowance sets it to. */
  ghost function Value(s: State, c: Call): int
    requires !c.Tick?
  {
    var a := AllowanceAt(s.grants, s.now, c.owner, c.spender, c.token.denom);
    match c
    case Approve(_, _, _, amount) => if amount > 0 then amount else 0
    case Increase(_, _, _, amount) => a + amount
    case Decrease(_, _, _, amount) => a - amount
    case Transfer(_, _, _, amount, _, _) => a - amount
  }

  /** The calls that change an allowance: those that succeed, and transfers on behalf of another that the grant covers. */
  ghost predicate Changes(s: State, c: Call, ok: bool) {
    if c.Tick? then false
    else if c.Transfer? then c.owner != c.spender && CanSpend(s.grants, s.now, c.token, c.owner, c.spender, c.to, c.amount)
    else ok
  }

  lemma {:induction false} StepSets(s: State, c: Call, ok: bool, s': State)
    requires Step(s, c, ok, s') && !c.Tick?
    ensures s'.now == s.now
    ensures Changes(s, c, ok) ==> AllowanceSet(s.grants, s'.grants, s.now, c.token, c.owner, c.spender, Value(s, c))
    ensures !Changes(s, c, ok) ==> s'.grants == s.grants
  {
    hide AllowanceSet, CanApprove, CanIncrease, CanDecrease, CanSpend, AllowanceAt;
  }

  lemma {:induction false} ChangesWritable(s: State, c: Call, ok: bool, s': State)
    requires Step(s, c, ok, s') && Changes(s, c, ok)
    ensures Value(s, c) == 0 || Writable(s.grants, s.now, c.token, c.owner, c.spender) || HasSend(s.grants, s.now, c.owner, c.spender)
  {
    hide AllowanceSet, AmountOf, FitsUint256, OnlyDenom;
  }

  /**
   Through the `allowance` query the grant store is a plain map from owner, spender and
   denomination to an amount: a call changes at most the one entry it names, to the value it should.
   */
  lemma {:induction false} PlainMap(s: State, c: Call, ok: bool, s': State, p: Pair)
    requires Step(s, c, ok, s') && !c.Tick?
    ensures Allowance(s', p) == if Concerns(c, p) && Changes(s, c, ok) then Value(s, c) else Allowance(s, p)
  {
    hide Step, AllowanceSet, Changes, Value, Writable;
    StepSets(s, c, ok, s');
    if Changes(s, c, ok) {
      ChangesWritable(s, c, ok, s');
      if Concerns(c, p) {
        SetHere(s, s', c.token, Value(s, c), p);
      } else {
        SetElsewhere(s, s', c.token, c.owner, c.spender, Value(s, c), p);
      }
    }
  }

  lemma {:induction false} StepBalanced(acc: Account, p: Pair, s: State, c: Call, ok: bool, s': State)
    requires Balanced(acc, Allowance(s, p)) && Step(s, c, ok, s')
    ensures Balanced(Track(acc, p, s, c, ok, s'), Allowance(s', p))
  {
    hide AllowanceSet, AllowanceAt, TickStep, Move, Writable, NoGrant, HasSend, FitsUint256, OnlyDenom, RecipientAllowed;
    if c.Tick? {
      TickAllowance(s, s', p);
    } else {
      PlainMap(s, c, ok, s', p);
    }
  }

  // ---------------------------------------------------------------- runs

  /**
   In every run, what the spender has moved since the last approval plus what is still allowed
   is within what was approved plus increased minus decreased, and exactly that unless a grant
   expired or the bank refused a covered send.
   */
  lemma {:induction false} RunBalanced(acc: Account, p: Pair, states: seq<State>, calls: seq<Call>, oks: seq<bool>,
                                       n: nat)
    requires Run(states, calls, oks) && n <= |calls|
    requires Balanced(acc, Allowance(states[0], p))
    ensures Balanced(TrackAll(acc, p, states, calls, oks, n), Allowance(states[n], p))
  {
    hide Balanced, Step, Allowance, Track;
    if n > 0 {
      RunBalanced(acc, p, states, calls, oks, n - 1);
      StepBalanced(TrackAll(acc, p, states, calls, oks, n - 1), p, states[n - 1], calls[n - 1], oks[n - 1], states[n]);
    }
  }

  /** The bound a token holder relies on: nobody moves more than they were allowed. */
  lemma {:induction false} SpendingBounded(p: Pair, states: seq<State>, calls: seq<Call>, oks: seq<bool>)
    requires Run(states, calls, oks) && Allowance(states[0], p) >= 0
    ensures var acc := TrackAll(Account(Allowance(states[0], p), 0, true), p, states, calls, oks, |calls|);
            acc.spent <= acc.budget - Allowance(states[|calls|], p) <= acc.budget
  {
    hide Step, Allowance, Track;
    RunBalanced(Account(Allowance(states[0], p), 0, true), p, states, calls, oks, |calls|);
  }

  /** Total balances are conserved. */
  lemma {:induction false} RunConserves(states: seq<State>, calls: seq<Call>, oks: seq<bool>, n: nat, d: string)
    requires Run(states, calls, oks) && n <= |calls|
    ensures Supply(states[n].balances, d) == Supply(states[0].balances, d)
  {
    hide Step, Supply;
    if n > 0 {
      RunConserves(states, calls, oks, n - 1, d);
      StepConserves(states[n - 1], calls[n - 1], oks[n - 1], states[n], d);
    }
  }

  lemma {:induction false} StepConserves(s: State, c: Call, ok: bool, s': State, d: string)
    requires Step(s, c, ok, s')
    ensures Supply(s'.balances, d) == Supply(s.balances, d)
  {
    hide Supply, Move, ApproveStep, IncreaseStep, DecreaseStep, TickStep, Charged, CanSpend, FitsUint256;
    if c.Transfer? && ok {
      MoveConserves(s.balances, c.owner, c.to, c.token.denom, c.amount, d);
    }
  }

  // ---------------------------------------------------------------- what the logs say

  /**
   The value `approve` logs is the allowance right after it if and only if it was not negative:
   a negative amount over an existing grant removes it but is logged as given.
   */
  lemma {:induction false} ApproveLogsAllowance(s: State, c: Call, s': State)
    requires c.Approve? && Step(s, c, true, s')
    ensures c.amount == Allowance(s', Pair(c.owner, c.spender, c.token.denom)) <==> c.amount >= 0
  {
    hide Step, Value, CanSpend;
    PlainMap(s, c, true, s', Pair(c.owner, c.spender, c.token.denom));
    ApproveValue(s, c);
  }

  lemma ApproveValue(s: State, c: Call)
    requires c.Approve?
    ensures Value(s, c) == if c.amount > 0 then c.amount else 0
  {}

  /** The same, with the negative amount that shows it. */
  lemma {:induction false} NegativeApprovalLogged(token: Token, owner: Address, spender: Address, s: State)
    requires owner != spender && s == State(0, map[SendKey(owner, spender) := Grant(Send([Coin(token.denom, 7)], []), None)], map[])
    ensures var c, s' := Approve(token, owner, spender, -1), s.(grants := map[]);
            Step(s, c, true, s') && Allowance(s', Pair(owner, spender, token.denom)) == 0 != c.amount
  {
    var limit := [Coin(token.denom, 7)];
    assert limit[1..] == [];
    assert forall d :: AmountOf(limit, d) == if d == token.denom then 7 else 0;
  }

  // ---------------------------------------------------------------- refused calls

  /** One grant, of seven of a denomination. */
  function Seven(owner: Address, spender: Address, d: string, expiration: Option<int>): Store {
    map[Key(owner, spender, MsgSend) := Grant(Send([Coin(d, 7)], []), expiration)]
  }

  lemma SevenAllowed(owner: Address, spender: Address, d: string, expiration: Option<int>, t: int, e: string)
    ensures AllowanceAt(Seven(owner, spender, d, expiration), t, owner, spender, e)
         == if e == d && !(expiration.Some? && expiration.value < t) then 7 else 0
  {
    var limit := [Coin(d, 7)];
    assert limit[1..] == [];
    assert AmountOf(limit, e) == if e == d then 7 else 0;
  }

  /** Approving zero is refused over a grant for another denomination, and accepted over none, with the same allowance. */
  lemma {:induction false} ZeroApprovalRefused(token: Token, owner: Address, spender: Address, d: string, now: int)
    requires owner != spender && d != token.denom
    ensures var other := Seven(owner, spender, d, None);
            && AllowanceAt(other, now, owner, spender, token.denom) == 0
            && !CanApprove(other, now, token, owner, spender, 0)
            && CanApprove(map[], now, token, owner, spender, 0)
  {
    SevenAllowed(owner, spender, d, None, now, token.denom);
  }

  /** In its last instant a grant can be spent or taken away, but not set to another amount. */
  lemma {:induction false} LastInstant(token: Token, owner: Address, spender: Address, to: Address, now: int)
    requires owner != spender
    ensures var grants := Seven(owner, spender, token.denom, Some(now));
            && CanSpend(grants, now, token, owner, spender, to, 5)
            && !CanApprove(grants, now, token, owner, spender, 5)
            && !CanIncrease(grants, now, token, owner, spender, 5)
            && !CanDecrease(grants, now, token, owner, spender, 5)
            && CanApprove(grants, now, token, owner, spender, 0)
            && CanDecrease(grants, now, token, owner, spender, 7)
  {
    var grants := Seven(owner, spender, token.denom, Some(now));
    SevenAllowed(owner, spender, token.denom, Some(now), now, token.denom);
    forall d | d != token.denom
      ensures AllowanceAt(grants, now, owner, spender, d) == 0
    {
      SevenAllowed(owner, spender, token.denom, Some(now), now, d);
    }
    assert OnlyDenom(grants, now, owner, spender, token.denom);
  }
}
