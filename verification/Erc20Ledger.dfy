/** The books of a run, summed call by call: what every account received and sent, and what an approval was used for. */
module Erc20Ledger {
  import opened Authz
  import opened Bank
  import opened Allowances
  import opened Erc20Runs

  // ---------------------------------------------------------------- sums over calls k, ..., n - 1

  /** A call that moved coins. */
  predicate Moves(c: Call, ok: bool) {
    c.Transfer? && ok
  }

  function Received(a: Address, e: string, calls: seq<Call>, oks: seq<bool>, k: nat, n: nat): int
    requires n <= |calls| && n <= |oks|
  {
    if n <= k then 0
    else
      var c := calls[n - 1];
      Received(a, e, calls, oks, k, n - 1) + if Moves(c, oks[n - 1]) && c.to == a && c.token.denom == e then c.amount else 0
  }

  function Sent(a: Address, e: string, calls: seq<Call>, oks: seq<bool>, k: nat, n: nat): int
    requires n <= |calls| && n <= |oks|
  {
    if n <= k then 0
    else
      var c := calls[n - 1];
      Sent(a, e, calls, oks, k, n - 1) + if Moves(c, oks[n - 1]) && c.owner == a && c.token.denom == e then c.amount else 0
  }

  /** Moved by the spender out of the owner's coins. */
  ghost function Spent(p: Pair, calls: seq<Call>, oks: seq<bool>, k: nat, n: nat): int
    requires n <= |calls| && n <= |oks|
  {
    if n <= k then 0
    else
      var c := calls[n - 1];
      Spent(p, calls, oks, k, n - 1) + if Concerns(c, p) && Moves(c, oks[n - 1]) then c.amount else 0
  }

  /** Increases less decreases. */
  ghost function Adjusted(p: Pair, calls: seq<Call>, oks: seq<bool>, k: nat, n: nat): int
    requires n <= |calls| && n <= |oks|
  {
    if n <= k then 0
    else
      var c := calls[n - 1];
      Adjusted(p, calls, oks, k, n - 1) +
      if !Concerns(c, p) || !oks[n - 1] then 0
      else if c.Increase? then c.amount
      else if c.Decrease? then -c.amount
      else 0
  }

  // ---------------------------------------------------------------- balances

  lemma {:induction false} StepMoves(s: State, c: Call, ok: bool, s': State)
    requires Step(s, c, ok, s')
    ensures if Moves(c, ok) then Moved(s.balances, s'.balances, c.owner, c.to, c.token.denom, c.amount) && c.amount > 0
            else s'.balances == s.balances
  {
    hide Move, ApproveStep, IncreaseStep, DecreaseStep, TickStep, Charged, CanSpend, FitsUint256, Moved;
    if Moves(c, ok) {
      MoveMoves(s.balances, c.owner, c.to, c.token.denom, c.amount);
    }
  }

  /** In every run each balance is what it was, plus what the account received, less what it sent. */
  lemma {:induction false} Ledger(states: seq<State>, calls: seq<Call>, oks: seq<bool>, n: nat, a: Address, e: string)
    requires Run(states, calls, oks) && n <= |calls|
    ensures Balance(states[n].balances, a, e)
         == Balance(states[0].balances, a, e) + Received(a, e, calls, oks, 0, n) - Sent(a, e, calls, oks, 0, n)
  {
    hide Step, Balance;
    if n > 0 {
      Ledger(states, calls, oks, n - 1, a, e);
      StepMoves(states[n - 1], calls[n - 1], oks[n - 1], states[n]);
    }
  }

  /** What spenders move is sent by the owner. */
  lemma {:induction false} SpentIsSent(p: Pair, states: seq<State>, calls: seq<Call>, oks: seq<bool>, k: nat, n: nat)
    requires Run(states, calls, oks) && k <= n <= |calls|
    ensures 0 <= Spent(p, calls, oks, k, n) <= Sent(p.owner, p.denom, calls, oks, k, n)
  {
    hide Step;
    if k < n {
      SpentIsSent(p, states, calls, oks, k, n - 1);
      StepMoves(states[n - 1], calls[n - 1], oks[n - 1], states[n]);
    }
  }

  // ---------------------------------------------------------------- since an approval

  /** An approval of this allowance that succeeded. */
  ghost predicate Approves(p: Pair, c: Call, ok: bool) {
    c.Approve? && ok && Concerns(c, p)
  }

  /** Between approvals the tracked account moves by these sums. */
  lemma {:induction false} AccountIs(acc: Account, p: Pair, states: seq<State>, calls: seq<Call>, oks: seq<bool>,
                                     k: nat, n: nat)
    requires Run(states, calls, oks) && k <= n <= |calls| && p.owner != p.spender
    requires forall i | k <= i < n :: !Approves(p, calls[i], oks[i])
    ensures var a, b := TrackAll(acc, p, states, calls, oks, k), TrackAll(acc, p, states, calls, oks, n);
            && b.spent == a.spent + Spent(p, calls, oks, k, n)
            && b.budget == a.budget + Adjusted(p, calls, oks, k, n)
  {
    hide Step, Allowance, CanSpend;
    if k < n {
      AccountIs(acc, p, states, calls, oks, k, n - 1);
    }
  }

  /**
   After an approval, and up to the next one, what the spender moved and what is still allowed is within
   the approved amount plus increases minus decreases.
   */
  lemma {:induction false} SinceApproval(p: Pair, states: seq<State>, calls: seq<Call>, oks: seq<bool>, k: nat, n: nat)
    requires Run(states, calls, oks) && k < n <= |calls| && Allowance(states[0], p) >= 0
    requires Approves(p, calls[k], oks[k]) && forall i | k < i < n :: !Approves(p, calls[i], oks[i])
    ensures var approved := if calls[k].amount > 0 then calls[k].amount else 0;
            && Allowance(states[n], p) >= 0
            && Spent(p, calls, oks, k + 1, n) + Allowance(states[n], p) <= approved + Adjusted(p, calls, oks, k + 1, n)
  {
    hide Step, Allowance, CanSpend, Spent, Adjusted, TrackAll;
    var acc := Account(Allowance(states[0], p), 0, true);
    OwnerIsNotSpender(states[k], calls[k], states[k + 1]);
    RunBalanced(acc, p, states, calls, oks, n);
    AccountIs(acc, p, states, calls, oks, k + 1, n);
    TrackNext(acc, p, states, calls, oks, k);
  }

  lemma TrackNext(acc: Account, p: Pair, states: seq<State>, calls: seq<Call>, oks: seq<bool>, k: nat)
    requires |states| == |calls| + 1 == |oks| + 1 && k < |calls|
    ensures TrackAll(acc, p, states, calls, oks, k + 1)
         == Track(TrackAll(acc, p, states, calls, oks, k), p, states[k], calls[k], oks[k], states[k + 1])
  {}

  lemma OwnerIsNotSpender(s: State, c: Call, s': State)
    requires c.Approve? && Step(s, c, true, s')
    ensures c.owner != c.spender
  {}
}
