/** Whole runs of staking approvals, changes and uses: what is executed under a limited grant. */
module StakingRuns {
  import opened Options
  import opened Authz
  import opened Staking
  import Allowances

  datatype State = State(now: int, grants: Store)

  /** `types` are those a call went through before one was refused; an executed message is one the grant was charged for. */
  datatype Call =
    | Approve(granter: Address, grantee: Address, amount: nat, types: seq<MsgType>,
              validators: seq<Address>, expiration: int)
    | Increase(granter: Address, grantee: Address, amount: nat, types: seq<MsgType>)
    | Decrease(granter: Address, grantee: Address, amount: nat, types: seq<MsgType>)
    | Execute(key: Key, amount: nat, validator: Address)
    | Tick

  ghost predicate Step(s: State, c: Call, s': State) {
    match c
    case Approve(granter, grantee, amount, types, validators, expiration) =>
      GrantedMany(s.grants, s'.grants, granter, grantee, types, amount, validators, expiration) && s'.now == s.now
    case Increase(granter, grantee, amount, types) =>
      && ShiftedMany(s.grants, s'.grants, granter, grantee, types, amount)
      && AllLive(s.grants, s.now, granter, grantee, types) && s'.now == s.now
    case Decrease(granter, grantee, amount, types) =>
      && ShiftedMany(s.grants, s'.grants, granter, grantee, types, 0 - amount)
      && AllLive(s.grants, s.now, granter, grantee, types) && s'.now == s.now
    case Execute(key, amount, validator) =>
      CanUse(s.grants, s.now, key, amount, validator) && s'.grants == Used(s.grants, key, amount) && s'.now == s.now
    case Tick =>
      Allowances.TickStep(s.grants, s'.grants, s.now, s'.now)
  }

  ghost predicate Run(states: seq<State>, calls: seq<Call>) {
    && |states| == |calls| + 1
    && forall i | 0 <= i < |calls| :: Step(states[i], calls[i], states[i + 1])
  }

  function View(s: State, k: Key): Staking.View {
    ViewAt(s.grants, s.now, k)
  }

  /** Since the last approval: whether there is a limit, what it was moved to, and what was executed. */
  datatype Account = Account(limited: bool, budget: int, executed: int)

  ghost function Open(v: Staking.View): Account {
    match v
    case Absent => Account(true, 0, 0)
    case Unlimited => Account(false, 0, 0)
    case Limited(n) => Account(true, n, 0)
  }

  /** How often a call names the grant. */
  ghost function Count(c: Call, k: Key): nat
    requires c.Increase? || c.Decrease?
  {
    if Named(k, c.granter, c.grantee, c.types) then multiset(c.types)[k.msg] else 0
  }

  ghost function Track(acc: Account, k: Key, c: Call): Account {
    match c
    case Approve(granter, grantee, amount, types, _, _) =>
      if !Named(k, granter, grantee, types) then acc
      else if amount == MAX_UINT256 then Account(false, 0, 0)
      else Account(true, amount, 0)
    case Increase(_, _, amount, _) => acc.(budget := acc.budget + Times(Count(c, k), amount))
    case Decrease(_, _, amount, _) => acc.(budget := acc.budget + Times(Count(c, k), 0 - amount))
    case Execute(key, amount, _) => if key == k then acc.(executed := acc.executed + amount) else acc
    case Tick => acc
  }

  ghost function TrackAll(acc: Account, k: Key, calls: seq<Call>): Account {
    if calls == [] then acc else Track(TrackAll(acc, k, calls[..|calls| - 1]), k, calls[|calls| - 1])
  }

  /** A live limit is exactly what is left; once a limited grant is gone, no more than its budget was executed. */
  ghost predicate Balanced(acc: Account, v: Staking.View) {
    match v
    case Absent => acc.limited ==> acc.executed <= acc.budget
    case Unlimited => !acc.limited
    case Limited(n) => acc.limited && n + acc.executed == acc.budget
  }

  // ---------------------------------------------------------------- one step

  lemma {:induction false} ApproveBalanced(acc: Account, k: Key, s: State, c: Call, s': State)
    requires c.Approve? && Step(s, c, s') && Balanced(acc, View(s, k))
    ensures Balanced(Track(acc, k, c), View(s', k))
  {}

  lemma {:induction false} ShiftBalanced(acc: Account, k: Key, s: State, c: Call, s': State)
    requires (c.Increase? || c.Decrease?) && Step(s, c, s') && Balanced(acc, View(s, k))
    ensures Balanced(Track(acc, k, c), View(s', k))
  {
    hide ShiftedMany, Times, ViewAt;
    var delta := if c.Increase? then c.amount else 0 - c.amount;
    ShiftedView(s.grants, s'.grants, c.granter, c.grantee, c.types, delta, s.now, k);
    TimesNext(0, delta);
    if Named(k, c.granter, c.grantee, c.types) {
      assert k == Key(c.granter, c.grantee, k.msg);
      assert !View(s, k).Absent?;
    }
  }

  lemma {:induction false} ExecuteBalanced(acc: Account, k: Key, s: State, c: Call, s': State)
    requires c.Execute? && Step(s, c, s') && Balanced(acc, View(s, k))
    ensures Balanced(Track(acc, k, c), View(s', k))
  {}

  lemma {:induction false} TickBalanced(acc: Account, k: Key, s: State, s': State)
    requires Step(s, Tick, s') && Balanced(acc, View(s, k)) && acc.executed >= 0
    ensures Balanced(acc, View(s', k))
  {}

  /** Increase, decrease and use leave a grant without limit as it is. */
  lemma {:induction false} UnlimitedStays(k: Key, s: State, c: Call, s': State)
    requires c.Increase? || c.Decrease? || c.Execute?
    requires Step(s, c, s') && View(s, k).Unlimited?
    ensures View(s', k).Unlimited?
  {
    hide ShiftedMany;
    if !c.Execute? {
      var delta := if c.Increase? then c.amount else 0 - c.amount;
      ShiftedView(s.grants, s'.grants, c.granter, c.grantee, c.types, delta, s.now, k);
    }
  }

  // ---------------------------------------------------------------- runs

  lemma {:induction false} TrackExecuted(acc: Account, k: Key, calls: seq<Call>)
    requires acc.executed >= 0
    ensures TrackAll(acc, k, calls).executed >= 0
  {
    hide Times, Count, Named;
    if calls != [] {
      TrackExecuted(acc, k, calls[..|calls| - 1]);
    }
  }

  lemma {:induction false} RunBalanced(acc: Account, k: Key, states: seq<State>, calls: seq<Call>, n: nat)
    requires Run(states, calls) && n <= |calls| && acc.executed >= 0 && Balanced(acc, View(states[0], k))
    ensures Balanced(TrackAll(acc, k, calls[..n]), View(states[n], k))
  {
    hide Step, View, Balanced, Track;
    if n > 0 {
      RunBalanced(acc, k, states, calls, n - 1);
      assert calls[..n][..n - 1] == calls[..n - 1];
      var before, c := TrackAll(acc, k, calls[..n - 1]), calls[n - 1];
      TrackExecuted(acc, k, calls[..n - 1]);
      if c.Approve? {
        ApproveBalanced(before, k, states[n - 1], c, states[n]);
      } else if c.Execute? {
        ExecuteBalanced(before, k, states[n - 1], c, states[n]);
      } else if c.Tick? {
        TickBalanced(before, k, states[n - 1], states[n]);
        TickTracks(before, k);
      } else {
        ShiftBalanced(before, k, states[n - 1], c, states[n]);
      }
    }
  }

  lemma TickTracks(acc: Account, k: Key)
    ensures Track(acc, k, Tick) == acc
  {}

  /**
   Over any run, what was executed under a limited grant since it was approved stays within what
   was approved plus increased minus decreased, and while it lives the limit is the difference.
   */
  lemma {:induction false} ExecutionBounded(k: Key, states: seq<State>, calls: seq<Call>)
    requires Run(states, calls)
    ensures var acc := TrackAll(Open(View(states[0], k)), k, calls);
            && (acc.limited ==> acc.executed <= acc.budget)
            && (View(states[|calls|], k).Limited? ==> acc.limited && View(states[|calls|], k).amount == acc.budget - acc.executed)
  {
    hide Step, View, Track;
    RunBalanced(Open(View(states[0], k)), k, states, calls, |calls|);
    assert calls[..|calls|] == calls;
    TrackExecuted(Open(View(states[0], k)), k, calls);
  }

  // ---------------------------------------------------------------- since an approval, summed call by call

  /** Executed under the grant by calls j, ..., n - 1. */
  function Executed(k: Key, calls: seq<Call>, j: nat, n: nat): int
    requires n <= |calls|
  {
    if n <= j then 0
    else Executed(k, calls, j, n - 1) + if calls[n - 1].Execute? && calls[n - 1].key == k then calls[n - 1].amount else 0
  }

  /** Increases less decreases, each once for every time the call names the grant. */
  ghost function Adjusted(k: Key, calls: seq<Call>, j: nat, n: nat): int
    requires n <= |calls|
  {
    if n <= j then 0
    else
      var c := calls[n - 1];
      Adjusted(k, calls, j, n - 1) +
      if c.Increase? then Count(c, k) * c.amount else if c.Decrease? then -(Count(c, k) * c.amount) else 0
  }

  ghost predicate Approves(k: Key, c: Call) {
    c.Approve? && c.granter == k.granter && c.grantee == k.grantee && k.msg in c.types
  }

  lemma TimesNegative(n: nat, a: nat)
    ensures Times(n, 0 - a) == -(n * a) && Times(n, a) == n * a
  {}

  /** Between approvals the tracked account moves by these sums. */
  lemma {:induction false} AccountIs(acc: Account, k: Key, calls: seq<Call>, j: nat, n: nat)
    requires j <= n <= |calls| && forall i | j <= i < n :: !Approves(k, calls[i])
    ensures var a, b := TrackAll(acc, k, calls[..j]), TrackAll(acc, k, calls[..n]);
            && b.limited == a.limited
            && b.executed == a.executed + Executed(k, calls, j, n)
            && b.budget == a.budget + Adjusted(k, calls, j, n)
  {
    hide Times, Count;
    if j < n {
      AccountIs(acc, k, calls, j, n - 1);
      TrackNext(acc, k, calls, n - 1);
      var c := calls[n - 1];
      if c.Increase? || c.Decrease? {
        TimesNegative(Count(c, k), c.amount);
      }
    }
  }

  lemma {:induction false} TrackNext(acc: Account, k: Key, calls: seq<Call>, n: nat)
    requires n < |calls|
    ensures TrackAll(acc, k, calls[..n + 1]) == Track(TrackAll(acc, k, calls[..n]), k, calls[n])
  {
    hide Track;
    assert calls[..n + 1][..n] == calls[..n];
  }

  /**
   After an approval of an amount, and up to the next one, what is executed stays within that amount plus
   increases minus decreases, and while the grant lives its limit is exactly the difference. After an approval
   of the largest amount a live grant has no limit.
   */
  lemma {:induction false} SinceApproval(k: Key, states: seq<State>, calls: seq<Call>, j: nat, n: nat)
    requires Run(states, calls) && j < n <= |calls|
    requires Approves(k, calls[j]) && forall i | j < i < n :: !Approves(k, calls[i])
    ensures var left := calls[j].amount + Adjusted(k, calls, j + 1, n) - Executed(k, calls, j + 1, n);
            if calls[j].amount == MAX_UINT256 then !View(states[n], k).Limited?
            else 0 <= left && !View(states[n], k).Unlimited? && (View(states[n], k).Limited? ==> View(states[n], k).amount == left)
  {
    hide Step, View, Executed, Adjusted, TrackAll;
    var acc := Open(View(states[0], k));
    RunBalanced(acc, k, states, calls, n);
    AccountIs(acc, k, calls, j + 1, n);
    TrackNext(acc, k, calls, j);
  }
}
