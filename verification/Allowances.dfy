/**
 The ERC-20 view of the grant store: one number per owner, spender and denomination, at every
 instant. The steps of the token contract are specified on this view alone.
 */
module Allowances {
  import opened Options
  import opened Coins
  import opened Authz
  import opened Bank

  /** One token contract: its denomination, its own address and how long its approvals last. */
  datatype Token = Token(denom: string, address: Address, period: int)

  function SendKey(owner: Address, spender: Address): Key {
    Key(owner, spender, MsgSend)
  }

  /** `GetAuthzExpirationAndAllowance`, zero where it reports an error, as seen at time t. */
  function AllowanceAt(grants: Store, t: int, owner: Address, spender: Address, d: string): int {
    var g := Get(grants, SendKey(owner, spender), t);
    if g.Some? && g.value.auth.Send? then AmountOf(g.value.auth.limit, d) else 0
  }

  /** The `allowance` query: owners may always spend their own. */
  function AllowanceQuery(grants: Store, t: int, owner: Address, spender: Address, d: string): int {
    if owner == spender then MAX_UINT256 else AllowanceAt(grants, t, owner, spender, d)
  }

  /** Every spend limit in the store is strictly sorted, positive, within 256 bits and not empty. */
  ghost predicate ValidStore(grants: Store) {
    forall k | k in grants :: ValidAuth(grants[k].auth)
  }

  ghost predicate ValidAuth(a: Authorization) {
    a.Send? ==> Valid(a.limit) && a.limit != [] && Bounded(a.limit)
  }

  ghost predicate Bounded(cs: seq<Coin>) {
    forall d :: FitsUint256(AmountOf(cs, d))
  }

  // ---------------------------------------------------------------- frames

  /** Now and at all later times, no other allowance differs; nor does any other grant. */
  ghost predicate OthersKept(grants: Store, grants': Store, now: int, owner: Address, spender: Address, d: string) {
    && (forall t, d' | t >= now && d' != d ::
          AllowanceAt(grants', t, owner, spender, d') == AllowanceAt(grants, t, owner, spender, d'))
    && (forall k | k != SendKey(owner, spender) :: k in grants' <==> k in grants)
    && (forall k | k != SendKey(owner, spender) && k in grants :: grants'[k] == grants[k])
  }

  /** The allowance is a until the given expiry and nothing after it. */
  ghost predicate AllowedUntil(grants: Store, now: int, owner: Address, spender: Address, d: string, a: int,
                               expiration: Option<int>)
  {
    forall t | t >= now ::
      AllowanceAt(grants, t, owner, spender, d) == if expiration.Some? && expiration.value < t then 0 else a
  }

  /** An allowance becomes a, expiring when the grant behind it does, and nothing else changes. */
  ghost predicate AllowanceSet(grants: Store, grants': Store, now: int, token: Token, owner: Address, spender: Address,
                               a: int)
  {
    && OthersKept(grants, grants', now, owner, spender, token.denom)
    && AllowedUntil(grants', now, owner, spender, token.denom, a, ExpirationOf(grants, now, token, owner, spender))
    && RecipientsKept(grants, grants', now, owner, spender)
  }

  /** A live grant keeps its restriction of recipients; a new one has none. */
  ghost predicate RecipientsKept(grants: Store, grants': Store, now: int, owner: Address, spender: Address) {
    var k := SendKey(owner, spender);
    forall t | t >= now && HasSend(grants', t, owner, spender) ::
      if HasSend(grants, now, owner, spender) then grants'[k].auth.allowed == grants[k].auth.allowed
      else grants'[k].auth.allowed == []
  }

  /** A live grant keeps its expiry; a new one lasts for the approval period of the token. */
  function ExpirationOf(grants: Store, now: int, token: Token, owner: Address, spender: Address): Option<int> {
    var g := Get(grants, SendKey(owner, spender), now);
    if g.Some? then g.value.expiration else Some(now + token.period)
  }

  /** The grant could be written back. */
  predicate Writable(grants: Store, now: int, token: Token, owner: Address, spender: Address) {
    Savable(ExpirationOf(grants, now, token, owner, spender), now)
  }

  predicate NoGrant(grants: Store, now: int, owner: Address, spender: Address) {
    Get(grants, SendKey(owner, spender), now).None?
  }

  predicate HasSend(grants: Store, now: int, owner: Address, spender: Address) {
    var g := Get(grants, SendKey(owner, spender), now);
    g.Some? && g.value.auth.Send?
  }

  /** The denomination is the only one in its spend limit. */
  ghost predicate OnlyDenom(grants: Store, now: int, owner: Address, spender: Address, d: string) {
    forall d' | d' != d :: AllowanceAt(grants, now, owner, spender, d') == 0
  }

  // ---------------------------------------------------------------- when each call succeeds

  /** Taking the allowance to zero deletes the grant, or writes back what is left of it. */
  ghost predicate CanRemove(grants: Store, now: int, token: Token, owner: Address, spender: Address) {
    && HasSend(grants, now, owner, spender)
    && AllowanceAt(grants, now, owner, spender, token.denom) > 0
    && (OnlyDenom(grants, now, owner, spender, token.denom) || Writable(grants, now, token, owner, spender))
  }

  ghost predicate CanApprove(grants: Store, now: int, token: Token, owner: Address, spender: Address, amount: int) {
    && owner != spender
    && if amount > 0 then
         && FitsUint256(amount) && Writable(grants, now, token, owner, spender)
         && (NoGrant(grants, now, owner, spender) || HasSend(grants, now, owner, spender))
       else if NoGrant(grants, now, owner, spender) then amount == 0
       else CanRemove(grants, now, token, owner, spender)
  }

  ghost predicate CanIncrease(grants: Store, now: int, token: Token, owner: Address, spender: Address, added: int) {
    && owner != spender && added > 0 && Writable(grants, now, token, owner, spender)
    && (NoGrant(grants, now, owner, spender) || HasSend(grants, now, owner, spender))
    && FitsUint256(AllowanceAt(grants, now, owner, spender, token.denom) + added)
  }

  ghost predicate CanDecrease(grants: Store, now: int, token: Token, owner: Address, spender: Address, subtracted: int)
  {
    && owner != spender && subtracted > 0 && HasSend(grants, now, owner, spender)
    && var allowance := AllowanceAt(grants, now, owner, spender, token.denom);
       if subtracted == allowance then CanRemove(grants, now, token, owner, spender)
       else subtracted < allowance && Writable(grants, now, token, owner, spender)
  }

  /** The recipient may be restricted by a grant made outside the token contract. */
  predicate RecipientAllowed(grants: Store, now: int, owner: Address, spender: Address, to: Address) {
    var g := Get(grants, SendKey(owner, spender), now);
    g.Some? && g.value.auth.Send? && (g.value.auth.allowed == [] || to in g.value.auth.allowed)
  }

  /** The grant behind a transfer covers it. */
  ghost predicate CanSpend(grants: Store, now: int, token: Token, owner: Address, spender: Address, to: Address,
                           amount: int)
  {
    && 0 < amount <= AllowanceAt(grants, now, owner, spender, token.denom)
    && RecipientAllowed(grants, now, owner, spender, to)
  }

  // ---------------------------------------------------------------- the steps

  ghost predicate ApproveStep(grants: Store, grants': Store, now: int, token: Token, owner: Address, spender: Address,
                              amount: int, ok: bool)
  {
    && (ok <==> CanApprove(grants, now, token, owner, spender, amount))
    && if ok then AllowanceSet(grants, grants', now, token, owner, spender, if amount > 0 then amount else 0)
       else grants' == grants
  }

  ghost predicate IncreaseStep(grants: Store, grants': Store, now: int, token: Token, owner: Address, spender: Address,
                               added: int, ok: bool)
  {
    && (ok <==> CanIncrease(grants, now, token, owner, spender, added))
    && var allowance := AllowanceAt(grants, now, owner, spender, token.denom);
       if ok then AllowanceSet(grants, grants', now, token, owner, spender, allowance + added)
       else grants' == grants
  }

  ghost predicate DecreaseStep(grants: Store, grants': Store, now: int, token: Token, owner: Address, spender: Address,
                               subtracted: int, ok: bool)
  {
    && (ok <==> CanDecrease(grants, now, token, owner, spender, subtracted))
    && var allowance := AllowanceAt(grants, now, owner, spender, token.denom);
       if ok then AllowanceSet(grants, grants', now, token, owner, spender, allowance - subtracted)
       else grants' == grants
  }

  /** A grant is charged for a send it covers, whatever then becomes of the send. */
  ghost predicate Charged(grants: Store, grants': Store, now: int, token: Token, owner: Address, spender: Address,
                          to: Address, amount: int)
  {
    if CanSpend(grants, now, token, owner, spender, to, amount) then
      AllowanceSet(grants, grants', now, token, owner, spender, AllowanceAt(grants, now, owner, spender, token.denom) - amount)
    else grants' == grants
  }

  /** `accepts`: the bank takes the denomination and the recipient. */
  ghost predicate CanTransfer(grants: Store, balances: Balances, now: int, token: Token,
                              caller: Address, from: Address, to: Address, amount: int, accepts: bool)
  {
    && amount > 0 && FitsUint256(amount)
    && (caller == from || CanSpend(grants, now, token, from, caller, to, amount))
    && accepts && Balance(balances, from, token.denom) >= amount
  }

  ghost predicate TransferStep(grants: Store, grants': Store, balances: Balances, balances': Balances, now: int,
                               token: Token,
                               caller: Address, from: Address, to: Address, amount: int, accepts: bool, ok: bool)
  {
    && (ok <==> CanTransfer(grants, balances, now, token, caller, from, to, amount, accepts))
    && balances' == (if ok then Move(balances, from, to, token.denom, amount) else balances)
    && if caller == from then grants' == grants else Charged(grants, grants', now, token, from, caller, to, amount)
  }

  /** Time passes; the chain may prune grants that have expired. */
  ghost predicate TickStep(grants: Store, grants': Store, now: int, now': int) {
    && now <= now'
    && (forall k | k in grants' :: k in grants && grants'[k] == grants[k])
    && (forall k | k in grants && k !in grants' :: Expired(grants[k], now'))
  }
}
