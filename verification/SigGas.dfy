/** Gas for signature verification, through nested multisignatures. */
module SigGas {

  const SECP256K1_VERIFY_COST: nat := 21000

  datatype PubKey = EthSecp256k1 | Ed25519 | Multisig(keys: seq<PubKey>) | Other

  /** Signature data: bits say which keys signed, signatures are those of the keys that did. */
  datatype SigData = Single | Multi(bits: seq<bool>, sigs: seq<SigData>)

  datatype Outcome = Done | Rejected | OutOfGas | IndexPanic

  /** The number of set bits. */
  function Ones(bits: seq<bool>): nat {
    if bits == [] then 0 else Ones(bits[..|bits| - 1]) + if bits[|bits| - 1] then 1 else 0
  }

  // ---------------------------------------------------------------- selected leaves

  /** The signature that belongs to the key at a set bit. */
  predicate HasSignature(keys: seq<PubKey>, bits: seq<bool>, sigs: seq<SigData>, i: nat) {
    i < |bits| && i < |keys| && Ones(bits[..i]) < |sigs|
  }

  /** At every node a set bit has a key, and its place among the set bits has a signature. */
  ghost predicate WellFormed(pk: PubKey, d: SigData)
    decreases pk
  {
    pk.Multisig? && d.Multi? ==>
      forall i: nat | i < |d.bits| && d.bits[i] ::
        HasSignature(pk.keys, d.bits, d.sigs, i) && WellFormed(pk.keys[i], d.sigs[Ones(d.bits[..i])])
  }

  /** Every selected leaf is an Ethereum key, and every multisignature key has multisignature data. */
  ghost predicate AllEthereum(pk: PubKey, d: SigData)
    decreases pk
  {
    match pk
    case EthSecp256k1 => true
    case Multisig(keys) =>
      && d.Multi?
      && forall i: nat | i < |d.bits| && d.bits[i] && HasSignature(keys, d.bits, d.sigs, i) ::
           AllEthereum(keys[i], d.sigs[Ones(d.bits[..i])])
    case _ => false
  }

  /** How many leaves are selected. */
  ghost function Leaves(pk: PubKey, d: SigData): nat
    decreases pk, 0
  {
    if !pk.Multisig? then 1 else if d.Multi? then LeavesUpTo(pk, d, |d.bits|) else 0
  }

  ghost function LeavesUpTo(pk: PubKey, d: SigData, n: nat): nat
    requires pk.Multisig? && d.Multi? && n <= |d.bits|
    decreases pk, 0, n
  {
    if n == 0 then 0
    else
      LeavesUpTo(pk, d, n - 1) +
      if d.bits[n - 1] && HasSignature(pk.keys, d.bits, d.sigs, n - 1)
      then Leaves(pk.keys[n - 1], d.sigs[Ones(d.bits[..n - 1])]) else 0
  }

  // ---------------------------------------------------------------- the meter

  class Meter {
    const limit: nat
    var consumed: nat

    constructor (limit: nat)
      ensures this.limit == limit && consumed == 0
    {
      this.limit, consumed := limit, 0;
    }

    /** Panics once more than the limit has been consumed. */
    method ConsumeGas(amount: nat) returns (ok: bool)
      modifies this`consumed
      ensures consumed == old(consumed) + amount
      ensures ok <==> consumed <= limit
    {
      consumed := consumed + amount;
      ok := consumed <= limit;
    }
  }

  ghost predicate Succeeds(pk: PubKey, d: SigData) {
    WellFormed(pk, d) && AllEthereum(pk, d)
  }

  /** 21000 for each leaf. */
  function Cost(n: nat): (c: nat)
    ensures c == 21000 * n
  {
    SECP256K1_VERIFY_COST * n
  }

  lemma CostSum(a: nat, b: nat)
    ensures Cost(a + b) == Cost(a) + Cost(b)
    ensures Cost(1) == SECP256K1_VERIFY_COST && Cost(0) == 0
  {}

  /** Succeeded so far: the first n bits of a node. */
  ghost predicate SucceedsUpTo(pk: PubKey, d: SigData, n: nat)
    requires pk.Multisig? && d.Multi? && n <= |d.bits|
  {
    forall i: nat | i < n && d.bits[i] ::
      HasSignature(pk.keys, d.bits, d.sigs, i) && Succeeds(pk.keys[i], d.sigs[Ones(d.bits[..i])])
  }

  lemma {:induction false} SucceedsNode(pk: PubKey, d: SigData)
    requires pk.Multisig? && d.Multi?
    ensures Succeeds(pk, d) <==> SucceedsUpTo(pk, d, |d.bits|)
  {
    hide HasSignature, Ones;
  }

  /**
   `SigVerificationGasConsumer`. It succeeds exactly when the tree is well-formed, all its
   selected leaves are Ethereum keys and the gas suffices, and then has charged 21000 for each.
   */
  method SigVerificationGasConsumer(meter: Meter, pk: PubKey, d: SigData, ed25519Cost: nat) returns (r: Outcome)
    requires meter.consumed <= meter.limit
    modifies meter`consumed
    ensures r.Done? <==> Succeeds(pk, d) && old(meter.consumed) + 21000 * Leaves(pk, d) <= meter.limit
    ensures r.Done? ==> meter.consumed == old(meter.consumed) + 21000 * Leaves(pk, d) <= meter.limit
    ensures WellFormed(pk, d) ==> !r.IndexPanic?
    ensures pk.Ed25519? ==> !r.Done? && meter.consumed == old(meter.consumed) + ed25519Cost
    ensures meter.consumed >= old(meter.consumed)
    decreases pk, 1
  {
    hide Cost, LeavesUpTo;
    CostSum(0, 0);
    match pk {
      case EthSecp256k1 =>
        var ok := meter.ConsumeGas(SECP256K1_VERIFY_COST);
        return if ok then Done else OutOfGas;
      case Ed25519 =>
        var ok := meter.ConsumeGas(ed25519Cost);
        return if ok then Rejected else OutOfGas;
      case Multisig(_) =>
        if !d.Multi? {
          return Rejected;
        }
        SucceedsNode(pk, d);
        r := ConsumeMultisignatureVerificationGas(meter, pk, d, ed25519Cost);
      case Other =>
        return Rejected;
    }
  }

  /** `ConsumeMultisignatureVerificationGas`: one node, in the order of its bits. */
  method ConsumeMultisignatureVerificationGas(meter: Meter, pk: PubKey, d: SigData, ed25519Cost: nat)
    returns (r: Outcome)
    requires meter.consumed <= meter.limit && pk.Multisig? && d.Multi?
    modifies meter`consumed
    ensures r.Done? <==> SucceedsUpTo(pk, d, |d.bits|) && old(meter.consumed) + 21000 * LeavesUpTo(pk, d, |d.bits|) <= meter.limit
    ensures r.Done? ==> meter.consumed == old(meter.consumed) + 21000 * LeavesUpTo(pk, d, |d.bits|) <= meter.limit
    ensures WellFormed(pk, d) ==> !r.IndexPanic?
    ensures meter.consumed >= old(meter.consumed)
    decreases pk, 0
  {
    hide Cost, Succeeds, Ones, Leaves, LeavesUpTo, SucceedsUpTo;
    var sigIndex := 0;
    FirstBit(pk, d);
    for i := 0 to |d.bits|
      invariant sigIndex == Ones(d.bits[..i])
      invariant SucceedsUpTo(pk, d, i)
      invariant meter.consumed == old(meter.consumed) + Cost(LeavesUpTo(pk, d, i)) <= meter.limit
    {
      NextBit(pk, d, i);
      if !d.bits[i] {
        continue;
      }
      if !(i < |pk.keys| && sigIndex < |d.sigs|) {
        StopsAt(pk, d, i);
        return IndexPanic;
      }
      r := SigVerificationGasConsumer(meter, pk.keys[i], d.sigs[sigIndex], ed25519Cost);
      if !r.Done? {
        StopsAt(pk, d, i);
        return;
      }
      sigIndex := sigIndex + 1;
    }
    r := Done;
  }

  lemma FirstBit(pk: PubKey, d: SigData)
    requires pk.Multisig? && d.Multi?
    ensures SucceedsUpTo(pk, d, 0) && Cost(LeavesUpTo(pk, d, 0)) == 0 && Ones(d.bits[..0]) == 0
  {}

  /** The signature index is the number of set bits seen so far; a set bit adds its subtree. */
  lemma {:induction false} NextBit(pk: PubKey, d: SigData, i: nat)
    requires pk.Multisig? && d.Multi? && i < |d.bits|
    ensures Ones(d.bits[..i + 1]) == Ones(d.bits[..i]) + if d.bits[i] then 1 else 0
    ensures !d.bits[i] ==> LeavesUpTo(pk, d, i + 1) == LeavesUpTo(pk, d, i)
    ensures d.bits[i] && HasSignature(pk.keys, d.bits, d.sigs, i) ==>
              && LeavesUpTo(pk, d, i + 1) == LeavesUpTo(pk, d, i) + Leaves(pk.keys[i], d.sigs[Ones(d.bits[..i])])
              && Cost(LeavesUpTo(pk, d, i + 1)) == Cost(LeavesUpTo(pk, d, i)) + Cost(Leaves(pk.keys[i], d.sigs[Ones(d.bits[..i])]))
    ensures SucceedsUpTo(pk, d, i + 1) <==>
              (&& SucceedsUpTo(pk, d, i)
               && (d.bits[i] ==> HasSignature(pk.keys, d.bits, d.sigs, i) && Succeeds(pk.keys[i], d.sigs[Ones(d.bits[..i])])))
  {
    hide Cost, Succeeds, Leaves;
    assert d.bits[..i + 1][..i] == d.bits[..i];
    if d.bits[i] && HasSignature(pk.keys, d.bits, d.sigs, i) {
      CostSum(LeavesUpTo(pk, d, i), Leaves(pk.keys[i], d.sigs[Ones(d.bits[..i])]));
    }
  }

  /** A node that fails at one bit, or runs out of gas there, fails. */
  lemma {:induction false} StopsAt(pk: PubKey, d: SigData, i: nat)
    requires pk.Multisig? && d.Multi? && i < |d.bits|
    ensures SucceedsUpTo(pk, d, |d.bits|) ==> SucceedsUpTo(pk, d, i + 1)
    ensures Cost(LeavesUpTo(pk, d, |d.bits|)) >= Cost(LeavesUpTo(pk, d, i + 1))
    decreases |d.bits| - i
  {
    hide Cost, Succeeds, Leaves, HasSignature;
    LeavesMonotone(pk, d, i + 1, |d.bits|);
    CostSum(LeavesUpTo(pk, d, i + 1), LeavesUpTo(pk, d, |d.bits|) - LeavesUpTo(pk, d, i + 1));
  }

  lemma {:induction false} LeavesMonotone(pk: PubKey, d: SigData, i: nat, n: nat)
    requires pk.Multisig? && d.Multi? && i <= n <= |d.bits|
    ensures LeavesUpTo(pk, d, i) <= LeavesUpTo(pk, d, n)
    decreases n
  {
    hide Leaves;
    if i < n {
      LeavesMonotone(pk, d, i, n - 1);
    }
  }
}
