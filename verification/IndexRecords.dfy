/** What an indexed record says about its message, read off the block alone. */
module IndexRecords {
  import opened Arith
  import opened Options
  import opened KVIndexer
  import opened IndexLookup

  /** All indexed messages of a block, as (transaction, message) indices in order. */
  function Places(b: Block): seq<(nat, nat)> {
    Positions(b, |b.txs|, 0)
  }

  /**
   Which messages are indexed: those of decodable Ethereum transactions that succeeded or failed as expected and
   whose events can be parsed, except messages of a succeeding transaction that are missing from the events.
   */
  lemma {:induction false} IndexedIff(b: Block, t: nat, m: nat)
    ensures (t, m) in Places(b) <==>
              (&& t < |b.txs| && m < |b.txs[t].msgs|
               && b.txs[t].expected && b.txs[t].decodes && b.txs[t].isEth && b.txs[t].parses
               && (b.txs[t].codeOk ==> b.txs[t].msgs[m].parsed.Some?))
  {
    hide Positions;
    PositionsExact(b, |b.txs|, 0);
  }

  /** The record of message m of transaction t, up to its place in the block and the gas before it. */
  ghost predicate Says(b: Block, t: nat, m: nat, r: TxResult)
    requires t < |b.txs| && m < |b.txs[t].msgs|
  {
    var tx, msg := b.txs[t], b.txs[t].msgs[m];
    && r.height == b.height && r.txIndex == t % 0x1_0000_0000 && r.msgIndex == m % 0x1_0000_0000
    && if tx.codeOk then msg.parsed.Some? && r.gasUsed == msg.parsed.value.gasUsed && r.failed == msg.parsed.value.failed
       else r.gasUsed == msg.gasLimit && r.failed
  }

  lemma {:induction false} EntrySays(b: Block, i: nat)
    requires i < |Entries(b)|
    ensures |Places(b)| == |Entries(b)|
    ensures var (t, m) := Places(b)[i];
            && t < |b.txs| && m < |b.txs[t].msgs|
            && Entries(b)[i].hash == b.txs[t].msgs[m].hash && Says(b, t, m, Entries(b)[i].record)
  {
    hide Positions;
    PositionsExact(b, |b.txs|, 0);
  }

  // ---------------------------------------------------------------- cumulative gas

  lemma {:induction false} GasFlat(tx: Tx, a: nat, c: nat)
    requires a <= c <= |tx.msgs| && forall j | a <= j < c :: !Kept(tx, tx.msgs[j])
    ensures GasBefore(tx, c) == GasBefore(tx, a)
  {
    if a < c {
      GasFlat(tx, a, c - 1);
    }
  }

  /** Between neighbouring places no message is kept. */
  lemma {:induction false} NoneBetween(b: Block, i: nat, j: nat)
    requires i < |Places(b)|
    requires var (t, m) := Places(b)[i];
             j < m && if i > 0 && Places(b)[i - 1].0 == t then Places(b)[i - 1].1 < j else true
    ensures (Places(b)[i].0, j) !in Places(b)
  {
    hide Positions;
    var ps := Places(b);
    PositionsExact(b, |b.txs|, 0);
    forall x | 0 <= x < |ps|
      ensures ps[x] != (ps[i].0, j)
    {
      if x > i {
        assert Before(ps[i], ps[x]);
      } else if x < i - 1 {
        assert Before(ps[x], ps[i - 1]) && Before(ps[i - 1], ps[i]);
      }
    }
  }

  /**
   Cumulative gas starts anew with each transaction and grows by the gas of every indexed message, as a 64-bit number.
   */
  lemma {:induction false} CumulativeGas(b: Block, i: nat)
    requires i < |Entries(b)|
    ensures |Places(b)| == |Entries(b)|
    ensures var r := Entries(b)[i].record;
            var before := if i > 0 && Places(b)[i - 1].0 == Places(b)[i].0 then Entries(b)[i - 1].record.cumulativeGasUsed else 0;
            r.cumulativeGasUsed == (before + r.gasUsed) % TWO64
  {
    hide Positions;
    var ps := Places(b);
    PositionsExact(b, |b.txs|, 0);
    var (t, m) := ps[i];
    var tx := b.txs[t];
    var from := if i > 0 && ps[i - 1].0 == t then ps[i - 1].1 + 1 else 0;
    if i > 0 {
      assert Before(ps[i - 1], ps[i]);
    }
    forall j | from <= j < m
      ensures !Kept(tx, tx.msgs[j])
    {
      NoneBetween(b, i, j);
      assert !IsKept(b, (t, j));
    }
    GasFlat(tx, from, m);
    AddModulo(GasBefore(tx, from), GasOf(tx, tx.msgs[m]));
  }

  // ---------------------------------------------------------------- found again

  /** With all hashes of a run different, the lookups of an indexed message give a record that says what happened to it. */
  lemma {:induction false} FoundSays(bs: seq<Block>, k: nat, t: nat, m: nat) returns (i: nat, r: TxResult)
    requires ValidRun(bs) && k < |bs| && (t, m) in Places(bs[k])
    requires forall g, g' | 0 <= g < g' < |History(bs)| :: History(bs)[g].hash != History(bs)[g'].hash
    ensures t < |bs[k].txs| && m < |bs[k].txs[t].msgs| && i < TWO31
    ensures i < |Places(bs[k])| && Places(bs[k])[i] == (t, m) && r.ethTxIndex == i && Says(bs[k], t, m, r)
    ensures GetByTxHash(IndexAll(map[], bs), bs[k].txs[t].msgs[m].hash) == Found(r)
    ensures GetByBlockAndIndex(IndexAll(map[], bs), bs[k].height, i) == Found(r)
  {
    hide Entries, History, IndexAll, GetByTxHash, GetByBlockAndIndex, Positions, Says;
    i :| 0 <= i < |Places(bs[k])| && Places(bs[k])[i] == (t, m);
    PlacesCount(bs[k]);
    EntrySays(bs[k], i);
    EthIndexIsPosition(bs[k], i);
    DistinctAgreement(bs, k, i);
    r := Entries(bs[k])[i].record;
  }

  lemma PlacesCount(b: Block)
    ensures |Places(b)| == |Entries(b)|
  {}
}
