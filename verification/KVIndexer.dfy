/**
 The Ethereum transaction index: what indexing a block stores, and what the two lookups find
 after any run of indexed blocks.

 Decoding a transaction and parsing its events happen outside; a block carries their outcomes.
 */
module KVIndexer {
  import opened Arith
  import opened Options
  import opened IndexKeys
  import Codec = TxResultCodec

  type TxResult = Codec.TxResult

  /** What the events say about one message. */
  datatype ParsedTx = ParsedTx(gasUsed: uint64, failed: bool)

  datatype Msg = Msg(hash: Hash, gasLimit: uint64, parsed: Option<ParsedTx>)

  /**
   `expected`: succeeded or failed in the expected way; `decodes`, `isEth`, `parses`: the three
   further filters; `codeOk`: the result code is zero.
   */
  datatype Tx = Tx(expected: bool, decodes: bool, isEth: bool, parses: bool, codeOk: bool, msgs: seq<Msg>)

  datatype Block = Block(height: int64, txs: seq<Tx>)

  // ---------------------------------------------------------------- what is indexed

  predicate Indexable(tx: Tx) {
    tx.expected && tx.decodes && tx.isEth && tx.parses
  }

  /** A message of a succeeding transaction that is missing from the events is passed over. */
  predicate Kept(tx: Tx, msg: Msg) {
    !tx.codeOk || msg.parsed.Some?
  }

  /** Past the block gas limit the whole limit is charged. */
  function GasOf(tx: Tx, msg: Msg): uint64 {
    if !tx.codeOk then msg.gasLimit else if msg.parsed.Some? then msg.parsed.value.gasUsed else 0
  }

  predicate FailedOf(tx: Tx, msg: Msg) {
    !tx.codeOk || (msg.parsed.Some? && msg.parsed.value.failed)
  }

  /** How many messages of a transaction are looked at. */
  function Scanned(b: Block, t: nat): nat
    requires t < |b.txs|
  {
    if Indexable(b.txs[t]) then |b.txs[t].msgs| else 0
  }

  predicate Reached(b: Block, t: nat, m: nat) {
    t <= |b.txs| && (m > 0 ==> t < |b.txs| && m <= Scanned(b, t))
  }

  predicate IsKept(b: Block, p: (nat, nat)) {
    p.0 < |b.txs| && p.1 < Scanned(b, p.0) && Kept(b.txs[p.0], b.txs[p.0].msgs[p.1])
  }

  predicate Before(p: (nat, nat), q: (nat, nat)) {
    p.0 < q.0 || (p.0 == q.0 && p.1 < q.1)
  }

  /** The kept messages before message m of transaction t, as (transaction, message) indices in order. */
  function Positions(b: Block, t: nat, m: nat): (ps: seq<(nat, nat)>)
    requires Reached(b, t, m)
    ensures forall i | 0 <= i < |ps| :: IsKept(b, ps[i]) && Before(ps[i], (t, m))
    decreases t, m
  {
    if m > 0 then Positions(b, t, m - 1) + (if Kept(b.txs[t], b.txs[t].msgs[m - 1]) then [(t, m - 1)] else [])
    else if t > 0 then Positions(b, t - 1, Scanned(b, t - 1))
    else []
  }

  /** Every kept message has exactly one place, and places follow block order. */
  lemma {:induction false} PositionsExact(b: Block, t: nat, m: nat)
    requires Reached(b, t, m)
    ensures forall p :: p in Positions(b, t, m) <==> IsKept(b, p) && Before(p, (t, m))
    ensures forall i, j | 0 <= i < j < |Positions(b, t, m)| :: Before(Positions(b, t, m)[i], Positions(b, t, m)[j])
    decreases t, m
  {
    if m > 0 {
      PositionsExact(b, t, m - 1);
    } else if t > 0 {
      PositionsExact(b, t - 1, Scanned(b, t - 1));
    }
  }

  /** Gas of the kept messages of a transaction before message m. */
  function GasBefore(tx: Tx, m: nat): nat
    requires m <= |tx.msgs|
  {
    if m == 0 then 0 else GasBefore(tx, m - 1) + (if Kept(tx, tx.msgs[m - 1]) then GasOf(tx, tx.msgs[m - 1]) else 0)
  }

  datatype Entry = Entry(hash: Hash, record: TxResult)

  /** The entry of the i-th indexed message of a block; counters have the width of their Go types. */
  function EntryAt(b: Block, p: (nat, nat), i: nat): Entry
    requires IsKept(b, p)
  {
    var tx := b.txs[p.0];
    var msg := tx.msgs[p.1];
    Entry(msg.hash, Codec.TxResult(b.height, p.0 % TWO32, p.1 % TWO32, ToInt32(i), FailedOf(tx, msg),
                                   GasOf(tx, msg), GasBefore(tx, p.1 + 1) % TWO64))
  }

  function EntriesBefore(b: Block, t: nat, m: nat): (es: seq<Entry>)
    requires Reached(b, t, m)
    ensures |es| == |Positions(b, t, m)|
  {
    var ps := Positions(b, t, m);
    seq(|ps|, i requires 0 <= i < |ps| => EntryAt(b, ps[i], i))
  }

  function Entries(b: Block): seq<Entry> {
    EntriesBefore(b, |b.txs|, 0)
  }

  // ---------------------------------------------------------------- the database

  type DB = map<bytes, bytes>

  function Put(db: DB, e: Entry): DB {
    db[HashKey(e.hash) := Codec.Encode(e.record)][IndexKey(e.record.height, e.record.ethTxIndex) := e.hash]
  }

  function PutAll(db: DB, es: seq<Entry>): DB {
    if es == [] then db else Put(PutAll(db, es[..|es| - 1]), es[|es| - 1])
  }

  /** A batch of writes, applied in order. */
  function Flush(db: DB, batch: seq<(bytes, bytes)>): DB {
    if batch == [] then db
    else
      var (k, v) := batch[|batch| - 1];
      Flush(db, batch[..|batch| - 1])[k := v]
  }

  function Writes(es: seq<Entry>): seq<(bytes, bytes)> {
    if es == [] then [] else Writes(es[..|es| - 1]) + SaveTxResult(es[|es| - 1])
  }

  /** `saveTxResult`: the two writes of an entry. */
  function SaveTxResult(e: Entry): seq<(bytes, bytes)> {
    [(HashKey(e.hash), Codec.Encode(e.record)), (IndexKey(e.record.height, e.record.ethTxIndex), e.hash)]
  }

  lemma {:induction false} FlushWrites(db: DB, es: seq<Entry>)
    ensures Flush(db, Writes(es)) == PutAll(db, es)
  {
    hide HashKey, IndexKey, Codec.Encode;
    if es != [] {
      var front, e := es[..|es| - 1], es[|es| - 1];
      FlushWrites(db, front);
      var w := Writes(front);
      var s := SaveTxResult(e);
      assert (w + s)[..|w| + 1] == w + [s[0]];
      assert (w + [s[0]])[..|w|] == w;
      assert (w + s)[|w| + 1] == s[1];
    }
  }

  /** `i++` on an `int32` */
  function Next32(i: int32): int32 {
    if i == TWO31 - 1 then -TWO31 else i + 1
  }

  lemma Next32Counts(n: nat)
    ensures Next32(ToInt32(n)) == ToInt32(n + 1)
  {
    var q, r := Divide(n, TWO32);
    if r + 1 < TWO32 {
      ModUnique(n + 1, TWO32, q, r + 1);
    } else {
      ModUnique(n + 1, TWO32, q + 1, 0);
    }
  }

  lemma AddModulo(a: nat, b: nat)
    ensures (a % TWO64 + b) % TWO64 == (a + b) % TWO64
  {
    var q, r := Divide(a, TWO64);
    var q', r' := Divide(r + b, TWO64);
    ModUnique(a + b, TWO64, q + q', r');
  }

  lemma {:induction false} NextTransaction(b: Block, t: nat)
    requires t < |b.txs|
    ensures EntriesBefore(b, t + 1, 0) == EntriesBefore(b, t, Scanned(b, t))
  {}

  lemma {:induction false} NextMessage(b: Block, t: nat, m: nat, e: Entry)
    requires t < |b.txs| && Indexable(b.txs[t]) && m < |b.txs[t].msgs|
    requires Kept(b.txs[t], b.txs[t].msgs[m]) ==> e == EntryAt(b, (t, m), |EntriesBefore(b, t, m)|)
    ensures EntriesBefore(b, t, m + 1)
         == EntriesBefore(b, t, m) + (if Kept(b.txs[t], b.txs[t].msgs[m]) then [e] else [])
  {
    hide Kept, EntryAt;
    var ps, qs := Positions(b, t, m), Positions(b, t, m + 1);
    assert |ps| <= |qs| && qs[..|ps|] == ps;
    if Kept(b.txs[t], b.txs[t].msgs[m]) {
      assert qs[|ps|] == (t, m);
    }
  }

  class Indexer {
    var db: DB

    constructor ()
      ensures db == map[]
    {
      db := map[];
    }

    /** Walks the block, collects a batch and writes it; `writes` says whether the database takes the batch. */
    method IndexBlock(b: Block, writes: bool) returns (ok: bool)
      modifies this
      ensures ok <==> writes
      ensures db == if ok then PutAll(old(db), Entries(b)) else old(db)
    {
      hide Flush, PutAll, Codec.Encode, ToInt32, EntriesBefore, Positions, SaveTxResult;
      NoEntries(b);
      var batch: seq<(bytes, bytes)> := [];
      var ethTxIndex: int32 := 0;
      for t := 0 to |b.txs|
        invariant db == old(db) && batch == Writes(EntriesBefore(b, t, 0))
        invariant ethTxIndex == ToInt32(|EntriesBefore(b, t, 0)|)
      {
        var tx := b.txs[t];
        NextTransaction(b, t);
        if tx.expected && tx.decodes && tx.isEth && tx.parses {
          var cumulativeGasUsed: uint64 := 0;
          for m := 0 to |tx.msgs|
            invariant db == old(db) && batch == Writes(EntriesBefore(b, t, m))
            invariant ethTxIndex == ToInt32(|EntriesBefore(b, t, m)|)
            invariant cumulativeGasUsed == GasBefore(tx, m) % TWO64
          {
            ghost var es := EntriesBefore(b, t, m);
            var msg := tx.msgs[m];
            var gasUsed: uint64, failed := 0, false;
            if !tx.codeOk {
              gasUsed, failed := msg.gasLimit, true;
            } else if msg.parsed.None? {
              NextMessage(b, t, m, Entry(msg.hash, Codec.Zero));
              assert es + [] == es;
              continue;
            } else {
              gasUsed, failed := msg.parsed.value.gasUsed, msg.parsed.value.failed;
            }
            AddModulo(GasBefore(tx, m), gasUsed);
            cumulativeGasUsed := (cumulativeGasUsed + gasUsed) % TWO64;
            var e := Entry(msg.hash, Codec.TxResult(b.height, t % TWO32, m % TWO32, ethTxIndex,
                                                    failed, gasUsed, cumulativeGasUsed));
            Next32Counts(|es|);
            NextMessage(b, t, m, e);
            assert (es + [e])[..|es|] == es;
            ethTxIndex := Next32(ethTxIndex);
            batch := batch + SaveTxResult(e);
          }
        }
      }
      if !writes {
        return false;
      }
      FlushWrites(db, Entries(b));
      db := Flush(db, batch);
      return true;
    }
  }

  lemma NoEntries(b: Block)
    ensures EntriesBefore(b, 0, 0) == [] && ToInt32(0) == 0
  {}
}
