/** What the two lookups return after any run of indexed blocks. */
module IndexLookup {
  import opened Arith
  import opened Options
  import opened IndexKeys
  import opened KVIndexer
  import Codec = TxResultCodec
  import Message

  datatype Lookup = NotFound | Corrupt | Found(record: TxResult)

  /** A database read returns no bytes for a missing key. */
  function Get(db: DB, k: bytes): bytes {
    if k in db then db[k] else []
  }

  /** `common.BytesToHash`: cropped or padded on the left. */
  function BytesToHash(b: bytes): Hash {
    if |b| > 32 then b[|b| - 32..] else seq(32 - |b|, _ => 0) + b
  }

  function GetByTxHash(db: DB, hash: Hash): Lookup {
    var bz := Get(db, HashKey(hash));
    if bz == [] then NotFound
    else
      match Message.Decode(Codec.TxStep, Codec.Zero, bz)
      case Ok(r) => Found(r)
      case Err(_) => Corrupt
  }

  function GetByBlockAndIndex(db: DB, height: int64, index: int32): Lookup {
    var bz := Get(db, IndexKey(height, index));
    if bz == [] then NotFound else GetByTxHash(db, BytesToHash(bz))
  }

  // ---------------------------------------------------------------- the last write wins

  function LastByHash(es: seq<Entry>, h: Hash): (r: Option<nat>)
    ensures r.Some? ==> r.value < |es| && es[r.value].hash == h && forall j | r.value < j < |es| :: es[j].hash != h
    ensures r.None? ==> forall j | 0 <= j < |es| :: es[j].hash != h
  {
    if es == [] then None
    else if es[|es| - 1].hash == h then Some(|es| - 1)
    else
      var front := es[..|es| - 1];
      assert forall j | 0 <= j < |front| :: es[j] == front[j];
      LastByHash(front, h)
  }

  predicate At(e: Entry, height: int64, index: int32) {
    e.record.height == height && e.record.ethTxIndex == index
  }

  function LastByIndex(es: seq<Entry>, height: int64, index: int32): (r: Option<nat>)
    ensures r.Some? ==> r.value < |es| && At(es[r.value], height, index)
    ensures r.None? ==> forall j | 0 <= j < |es| :: !At(es[j], height, index)
  {
    if es == [] then None
    else if At(es[|es| - 1], height, index) then Some(|es| - 1)
    else
      var front := es[..|es| - 1];
      assert forall j | 0 <= j < |front| :: es[j] == front[j];
      LastByIndex(front, height, index)
  }

  lemma {:induction false} HashValue(db: DB, es: seq<Entry>, h: Hash)
    ensures Get(PutAll(db, es), HashKey(h)) ==
            match LastByHash(es, h)
            case None => Get(db, HashKey(h))
            case Some(j) => Codec.Encode(es[j].record)
  {
    hide HashKey, IndexKey, Codec.Encode;
    if es != [] {
      var e := es[|es| - 1];
      HashValue(db, es[..|es| - 1], h);
      KeysDisjoint(h, e.record.height, e.record.ethTxIndex);
      if HashKey(e.hash) == HashKey(h) {
        HashKeyInjective(e.hash, h);
      }
    }
  }

  lemma {:induction false} IndexValue(db: DB, es: seq<Entry>, height: int64, index: int32)
    ensures Get(PutAll(db, es), IndexKey(height, index)) ==
            match LastByIndex(es, height, index)
            case None => Get(db, IndexKey(height, index))
            case Some(j) => es[j].hash
  {
    hide HashKey, IndexKey, Codec.Encode;
    if es != [] {
      var e := es[|es| - 1];
      IndexValue(db, es[..|es| - 1], height, index);
      KeysDisjoint(e.hash, height, index);
      if IndexKey(e.record.height, e.record.ethTxIndex) == IndexKey(height, index) {
        IndexKeyInjective(e.record.height, e.record.ethTxIndex, height, index);
      }
    }
  }

  /** For all entries with a height, a hash finds the record written last under it. */
  lemma {:induction false} HashLookup(es: seq<Entry>, h: Hash)
    requires forall j | 0 <= j < |es| :: es[j].record.height != 0
    ensures GetByTxHash(PutAll(map[], es), h) ==
            match LastByHash(es, h)
            case None => NotFound
            case Some(j) => Found(es[j].record)
  {
    hide PutAll, HashKey, Message.Decode, Codec.Encode;
    HashValue(map[], es, h);
    if LastByHash(es, h).Some? {
      var r := es[LastByHash(es, h).value].record;
      Codec.EmptyIffZero(r);
      Codec.RoundTrip(r);
    }
  }

  /** A block position leads to the hash written last there, and on to the record written last under that hash. */
  lemma {:induction false} IndexLookup(es: seq<Entry>, height: int64, index: int32)
    requires forall j | 0 <= j < |es| :: es[j].record.height != 0
    ensures GetByBlockAndIndex(PutAll(map[], es), height, index) ==
            match LastByIndex(es, height, index)
            case None => NotFound
            case Some(j) => GetByTxHash(PutAll(map[], es), es[j].hash)
  {
    hide PutAll, IndexKey, GetByTxHash;
    IndexValue(map[], es, height, index);
    if LastByIndex(es, height, index).Some? {
      var h := es[LastByIndex(es, height, index).value].hash;
      assert BytesToHash(h) == h;
    }
  }

  /** The keys a list of entries writes. */
  ghost function WrittenKeys(es: seq<Entry>): set<bytes> {
    (set j | 0 <= j < |es| :: HashKey(es[j].hash))
    + (set j | 0 <= j < |es| :: IndexKey(es[j].record.height, es[j].record.ethTxIndex))
  }

  lemma {:induction false} PutAllKeys(db: DB, es: seq<Entry>)
    ensures PutAll(db, es).Keys == db.Keys + WrittenKeys(es)
  {
    hide HashKey, IndexKey, Codec.Encode;
    if es != [] {
      var front, e := es[..|es| - 1], es[|es| - 1];
      PutAllKeys(db, front);
      assert es == front + [e];
      assert WrittenKeys(es) == WrittenKeys(front)
                                + {HashKey(e.hash), IndexKey(e.record.height, e.record.ethTxIndex)} by {
        WrittenKeysSnoc(front, e);
      }
    }
  }

  lemma {:induction false} WrittenKeysSnoc(front: seq<Entry>, e: Entry)
    ensures WrittenKeys(front + [e]) == WrittenKeys(front)
            + {HashKey(e.hash), IndexKey(e.record.height, e.record.ethTxIndex)}
  {
    hide HashKey, IndexKey;
    var es := front + [e];
    var x, y := HashKey(e.hash), IndexKey(e.record.height, e.record.ethTxIndex);
    assert es[|front|] == e;
    forall k
      ensures k in WrittenKeys(es) <==> k in WrittenKeys(front) || k == x || k == y
    {
      if k in WrittenKeys(front) {
        var j :| 0 <= j < |front| && (k == HashKey(front[j].hash) || k == IndexKey(front[j].record.height, front[j].record.ethTxIndex));
        assert es[j] == front[j];
      }
      if k in WrittenKeys(es) {
        var j :| 0 <= j < |es| && (k == HashKey(es[j].hash) || k == IndexKey(es[j].record.height, es[j].record.ethTxIndex));
        assert j < |front| ==> es[j] == front[j];
      }
    }
  }

  // ---------------------------------------------------------------- runs

  /** The database after indexing blocks in order. */
  function IndexAll(db: DB, bs: seq<Block>): DB {
    if bs == [] then db else PutAll(IndexAll(db, bs[..|bs| - 1]), Entries(bs[|bs| - 1]))
  }

  /** All entries of a run, in the order written. */
  function History(bs: seq<Block>): seq<Entry> {
    if bs == [] then [] else History(bs[..|bs| - 1]) + Entries(bs[|bs| - 1])
  }

  lemma {:induction false} PutAllConcat(db: DB, es: seq<Entry>, fs: seq<Entry>)
    ensures PutAll(db, es + fs) == PutAll(PutAll(db, es), fs)
  {
    hide Put;
    if fs == [] {
      assert es + fs == es;
    } else {
      PutAllConcat(db, es, fs[..|fs| - 1]);
      assert (es + fs)[..|es + fs| - 1] == es + fs[..|fs| - 1];
    }
  }

  lemma {:induction false} IndexAllHistory(db: DB, bs: seq<Block>)
    ensures IndexAll(db, bs) == PutAll(db, History(bs))
  {
    hide PutAll, Entries;
    if bs == [] {
      PutNothing(db);
    } else {
      IndexAllHistory(db, bs[..|bs| - 1]);
      PutAllConcat(db, History(bs[..|bs| - 1]), Entries(bs[|bs| - 1]));
    }
  }

  lemma PutNothing(db: DB)
    ensures PutAll(db, []) == db
  {}

  /** Blocks of different heights, from height 1, with as many messages as an int32 can number. */
  ghost predicate ValidRun(bs: seq<Block>) {
    && (forall k | 0 <= k < |bs| :: bs[k].height >= 1 && |Entries(bs[k])| <= TWO31)
    && (forall k, l | 0 <= k < l < |bs| :: bs[k].height != bs[l].height)
  }

  /** Each block's Ethereum indices are exactly 0, 1, 2, ... in block order. */
  lemma {:induction false} EthIndexIsPosition(b: Block, i: nat)
    requires i < |Entries(b)| <= TWO31
    ensures Entries(b)[i].record.height == b.height && Entries(b)[i].record.ethTxIndex == i
  {
    ModUnique(i, TWO32, 0, i);
  }

  /** Where block k's i-th entry sits in the history. */
  ghost function Offset(bs: seq<Block>, k: nat): nat
    requires k <= |bs|
  {
    |History(bs[..k])|
  }

  lemma {:induction false} HistoryAt(bs: seq<Block>, k: nat, i: nat)
    requires k < |bs| && i < |Entries(bs[k])|
    ensures Offset(bs, k) + i < |History(bs)| && History(bs)[Offset(bs, k) + i] == Entries(bs[k])[i]
  {
    hide Entries;
    var n := |bs| - 1;
    if k < n {
      HistoryAt(bs[..n], k, i);
      assert bs[..n][..k] == bs[..k];
    }
  }

  lemma {:induction false} Locate(bs: seq<Block>, g: nat) returns (k: nat, i: nat)
    requires g < |History(bs)|
    ensures k < |bs| && i < |Entries(bs[k])| && g == Offset(bs, k) + i && History(bs)[g] == Entries(bs[k])[i]
  {
    hide Entries;
    var n := |bs| - 1;
    if g < |History(bs[..n])| {
      k, i := Locate(bs[..n], g);
      assert bs[..n][..k] == bs[..k];
    } else {
      k, i := n, g - |History(bs[..n])|;
    }
  }

  /** In a valid run no two writes share a block position. */
  lemma {:induction false} PositionsUnique(bs: seq<Block>, g: nat, g': nat)
    requires ValidRun(bs) && g < |History(bs)| && g' < |History(bs)|
    requires History(bs)[g].record.height == History(bs)[g'].record.height
    requires History(bs)[g].record.ethTxIndex == History(bs)[g'].record.ethTxIndex
    ensures g == g'
  {
    hide Entries, History;
    var k, i := Locate(bs, g);
    var k', i' := Locate(bs, g');
    EthIndexIsPosition(bs[k], i);
    EthIndexIsPosition(bs[k'], i');
  }

  lemma {:induction false} HeightsSet(bs: seq<Block>)
    requires ValidRun(bs)
    ensures forall j | 0 <= j < |History(bs)| :: History(bs)[j].record.height != 0
  {
    hide Entries, History;
    forall j | 0 <= j < |History(bs)|
      ensures History(bs)[j].record.height != 0
    {
      var k, i := Locate(bs, j);
      EthIndexIsPosition(bs[k], i);
    }
  }

  /** No message indexed after the i-th of block k carries the same hash. */
  ghost predicate NotReindexed(bs: seq<Block>, k: nat, i: nat)
    requires k < |bs| && i < |Entries(bs[k])|
  {
    forall g | Offset(bs, k) + i < g < |History(bs)| :: History(bs)[g].hash != Entries(bs[k])[i].hash
  }

  /**
   The index agrees with the list of transactions: both lookups of the i-th message of a block
   give one answer, and it is that message's own record exactly when its hash was not indexed again.
   */
  lemma {:induction false} Agreement(bs: seq<Block>, k: nat, i: nat)
    requires ValidRun(bs) && k < |bs| && i < |Entries(bs[k])|
    ensures var db, e := IndexAll(map[], bs), Entries(bs[k])[i];
            && i < TWO31
            && GetByBlockAndIndex(db, bs[k].height, i) == GetByTxHash(db, e.hash)
            && GetByTxHash(db, e.hash).Found?
            && (GetByTxHash(db, e.hash) == Found(e.record) <==> NotReindexed(bs, k, i))
  {
    hide Entries, History, IndexAll, PutAll, GetByTxHash, GetByBlockAndIndex, LastByHash, LastByIndex, Offset;
    var es, g, e := History(bs), Offset(bs, k) + i, Entries(bs[k])[i];
    IndexAllHistory(map[], bs);
    HeightsSet(bs);
    HistoryAt(bs, k, i);
    EthIndexIsPosition(bs[k], i);
    IndexLookup(es, bs[k].height, i);
    HashLookup(es, e.hash);
    var j := LastByIndex(es, bs[k].height, i).value;
    PositionsUnique(bs, j, g);
    var l := LastByHash(es, e.hash).value;
    if es[l].record == e.record {
      PositionsUnique(bs, l, g);
    }
  }

  /** A block of one transaction with one message of the given hash. */
  function Lone(height: int64, h: Hash): Block {
    Block(height, [Tx(true, true, true, true, true, [Msg(h, 0, Some(ParsedTx(21000, false)))])])
  }

  lemma {:induction false} LoneEntry(height: int64, h: Hash)
    ensures |Entries(Lone(height, h))| == 1 && Entries(Lone(height, h))[0].hash == h
  {
    var b := Lone(height, h);
    assert Positions(b, 0, 1) == Positions(b, 0, 0) + [(0, 0)] == [(0, 0)];
    assert Positions(b, 1, 0) == Positions(b, 0, 1);
  }

  /** A transaction included twice: the first block's position answers with the second block's record. */
  lemma {:induction false} IncludedTwice(h: Hash)
    ensures |Entries(Lone(1, h))| == |Entries(Lone(2, h))| == 1
    ensures var db := IndexAll(map[], [Lone(1, h), Lone(2, h)]);
            GetByBlockAndIndex(db, 1, 0) != Found(Entries(Lone(1, h))[0].record)
  {
    hide Entries, IndexAll, GetByTxHash, GetByBlockAndIndex;
    var bs := [Lone(1, h), Lone(2, h)];
    LoneEntry(1, h);
    LoneEntry(2, h);
    HistoryAt(bs, 1, 0);
    HistoryAt(bs, 0, 0);
    assert Offset(bs, 0) == 0 && Offset(bs, 1) == 1 by {
      assert bs[..1] == [bs[0]] && bs[..1][..0] == [] && bs[..0] == [];
      assert History(bs[..1]) == History([]) + Entries(bs[0]);
    }
    Agreement(bs, 0, 0);
    assert !NotReindexed(bs, 0, 0);
  }

  /** With all hashes of a run different, every message is found under both keys. */
  lemma {:induction false} DistinctAgreement(bs: seq<Block>, k: nat, i: nat)
    requires ValidRun(bs) && k < |bs| && i < |Entries(bs[k])|
    requires forall g, g' | 0 <= g < g' < |History(bs)| :: History(bs)[g].hash != History(bs)[g'].hash
    ensures i < TWO31
    ensures GetByBlockAndIndex(IndexAll(map[], bs), bs[k].height, i) == Found(Entries(bs[k])[i].record)
    ensures GetByTxHash(IndexAll(map[], bs), Entries(bs[k])[i].hash) == Found(Entries(bs[k])[i].record)
  {
    hide Entries, History, IndexAll, GetByTxHash, GetByBlockAndIndex, Offset;
    HistoryAt(bs, k, i);
    Agreement(bs, k, i);
  }

  /** What was never indexed is not found: no such height, an index past the end, or an unknown hash. */
  lemma {:induction false} NothingElse(bs: seq<Block>, height: int64, index: int32, h: Hash)
    requires ValidRun(bs)
    ensures (forall k | 0 <= k < |bs| :: bs[k].height == height ==> !(0 <= index < |Entries(bs[k])|)) ==>
              GetByBlockAndIndex(IndexAll(map[], bs), height, index) == NotFound
    ensures (forall g | 0 <= g < |History(bs)| :: History(bs)[g].hash != h) ==>
              GetByTxHash(IndexAll(map[], bs), h) == NotFound
  {
    hide Entries, History, IndexAll, PutAll, GetByTxHash, GetByBlockAndIndex, LastByHash, LastByIndex;
    var es := History(bs);
    IndexAllHistory(map[], bs);
    HeightsSet(bs);
    IndexLookup(es, height, index);
    HashLookup(es, h);
    if LastByIndex(es, height, index).Some? {
      var k, i := Locate(bs, LastByIndex(es, height, index).value);
      EthIndexIsPosition(bs[k], i);
    }
  }
}
