/** Indexing again, in another order, or in both directions. */
module Reindex {
  import opened Arith
  import opened IndexKeys
  import opened KVIndexer
  import opened IndexLookup
  import opened IndexBounds
  import Codec = TxResultCodec

  /** What a block adds to an empty database. */
  function Patch(b: Block): DB {
    PutAll(map[], Entries(b))
  }

  lemma {:induction false} PutAllMerges(db: DB, es: seq<Entry>)
    ensures PutAll(db, es) == db + PutAll(map[], es)
  {
    hide HashKey, IndexKey;
    if es != [] {
      PutAllMerges(db, es[..|es| - 1]);
    }
  }

  /** Two blocks write no key in common, unless they are the same block. */
  ghost predicate Independent(a: Block, b: Block) {
    a == b || Patch(a).Keys !! Patch(b).Keys
  }

  ghost predicate AllIndependent(bs: seq<Block>) {
    forall a, b | a in bs && b in bs :: Independent(a, b)
  }

  /** A block has a message of this hash. */
  predicate Holds(b: Block, h: Hash) {
    LastByHash(Entries(b), h).Some?
  }

  /** Some hash occurs in both. */
  ghost predicate Shared(a: Block, b: Block) {
    exists h :: Holds(a, h) && Holds(b, h)
  }

  lemma EntryHeight(b: Block, i: nat)
    requires i < |Entries(b)|
    ensures Entries(b)[i].record.height == b.height
  {}

  lemma EntryHeld(b: Block, i: nat)
    requires i < |Entries(b)|
    ensures Holds(b, Entries(b)[i].hash)
  {
    hide Entries;
  }

  /** A key in a patch belongs to one of the block's entries. */
  lemma {:induction false} PatchKey(b: Block, key: bytes) returns (i: nat)
    requires key in Patch(b)
    ensures i < |Entries(b)|
    ensures var e := Entries(b)[i]; key == HashKey(e.hash) || key == IndexKey(e.record.height, e.record.ethTxIndex)
  {
    hide PutAll, HashKey, IndexKey, Entries;
    var es := Entries(b);
    PutAllKeys(map[], es);
    i :| 0 <= i < |es| && (key == HashKey(es[i].hash) || key == IndexKey(es[i].record.height, es[i].record.ethTxIndex));
  }

  /** A key that entries of different heights have in common is that of a hash they share. */
  lemma {:induction false} CommonKey(e: Entry, f: Entry, key: bytes)
    requires e.record.height != f.record.height
    requires key == HashKey(e.hash) || key == IndexKey(e.record.height, e.record.ethTxIndex)
    requires key == HashKey(f.hash) || key == IndexKey(f.record.height, f.record.ethTxIndex)
    ensures e.hash == f.hash && key == HashKey(e.hash)
  {
    hide HashKey, IndexKey;
    KeysDisjoint(e.hash, f.record.height, f.record.ethTxIndex);
    KeysDisjoint(f.hash, e.record.height, e.record.ethTxIndex);
    if key == HashKey(e.hash) {
      HashKeyInjective(e.hash, f.hash);
    } else {
      IndexKeyInjective(e.record.height, e.record.ethTxIndex, f.record.height, f.record.ethTxIndex);
    }
  }

  /** Blocks of different heights write a key in common only for a hash they share. */
  lemma {:induction false} SharedKey(a: Block, b: Block, key: bytes) returns (h: Hash)
    requires a.height != b.height && key in Patch(a) && key in Patch(b)
    ensures key == HashKey(h) && Holds(a, h) && Holds(b, h)
  {
    hide *;
    var i := PatchKey(a, key);
    var j := PatchKey(b, key);
    EntryHeight(a, i);
    EntryHeight(b, j);
    CommonKey(Entries(a)[i], Entries(b)[j], key);
    h := Entries(a)[i].hash;
    EntryHeld(a, i);
    EntryHeld(b, j);
  }

  /** Blocks of different heights are independent if they share no hash. */
  lemma {:induction false} DisjointBlocks(a: Block, b: Block)
    requires a.height != b.height && !Shared(a, b)
    ensures Independent(a, b)
  {
    hide Patch, Holds;
    forall key | key in Patch(a)
      ensures key !in Patch(b)
    {
      if key in Patch(b) {
        var h := SharedKey(a, b, key);
      }
    }
  }

  /** A key that one block alone writes has that block's value, wherever the block stands in the run. */
  lemma {:induction false} OwnerDecides(db: DB, bs: seq<Block>, b: Block, key: bytes)
    requires b in bs && key in Patch(b) && forall c | c in bs && key in Patch(c) :: c == b
    ensures key in IndexAll(db, bs) && IndexAll(db, bs)[key] == Patch(b)[key]
  {
    hide PutAll, Entries;
    var front, last := bs[..|bs| - 1], bs[|bs| - 1];
    assert bs == front + [last];
    PutAllMerges(IndexAll(db, front), Entries(last));
    if last != b {
      assert last in bs;
      OwnerDecides(db, front, b, key);
    }
  }

  lemma {:induction false} NoOwner(db: DB, bs: seq<Block>, key: bytes)
    requires forall b | b in bs :: key !in Patch(b)
    ensures key in IndexAll(db, bs) <==> key in db
    ensures key in db ==> IndexAll(db, bs)[key] == db[key]
  {
    hide PutAll, Entries;
    if bs != [] {
      var front, last := bs[..|bs| - 1], bs[|bs| - 1];
      assert bs == front + [last];
      PutAllMerges(IndexAll(db, front), Entries(last));
      NoOwner(db, front, key);
      assert last in bs;
    }
  }

  /** The same blocks in any order, any number of times each, give the same database. */
  lemma {:induction false} OrderIrrelevant(db: DB, bs: seq<Block>, cs: seq<Block>)
    requires AllIndependent(bs) && forall b :: b in bs <==> b in cs
    ensures IndexAll(db, bs) == IndexAll(db, cs)
  {
    hide IndexAll, Patch;
    var x, y := IndexAll(db, bs), IndexAll(db, cs);
    forall key
      ensures key in x <==> key in y
      ensures key in x ==> x[key] == y[key]
    {
      if b :| b in bs && key in Patch(b) {
        assert forall c | c in bs && key in Patch(c) :: Independent(b, c);
        OwnerDecides(db, bs, b, key);
        OwnerDecides(db, cs, b, key);
      } else {
        NoOwner(db, bs, key);
        NoOwner(db, cs, key);
      }
    }
  }

  /** Indexing a block twice is indexing it once. */
  lemma IndexTwice(db: DB, b: Block)
    ensures PutAll(PutAll(db, Entries(b)), Entries(b)) == PutAll(db, Entries(b))
  {
    hide PutAll, Entries;
    PutAllMerges(db, Entries(b));
    PutAllMerges(db + PutAll(map[], Entries(b)), Entries(b));
  }

  // ---------------------------------------------------------------- the index-eth-tx command

  /** The blocks whose header and results can both be loaded, by height. */
  datatype BlockStore = BlockStore(height: nat, blocks: map<int, Block>)

  /** A database whose first key cannot be parsed, a block that cannot be loaded or written, or the end of the loop. */
  datatype Outcome = Malformed | Stopped | Complete

  function Ascending(s: BlockStore, lo: int, hi: int): seq<Block>
    requires forall h | lo <= h <= hi :: h in s.blocks
    decreases hi - lo
  {
    if hi < lo then [] else Ascending(s, lo, hi - 1) + [s.blocks[hi]]
  }

  /** hi, hi - 1, ..., lo */
  function Descending(s: BlockStore, hi: int, lo: int): seq<Block>
    requires forall h | lo <= h <= hi :: h in s.blocks
    decreases hi - lo
  {
    if hi < lo then [] else Descending(s, hi, lo + 1) + [s.blocks[lo]]
  }

  lemma {:induction false} AscendingNext(db: DB, s: BlockStore, lo: int, hi: int)
    requires forall h | lo <= h <= hi :: h in s.blocks
    ensures hi < lo ==> IndexAll(db, Ascending(s, lo, hi)) == db
    ensures lo <= hi ==>
              IndexAll(db, Ascending(s, lo, hi)) == PutAll(IndexAll(db, Ascending(s, lo, hi - 1)), Entries(s.blocks[hi]))
  {
    hide PutAll, Entries;
    if lo <= hi {
      var front := Ascending(s, lo, hi - 1);
      assert (front + [s.blocks[hi]])[..|front|] == front;
    }
  }

  lemma {:induction false} DescendingNext(db: DB, s: BlockStore, hi: int, lo: int)
    requires forall h | lo <= h <= hi :: h in s.blocks
    ensures hi < lo ==> IndexAll(db, Descending(s, hi, lo)) == db
    ensures lo <= hi ==>
              IndexAll(db, Descending(s, hi, lo)) == PutAll(IndexAll(db, Descending(s, hi, lo + 1)), Entries(s.blocks[lo]))
  {
    hide PutAll, Entries;
    if lo <= hi {
      var front := Descending(s, hi, lo + 1);
      assert (front + [s.blocks[lo]])[..|front|] == front;
    }
  }

  /** Forward: from the block after the last indexed one to the latest, stopping at the first that cannot be indexed. */
  method IndexForward(ix: Indexer, s: BlockStore, unwritable: set<int>) returns (r: Outcome, start: int, next: int)
    modifies ix
    ensures r.Malformed? <==> exists k :: IsGreatest(old(ix.db), k) && |k| != 17
    ensures r.Malformed? ==> ix.db == old(ix.db)
    ensures start <= next && forall h | start <= h < next :: h in s.blocks && h !in unwritable
    ensures !r.Malformed? ==> ix.db == IndexAll(old(ix.db), Ascending(s, start, next - 1))
    ensures r.Complete? ==> next > s.height
    ensures r.Stopped? ==> next <= s.height && (next !in s.blocks || next in unwritable)
    ensures forall k | IsGreatest(old(ix.db), k) && |k| == 17 :: start == if HeightOf(k) == -1 then 1 else HeightOf(k) + 1
    ensures WellKeyed(old(ix.db)) ==> start == 1 || (start > 1 && HasHeightAt(old(ix.db), start - 1))
    ensures WellKeyed(old(ix.db)) ==> forall h: int64 | HasHeight(old(ix.db), h) :: h < start
  {
    hide PutAll, Entries, HasHeight, WellKeyed, IndexAll, Ascending, IsGreatest, HeightOf;
    var last := LoadLastBlock(ix.db);
    if last.None? {
      return Malformed, 1, 1;
    }
    var l: int := last.value;
    start := if l == -1 then 1 else l + 1;
    next := start;
    AscendingNext(ix.db, s, start, next - 1);
    while next <= s.height
      invariant start <= next && forall h | start <= h < next :: h in s.blocks && h !in unwritable
      invariant ix.db == IndexAll(old(ix.db), Ascending(s, start, next - 1))
      decreases s.height + 1 - next
    {
      if next !in s.blocks {
        return Stopped, start, next;
      }
      var ok := ix.IndexBlock(s.blocks[next], next !in unwritable);
      if !ok {
        return Stopped, start, next;
      }
      AscendingNext(old(ix.db), s, start, next);
      next := next + 1;
    }
    return Complete, start, next;
  }

  /**
   Backward: from the block before the first indexed one down to 1, stopping at the first that
   cannot be indexed. On an empty index it starts below the latest block of the store.
   */
  method IndexBackward(ix: Indexer, s: BlockStore, unwritable: set<int>) returns (r: Outcome, first: int, next: int)
    modifies ix
    ensures r.Malformed? <==> exists k :: IsLeast(old(ix.db), k) && |k| != 17
    ensures r.Malformed? ==> ix.db == old(ix.db)
    ensures next < first && forall h | next < h < first :: h in s.blocks && h !in unwritable
    ensures !r.Malformed? ==> ix.db == IndexAll(old(ix.db), Descending(s, first - 1, next + 1))
    ensures r.Complete? ==> next <= 0 && (first >= 1 ==> next == 0)
    ensures r.Stopped? ==> next > 0 && (next !in s.blocks || next in unwritable)
    ensures (forall k | k in old(ix.db) :: !InIndexRange(k)) ==> first == s.height
    ensures forall k | IsLeast(old(ix.db), k) && |k| == 17 :: first == if HeightOf(k) == -1 then s.height else HeightOf(k)
    ensures WellKeyed(old(ix.db)) && (exists h: int64 :: HasHeight(old(ix.db), h)) ==> HasHeightAt(old(ix.db), first)
    ensures WellKeyed(old(ix.db)) ==> forall h: int64 | HasHeight(old(ix.db), h) :: first <= h
  {
    hide PutAll, Entries, HasHeight, WellKeyed, IndexAll, Descending, IsLeast, HeightOf, InIndexRange;
    var f := LoadFirstBlock(ix.db);
    first, next := s.height, s.height - 1;
    if f.None? {
      return Malformed, s.height, s.height - 1;
    }
    first := if f.value == -1 then s.height else f.value;
    next := first - 1;
    DescendingNext(ix.db, s, first - 1, next + 1);
    while next > 0
      invariant next < first && forall h | next < h < first :: h in s.blocks && h !in unwritable
      invariant next >= 0 || next == first - 1
      invariant ix.db == IndexAll(old(ix.db), Descending(s, first - 1, next + 1))
      decreases next
    {
      if next !in s.blocks {
        return Stopped, first, next;
      }
      var ok := ix.IndexBlock(s.blocks[next], next !in unwritable);
      if !ok {
        return Stopped, first, next;
      }
      DescendingNext(old(ix.db), s, first - 1, next);
      next := next - 1;
    }
    return Complete, first, next;
  }

  ghost predicate HasHeightAt(db: DB, h: int) {
    -TWO63 <= h < TWO63 && HasHeight(db, h)
  }

  lemma {:induction false} AscendingHas(s: BlockStore, lo: int, hi: int, b: Block)
    requires forall h | lo <= h <= hi :: h in s.blocks
    ensures b in Ascending(s, lo, hi) <==> exists h | lo <= h <= hi :: s.blocks[h] == b
    decreases hi - lo
  {
    if lo <= hi {
      AscendingHas(s, lo, hi - 1, b);
    }
  }

  lemma {:induction false} DescendingHas(s: BlockStore, hi: int, lo: int, b: Block)
    requires forall h | lo <= h <= hi :: h in s.blocks
    ensures b in Descending(s, hi, lo) <==> exists h | lo <= h <= hi :: s.blocks[h] == b
    decreases hi - lo
  {
    if lo <= hi {
      DescendingHas(s, hi, lo + 1, b);
    }
  }

  // ---------------------------------------------------------------- the two directions

  /** The store has the blocks of these heights. */
  ghost predicate Stores(s: BlockStore, lo: int, hi: int) {
    forall h | lo <= h <= hi :: h in s.blocks && s.blocks[h].height == h
  }

  /** A key that at most one block writes is the same in both directions. */
  lemma {:induction false} AgreeAt(db: DB, s: BlockStore, lo: int, hi: int, key: bytes)
    requires Stores(s, lo, hi)
    requires forall a, b | lo <= a < b <= hi :: key !in Patch(s.blocks[a]) || key !in Patch(s.blocks[b])
    ensures var x, y := IndexAll(db, Descending(s, hi, lo)), IndexAll(db, Ascending(s, lo, hi));
            (key in x <==> key in y) && (key in x ==> x[key] == y[key])
  {
    hide IndexAll, Ascending, Descending, Patch;
    var bs, cs := Descending(s, hi, lo), Ascending(s, lo, hi);
    forall b
      ensures b in bs <==> exists h | lo <= h <= hi :: s.blocks[h] == b
      ensures b in cs <==> exists h | lo <= h <= hi :: s.blocks[h] == b
    {
      AscendingHas(s, lo, hi, b);
      DescendingHas(s, hi, lo, b);
    }
    if b :| b in bs && key in Patch(b) {
      forall c | c in bs && key in Patch(c)
        ensures c == b
      {
        assert s.blocks[b.height] == b && s.blocks[c.height] == c;
      }
      OwnerDecides(db, bs, b, key);
      OwnerDecides(db, cs, b, key);
    } else {
      NoOwner(db, bs, key);
      NoOwner(db, cs, key);
    }
  }

  /** Writing one more block under a hash. */
  lemma {:induction false} HashAfter(db: DB, b: Block, h: Hash) returns (r: TxResult)
    ensures !Holds(b, h) ==> IndexLookup.Get(PutAll(db, Entries(b)), HashKey(h)) == IndexLookup.Get(db, HashKey(h))
    ensures Holds(b, h) ==>
              IndexLookup.Get(PutAll(db, Entries(b)), HashKey(h)) == Codec.Encode(r) && r.height == b.height
  {
    hide PutAll, HashKey, Entries, Codec.Encode;
    r := Codec.Zero;
    HashValue(db, Entries(b), h);
    if Holds(b, h) {
      var i := LastByHash(Entries(b), h).value;
      r := Entries(b)[i].record;
      EntryHeight(b, i);
    }
  }

  /** Going up, the record of a hash ends up at least as high as any block that holds it. */
  lemma {:induction false} AscendingWriter(db: DB, s: BlockStore, lo: int, hi: int, h: Hash, a: int) returns (r: TxResult)
    requires Stores(s, lo, hi) && lo <= a <= hi && Holds(s.blocks[a], h)
    ensures IndexLookup.Get(IndexAll(db, Ascending(s, lo, hi)), HashKey(h)) == Codec.Encode(r) && r.height >= a
    decreases hi - lo
  {
    hide IndexAll, Ascending, PutAll, HashKey, Holds, Codec.Encode, IndexLookup.Get;
    AscendingNext(db, s, lo, hi);
    r := HashAfter(IndexAll(db, Ascending(s, lo, hi - 1)), s.blocks[hi], h);
    if !Holds(s.blocks[hi], h) {
      r := AscendingWriter(db, s, lo, hi - 1, h, a);
    }
  }

  /** Going down, at most as high. */
  lemma {:induction false} DescendingWriter(db: DB, s: BlockStore, hi: int, lo: int, h: Hash, a: int) returns (r: TxResult)
    requires Stores(s, lo, hi) && lo <= a <= hi && Holds(s.blocks[a], h)
    ensures IndexLookup.Get(IndexAll(db, Descending(s, hi, lo)), HashKey(h)) == Codec.Encode(r) && r.height <= a
    decreases hi - lo
  {
    hide IndexAll, Descending, PutAll, HashKey, Holds, Codec.Encode, IndexLookup.Get;
    DescendingNext(db, s, hi, lo);
    r := HashAfter(IndexAll(db, Descending(s, hi, lo + 1)), s.blocks[lo], h);
    if !Holds(s.blocks[lo], h) {
      r := DescendingWriter(db, s, hi, lo + 1, h, a);
    }
  }

  /** A hash in two blocks ends up with different records. */
  lemma {:induction false} DirectionsDiffer(db: DB, s: BlockStore, lo: int, hi: int, a: int, b: int, h: Hash)
    requires Stores(s, lo, hi) && lo <= a < b <= hi && Holds(s.blocks[a], h) && Holds(s.blocks[b], h)
    ensures IndexLookup.Get(IndexAll(db, Descending(s, hi, lo)), HashKey(h))
         != IndexLookup.Get(IndexAll(db, Ascending(s, lo, hi)), HashKey(h))
  {
    hide *;
    var x := DescendingWriter(db, s, hi, lo, h, a);
    var y := AscendingWriter(db, s, lo, hi, h, b);
    if Codec.Encode(x) == Codec.Encode(y) {
      Codec.EncodeInjective(x, y);
    }
  }

  /** Going down and going up over the same heights leave the same database if and only if no hash is in two blocks. */
  lemma {:induction false} DirectionIrrelevant(db: DB, s: BlockStore, lo: int, hi: int)
    requires Stores(s, lo, hi)
    ensures IndexAll(db, Descending(s, hi, lo)) == IndexAll(db, Ascending(s, lo, hi))
            <==> forall a, b | lo <= a < b <= hi :: !Shared(s.blocks[a], s.blocks[b])
  {
    hide IndexAll, Ascending, Descending, Patch, Holds, HashKey;
    if forall a, b | lo <= a < b <= hi :: !Shared(s.blocks[a], s.blocks[b]) {
      forall key
        ensures var x, y := IndexAll(db, Descending(s, hi, lo)), IndexAll(db, Ascending(s, lo, hi));
                (key in x <==> key in y) && (key in x ==> x[key] == y[key])
      {
        forall a, b | lo <= a < b <= hi
          ensures key !in Patch(s.blocks[a]) || key !in Patch(s.blocks[b])
        {
          DisjointBlocks(s.blocks[a], s.blocks[b]);
        }
        AgreeAt(db, s, lo, hi, key);
      }
    } else {
      var a, b :| lo <= a < b <= hi && Shared(s.blocks[a], s.blocks[b]);
      var h :| Holds(s.blocks[a], h) && Holds(s.blocks[b], h);
      DirectionsDiffer(db, s, lo, hi, a, b, h);
    }
  }

  /**
   On an empty index, going forward leaves what going backward does and the latest block on top of
   it, if and only if the latest block has every hash that two blocks below it share.
   */
  lemma {:induction false} ForwardAddsLatest(s: BlockStore)
    requires s.height >= 1 && Stores(s, 1, s.height)
    ensures var forward := IndexAll(map[], Ascending(s, 1, s.height));
            var backward := IndexAll(map[], Descending(s, s.height - 1, 1));
            forward == PutAll(backward, Entries(s.blocks[s.height])) <==>
              forall a, b, h | 1 <= a < b < s.height && Holds(s.blocks[a], h) && Holds(s.blocks[b], h) ::
                Holds(s.blocks[s.height], h)
  {
    hide IndexAll, Ascending, Descending, Holds, HashKey, PutAll, Entries, IndexLookup.Get;
    var n, latest := s.height - 1, s.blocks[s.height];
    var down, up := IndexAll(map[], Descending(s, n, 1)), IndexAll(map[], Ascending(s, 1, n));
    AscendingNext(map[], s, 1, s.height);
    if forall a, b, h | 1 <= a < b < s.height && Holds(s.blocks[a], h) && Holds(s.blocks[b], h) :: Holds(latest, h) {
      forall key
        ensures var x, y := PutAll(down, Entries(latest)), PutAll(up, Entries(latest));
                (key in x <==> key in y) && (key in x ==> x[key] == y[key])
      {
        AgreeBelow(s, latest, n, key);
      }
    } else {
      var a, b, h :| 1 <= a < b < s.height && Holds(s.blocks[a], h) && Holds(s.blocks[b], h) && !Holds(latest, h);
      DirectionsDiffer(map[], s, 1, n, a, b, h);
      var _ := HashAfter(down, latest, h);
      var _ := HashAfter(up, latest, h);
    }
  }

  /** Under a block that has all hashes shared below it, the direction below does not show. */
  lemma {:induction false} AgreeBelow(s: BlockStore, top: Block, n: int, key: bytes)
    requires Stores(s, 1, n)
    requires forall a, b, h | 1 <= a < b <= n && Holds(s.blocks[a], h) && Holds(s.blocks[b], h) :: Holds(top, h)
    ensures var x := PutAll(IndexAll(map[], Descending(s, n, 1)), Entries(top));
            var y := PutAll(IndexAll(map[], Ascending(s, 1, n)), Entries(top));
            (key in x <==> key in y) && (key in x ==> x[key] == y[key])
  {
    hide IndexAll, Ascending, Descending, Patch, Holds, HashKey, PutAll, Entries;
    PatchOnTop(IndexAll(map[], Descending(s, n, 1)), top, key);
    PatchOnTop(IndexAll(map[], Ascending(s, 1, n)), top, key);
    if key !in Patch(top) {
      forall a, b | 1 <= a < b <= n
        ensures key !in Patch(s.blocks[a]) || key !in Patch(s.blocks[b])
      {
        if key in Patch(s.blocks[a]) && key in Patch(s.blocks[b]) {
          var h := SharedKey(s.blocks[a], s.blocks[b], key);
          HeldKey(top, h);
        }
      }
      AgreeAt(map[], s, 1, n, key);
    }
  }

  lemma {:induction false} PatchOnTop(db: DB, b: Block, key: bytes)
    ensures key in Patch(b) ==> key in PutAll(db, Entries(b)) && PutAll(db, Entries(b))[key] == Patch(b)[key]
    ensures key !in Patch(b) ==> (key in PutAll(db, Entries(b)) <==> key in db)
    ensures key !in Patch(b) && key in db ==> PutAll(db, Entries(b))[key] == db[key]
  {
    hide PutAll, Entries;
    PutAllMerges(db, Entries(b));
  }

  lemma {:induction false} HeldKey(b: Block, h: Hash)
    requires Holds(b, h)
    ensures HashKey(h) in Patch(b)
  {
    hide PutAll, HashKey, IndexKey, Entries;
    PutAllKeys(map[], Entries(b));
  }

  /** The position of a block's first entry. */
  function FirstKey(b: Block): bytes
    requires Entries(b) != []
  {
    IndexKey(Entries(b)[0].record.height, Entries(b)[0].record.ethTxIndex)
  }

  lemma {:induction false} FirstKeyWritten(db: DB, b: Block)
    requires Entries(b) != []
    ensures FirstKey(b) in PutAll(db, Entries(b))
  {
    hide PutAll, HashKey, IndexKey, Entries;
    PutAllKeys(db, Entries(b));
  }

  /** No block of another height writes there. */
  lemma {:induction false} FirstKeyOwned(b: Block, c: Block)
    requires Entries(b) != [] && b.height != c.height
    ensures FirstKey(b) !in Patch(c)
  {
    hide PutAll, HashKey, IndexKey, Entries;
    var e, fs := Entries(b)[0], Entries(c);
    PutAllKeys(map[], fs);
    EntryHeight(b, 0);
    forall j | 0 <= j < |fs|
      ensures FirstKey(b) != HashKey(fs[j].hash)
      ensures FirstKey(b) != IndexKey(fs[j].record.height, fs[j].record.ethTxIndex)
    {
      EntryHeight(c, j);
      KeysDisjoint(fs[j].hash, e.record.height, e.record.ethTxIndex);
      if FirstKey(b) == IndexKey(fs[j].record.height, fs[j].record.ethTxIndex) {
        IndexKeyInjective(e.record.height, e.record.ethTxIndex, fs[j].record.height, fs[j].record.ethTxIndex);
      }
    }
  }

  /**
   The command's two directions agree on an empty index if and only if the latest block has
   nothing to index, since going backward starts below it, whatever its help text says, and no
   hash is in two of the blocks below.
   */
  lemma {:induction false} BackwardOmitsLatest(s: BlockStore)
    requires s.height >= 1 && Stores(s, 1, s.height)
    ensures IndexAll(map[], Descending(s, s.height - 1, 1)) == IndexAll(map[], Ascending(s, 1, s.height))
            <==> (&& Entries(s.blocks[s.height]) == []
                  && forall a, b | 1 <= a < b < s.height :: !Shared(s.blocks[a], s.blocks[b]))
  {
    hide PutAll, Entries, IndexAll, Ascending, Descending, FirstKey, Patch, Shared;
    var backward, latest := Descending(s, s.height - 1, 1), s.blocks[s.height];
    AscendingNext(map[], s, 1, s.height);
    if Entries(latest) == [] {
      PutNothing(IndexAll(map[], Ascending(s, 1, s.height - 1)));
      DirectionIrrelevant(map[], s, 1, s.height - 1);
    } else {
      forall b | b in backward
        ensures FirstKey(latest) !in Patch(b)
      {
        DescendingHas(s, s.height - 1, 1, b);
        FirstKeyOwned(latest, b);
      }
      NoOwner(map[], backward, FirstKey(latest));
      FirstKeyWritten(IndexAll(map[], Ascending(s, 1, s.height - 1)), latest);
    }
  }

  /** The smallest store on which they differ: one block with one message. */
  lemma {:induction false} OneBlockOmitted(h: Hash)
    ensures var s := BlockStore(1, map[1 := Lone(1, h)]);
            IndexAll(map[], Descending(s, 0, 1)) == map[] != IndexAll(map[], Ascending(s, 1, 1))
  {
    hide PutAll, Entries;
    var s := BlockStore(1, map[1 := Lone(1, h)]);
    LoneEntry(1, h);
    BackwardOmitsLatest(s);
  }

  /** The other way to differ: nothing in the latest block, but one transaction in both blocks below. */
  lemma {:induction false} DirectionDecides(h: Hash)
    ensures var s := BlockStore(3, map[1 := Lone(1, h), 2 := Lone(2, h), 3 := Block(3, [])]);
            && Entries(s.blocks[3]) == []
            && IndexAll(map[], Descending(s, 2, 1)) != IndexAll(map[], Ascending(s, 1, 3))
  {
    hide PutAll, Holds;
    var s := BlockStore(3, map[1 := Lone(1, h), 2 := Lone(2, h), 3 := Block(3, [])]);
    LoneHolds(1, h);
    LoneHolds(2, h);
    assert Shared(s.blocks[1], s.blocks[2]);
    BackwardOmitsLatest(s);
  }

  lemma LoneHolds(height: int64, h: Hash)
    ensures Holds(Lone(height, h), h)
  {
    hide Entries;
    LoneEntry(height, h);
  }
}
