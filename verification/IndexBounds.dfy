/** The first and the last indexed block, read off the order of the keys. */
module IndexBounds {
  import opened Arith
  import opened Options
  import opened IndexKeys
  import opened KVIndexer
  import opened IndexLookup
  import Lex

  /** Keys the iterators meet carry a height; the index writes no others. */
  ghost predicate WellKeyed(db: DB) {
    forall k | k in db && InIndexRange(k) :: |k| == 17 && HeightOf(k) >= 0
  }

  ghost predicate HasHeight(db: DB, h: int64) {
    exists k :: k in db && InIndexRange(k) && |k| == 17 && HeightOf(k) == h
  }

  lemma {:induction false} BigEndianInverse(s: bytes)
    ensures BigEndian(FromBigEndian(s), |s|) == s
  {
    if s != [] {
      var front, last := s[..|s| - 1], s[|s| - 1];
      BigEndianInverse(front);
      var u := FromBigEndian(s);
      assert u / 256 == FromBigEndian(front) && u % 256 == last;
      assert s == front + [last];
    }
  }

  /** Between well-formed index keys, a smaller key never has a greater height. */
  lemma {:induction false} KeyHeightMonotone(a: bytes, b: bytes)
    requires |a| == |b| == 17 && a[0] == b[0] && Lex.Less(a, b)
    requires HeightOf(a) >= 0 && HeightOf(b) >= 0
    ensures HeightOf(a) <= HeightOf(b)
  {
    hide Lex.Less, BigEndian, FromBigEndian;
    var x, y := a[1..9], b[1..9];
    assert a == [a[0]] + (x + a[9..]) && b == [b[0]] + (y + b[9..]);
    Lex.Irreflexive([a[0]]);
    Lex.LessConcat([a[0]], x + a[9..], [b[0]], y + b[9..]);
    Lex.LessConcat(x, a[9..], y, b[9..]);
    BigEndianInverse(x);
    BigEndianInverse(y);
    FromBigEndianBound(x);
    FromBigEndianBound(y);
    BytesOrder(FromBigEndian(x), FromBigEndian(y));
  }

  /** The key a reverse iterator over the index prefix meets first. */
  ghost predicate IsGreatest(db: DB, k: bytes) {
    k in db && InIndexRange(k) && forall j | j in db && InIndexRange(j) :: j == k || Lex.Less(j, k)
  }

  /** The key an iterator over the index prefix meets first. */
  ghost predicate IsLeast(db: DB, k: bytes) {
    k in db && InIndexRange(k) && forall j | j in db && InIndexRange(j) :: j == k || Lex.Less(k, j)
  }

  lemma {:induction false} GreatestUnique(db: DB, j: bytes, k: bytes)
    requires IsGreatest(db, j) && IsGreatest(db, k)
    ensures j == k
  {
    hide Lex.Less, InIndexRange;
    if j != k {
      Lex.Asymmetric(j, k);
    }
  }

  lemma {:induction false} LeastUnique(db: DB, j: bytes, k: bytes)
    requires IsLeast(db, j) && IsLeast(db, k)
    ensures j == k
  {
    hide Lex.Less, InIndexRange;
    if j != k {
      Lex.Asymmetric(j, k);
    }
  }

  /** Opens a reverse iterator over the index prefix. */
  method GreatestKey(db: DB) returns (r: Option<bytes>)
    ensures r.None? ==> forall k | k in db :: !InIndexRange(k)
    ensures r.Some? ==> IsGreatest(db, r.value)
  {
    hide InIndexRange, Lex.Less;
    r := None;
    var rest := db.Keys;
    while rest != {}
      invariant rest <= db.Keys
      invariant r.None? ==> forall k | k in db && k !in rest :: !InIndexRange(k)
      invariant r.Some? ==> r.value in db && InIndexRange(r.value)
      invariant r.Some? ==> forall k | k in db && k !in rest && InIndexRange(k) :: k == r.value || Lex.Less(k, r.value)
      decreases |rest|
    {
      var k :| k in rest;
      rest := rest - {k};
      if InIndexRange(k) {
        if r.None? {
          r := Some(k);
        } else if Lex.Less(r.value, k) {
          forall j | j in db && j !in rest && InIndexRange(j)
            ensures j == k || Lex.Less(j, k)
          {
            if j != k && j != r.value {
              Lex.Transitive(j, r.value, k);
            }
          }
          r := Some(k);
        } else {
          Lex.Total(r.value, k);
        }
      }
    }
  }

  /** Opens an iterator over the index prefix. */
  method LeastKey(db: DB) returns (r: Option<bytes>)
    ensures r.None? ==> forall k | k in db :: !InIndexRange(k)
    ensures r.Some? ==> IsLeast(db, r.value)
  {
    hide InIndexRange, Lex.Less;
    r := None;
    var rest := db.Keys;
    while rest != {}
      invariant rest <= db.Keys
      invariant r.None? ==> forall k | k in db && k !in rest :: !InIndexRange(k)
      invariant r.Some? ==> r.value in db && InIndexRange(r.value)
      invariant r.Some? ==> forall k | k in db && k !in rest && InIndexRange(k) :: k == r.value || Lex.Less(r.value, k)
      decreases |rest|
    {
      var k :| k in rest;
      rest := rest - {k};
      if InIndexRange(k) {
        if r.None? {
          r := Some(k);
        } else if Lex.Less(k, r.value) {
          forall j | j in db && j !in rest && InIndexRange(j)
            ensures j == k || Lex.Less(k, j)
          {
            if j != k && j != r.value {
              Lex.Transitive(k, r.value, j);
            }
          }
          r := Some(k);
        } else {
          Lex.Total(r.value, k);
        }
      }
    }
  }

  /** The greatest height present, -1 when there is none; a key of the wrong length is an error. */
  method LoadLastBlock(db: DB) returns (r: Option<int64>)
    ensures (forall k | k in db :: !InIndexRange(k)) ==> r == Some(-1)
    ensures r.None? <==> exists k :: IsGreatest(db, k) && |k| != 17
    ensures forall k | IsGreatest(db, k) && |k| == 17 :: r == Some(HeightOf(k))
    ensures WellKeyed(db) ==> r.Some? && r.value >= -1
    ensures WellKeyed(db) && r != Some(-1) ==> HasHeight(db, r.value) && forall h: int64 | HasHeight(db, h) :: h <= r.value
    ensures WellKeyed(db) && r == Some(-1) ==> forall h: int64 :: !HasHeight(db, h)
  {
    hide HeightOf, InIndexRange, Lex.Less;
    var k := GreatestKey(db);
    if k.None? {
      return Some(-1);
    }
    forall j | IsGreatest(db, j)
      ensures j == k.value
    {
      GreatestUnique(db, j, k.value);
    }
    if |k.value| != 17 {
      return None;
    }
    ghost var wellKeyed := WellKeyed(db);
    if wellKeyed {
      forall j | j in db && InIndexRange(j)
        ensures HeightOf(j) <= HeightOf(k.value)
      {
        if j != k.value {
          InIndexRangeIff(j);
          InIndexRangeIff(k.value);
          KeyHeightMonotone(j, k.value);
        }
      }
    }
    return Some(HeightOf(k.value));
  }

  /** The least height present, -1 when there is none; a key of the wrong length is an error. */
  method LoadFirstBlock(db: DB) returns (r: Option<int64>)
    ensures (forall k | k in db :: !InIndexRange(k)) ==> r == Some(-1)
    ensures r.None? <==> exists k :: IsLeast(db, k) && |k| != 17
    ensures forall k | IsLeast(db, k) && |k| == 17 :: r == Some(HeightOf(k))
    ensures WellKeyed(db) ==> r.Some? && r.value >= -1
    ensures WellKeyed(db) && r != Some(-1) ==> HasHeight(db, r.value) && forall h: int64 | HasHeight(db, h) :: r.value <= h
    ensures WellKeyed(db) && r == Some(-1) ==> forall h: int64 :: !HasHeight(db, h)
  {
    hide HeightOf, InIndexRange, Lex.Less;
    var k := LeastKey(db);
    if k.None? {
      return Some(-1);
    }
    forall j | IsLeast(db, j)
      ensures j == k.value
    {
      LeastUnique(db, j, k.value);
    }
    if |k.value| != 17 {
      return None;
    }
    ghost var wellKeyed := WellKeyed(db);
    if wellKeyed {
      forall j | j in db && InIndexRange(j)
        ensures HeightOf(k.value) <= HeightOf(j)
      {
        if j != k.value {
          InIndexRangeIff(j);
          InIndexRangeIff(k.value);
          KeyHeightMonotone(k.value, j);
        }
      }
    }
    return Some(HeightOf(k.value));
  }

  /** After any valid run the heights present are those of the blocks with an indexed message. */
  lemma {:induction false} RunHeights(bs: seq<Block>)
    requires ValidRun(bs)
    ensures WellKeyed(IndexAll(map[], bs))
    ensures forall h: int64 :: HasHeight(IndexAll(map[], bs), h) <==>
              exists k :: 0 <= k < |bs| && bs[k].height == h && Entries(bs[k]) != []
  {
    hide Entries, History, IndexAll, HeightOf, InIndexRange, ValidRun;
    var db := IndexAll(map[], bs);
    forall key | key in db && InIndexRange(key)
      ensures |key| == 17 && HeightOf(key) >= 0
      ensures exists k :: 0 <= k < |bs| && bs[k].height == HeightOf(key) && Entries(bs[k]) != []
    {
      var k := KeyHasBlock(bs, key);
    }
    forall k | 0 <= k < |bs| && Entries(bs[k]) != []
      ensures HasHeight(db, bs[k].height)
    {
      BlockHasKey(bs, k);
    }
  }

  lemma {:induction false} KeyHasBlock(bs: seq<Block>, key: bytes) returns (k: nat)
    requires ValidRun(bs) && key in IndexAll(map[], bs) && InIndexRange(key)
    ensures |key| == 17 && HeightOf(key) >= 0
    ensures k < |bs| && bs[k].height == HeightOf(key) && Entries(bs[k]) != []
  {
    hide Entries, History, IndexAll, PutAll, HeightOf, InIndexRange, IndexKey, WrittenKeys;
    var es := History(bs);
    IndexAllHistory(map[], bs);
    PutAllKeys(map[], es);
    var j := IndexKeyOrigin(es, key);
    var i;
    k, i := Locate(bs, j);
    EthIndexIsPosition(bs[k], i);
    HeightRoundTrip(es[j].record.height, es[j].record.ethTxIndex);
  }

  lemma {:induction false} BlockHasKey(bs: seq<Block>, k: nat)
    requires ValidRun(bs) && k < |bs| && Entries(bs[k]) != []
    ensures HasHeight(IndexAll(map[], bs), bs[k].height)
  {
    hide Entries, History, IndexAll, PutAll, HeightOf, InIndexRange, IndexKey;
    var es := History(bs);
    IndexAllHistory(map[], bs);
    PutAllKeys(map[], es);
    HistoryAt(bs, k, 0);
    EthIndexIsPosition(bs[k], 0);
    var e := es[Offset(bs, k)];
    assert IndexKey(e.record.height, e.record.ethTxIndex) in WrittenKeys(es);
    IndexKeyInRange(e.record.height, e.record.ethTxIndex);
    HeightRoundTrip(e.record.height, e.record.ethTxIndex);
  }

  lemma IndexKeyInRange(h: int64, i: int32)
    ensures InIndexRange(IndexKey(h, i))
  {
    hide BigEndian;
    InIndexRangeIff(IndexKey(h, i));
  }

  /** A key the iterators meet was written for the position of some entry. */
  lemma {:induction false} IndexKeyOrigin(es: seq<Entry>, key: bytes) returns (j: nat)
    requires key in WrittenKeys(es) && InIndexRange(key)
    ensures j < |es| && key == IndexKey(es[j].record.height, es[j].record.ethTxIndex)
  {
    hide IndexKey, InIndexRange;
    InIndexRangeIff(key);
    j :| 0 <= j < |es| && (key == HashKey(es[j].hash) || key == IndexKey(es[j].record.height, es[j].record.ethTxIndex));
  }
}
