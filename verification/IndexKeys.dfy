/** The keys of the index database and their order. */
module IndexKeys {
  import opened Arith
  import Lex

  type Hash = h: bytes | |h| == 32 witness seq(32, _ => 0)

  /** The n low-order bytes of u, most significant first. */
  function BigEndian(u: nat, n: nat): (s: bytes)
    ensures |s| == n
  {
    if n == 0 then [] else BigEndian(u / 256, n - 1) + [u % 256]
  }

  function FromBigEndian(s: bytes): nat {
    if s == [] then 0 else 256 * FromBigEndian(s[..|s| - 1]) + s[|s| - 1]
  }

  function Pow256(n: nat): nat {
    if n == 0 then 1 else 256 * Pow256(n - 1)
  }

  lemma Pow256Eight()
    ensures Pow256(8) == TWO64
  {
    assert Pow256(4) == 0x1_0000_0000;
    assert Pow256(6) == 0x1_0000_0000_0000;
  }

  lemma {:induction false} BigEndianRoundTrip(u: nat, n: nat)
    requires u < Pow256(n)
    ensures FromBigEndian(BigEndian(u, n)) == u
  {
    if n > 0 {
      var s := BigEndian(u, n);
      assert s[..n - 1] == BigEndian(u / 256, n - 1);
      BigEndianRoundTrip(u / 256, n - 1);
    }
  }

  /** Big-endian bytes sort as the numbers do. */
  lemma {:induction false} BigEndianOrder(u: nat, v: nat, n: nat)
    requires u < v < Pow256(n)
    ensures Lex.Less(BigEndian(u, n), BigEndian(v, n))
  {
    if n > 0 {
      var a, b := u / 256, v / 256;
      Lex.LessConcat(BigEndian(a, n - 1), [u % 256], BigEndian(b, n - 1), [v % 256]);
      if a < b {
        BigEndianOrder(a, b, n - 1);
      }
    }
  }

  /** `TxHashKey` */
  function HashKey(hash: Hash): bytes {
    [1] + hash
  }

  /** `TxIndexKey`: both numbers are sign-extended to 64 bits first. */
  function IndexKey(height: int64, index: int32): (k: bytes)
    ensures |k| == 17
  {
    [2] + (BigEndian(ToUint64(height), 8) + BigEndian(ToUint64(index), 8))
  }

  /** `parseBlockNumberFromKey` on a key of the right length. */
  function HeightOf(key: bytes): int64
    requires |key| == 17
  {
    FromBigEndianBound(key[1..9]);
    ToInt64(FromBigEndian(key[1..9]))
  }

  lemma {:induction false} FromBigEndianBound(s: bytes)
    requires |s| == 8
    ensures FromBigEndian(s) < TWO64
  {
    FromBigEndianBelow(s);
    Pow256Eight();
  }

  lemma {:induction false} FromBigEndianBelow(s: bytes)
    ensures FromBigEndian(s) < Pow256(|s|)
  {
    if s != [] {
      FromBigEndianBelow(s[..|s| - 1]);
    }
  }

  lemma {:induction false} HeightRoundTrip(height: int64, index: int32)
    ensures HeightOf(IndexKey(height, index)) == height
  {
    hide BigEndian, FromBigEndian;
    assert IndexKey(height, index)[1..9] == BigEndian(ToUint64(height), 8);
    Pow256Eight();
    BigEndianRoundTrip(ToUint64(height), 8);
  }

  lemma {:induction false} IndexRoundTrip(height: int64, index: int32)
    ensures FromBigEndian(IndexKey(height, index)[9..]) == ToUint64(index)
  {
    hide BigEndian, FromBigEndian;
    assert IndexKey(height, index)[9..] == BigEndian(ToUint64(index), 8);
    Pow256Eight();
    BigEndianRoundTrip(ToUint64(index), 8);
  }

  /** One byte of prefix, then the hash, or both numbers as eight bytes each, most significant first. */
  lemma {:induction false} KeyLayout(h: Hash, height: int64, index: int32)
    ensures HashKey(h)[0] == 1 && HashKey(h)[1..] == h
    ensures var k := IndexKey(height, index);
            && k[0] == 2
            && FromBigEndian(k[1..9]) == (if height < 0 then height + 0x1_0000_0000_0000_0000 else height)
            && FromBigEndian(k[9..]) == (if index < 0 then index + 0x1_0000_0000_0000_0000 else index)
    ensures FromBigEndian([1, 2]) == 258
  {
    hide BigEndian;
    var k := IndexKey(height, index);
    assert k[1..9] == BigEndian(ToUint64(height), 8) && k[9..] == BigEndian(ToUint64(index), 8);
    Pow256Eight();
    BigEndianRoundTrip(ToUint64(height), 8);
    BigEndianRoundTrip(ToUint64(index), 8);
    assert [1, 2][..1] == [1] && [1][..0] == [];
    assert FromBigEndian([1]) == 1;
  }

  /** Index keys determine height and index. */
  lemma {:induction false} IndexKeyInjective(h: int64, i: int32, h': int64, i': int32)
    requires IndexKey(h, i) == IndexKey(h', i')
    ensures h == h' && i == i'
  {
    hide IndexKey, HeightOf, FromBigEndian;
    HeightRoundTrip(h, i);
    HeightRoundTrip(h', i');
    IndexRoundTrip(h, i);
    IndexRoundTrip(h', i');
  }

  lemma HashKeyInjective(a: Hash, b: Hash)
    requires HashKey(a) == HashKey(b)
    ensures a == b
  {
    assert HashKey(a)[1..] == a && HashKey(b)[1..] == b;
  }

  /** The two families of keys do not meet. */
  lemma KeysDisjoint(hash: Hash, height: int64, index: int32)
    ensures HashKey(hash) != IndexKey(height, index)
  {
    hide BigEndian;
    assert HashKey(hash)[0] == 1 && IndexKey(height, index)[0] == 2;
  }

  /** For all heights and indices, key order is the order of the numbers seen as unsigned. */
  lemma {:induction false} KeyOrderUnsigned(h: int64, i: int32, h': int64, i': int32)
    ensures Lex.Less(IndexKey(h, i), IndexKey(h', i')) <==>
            ToUint64(h) < ToUint64(h') || (h == h' && ToUint64(i) < ToUint64(i'))
  {
    hide BigEndian, Lex.Less, ToUint64;
    var a, b, a', b' := BigEndian(ToUint64(h), 8), BigEndian(ToUint64(i), 8),
                        BigEndian(ToUint64(h'), 8), BigEndian(ToUint64(i'), 8);
    NotLessByte();
    Lex.LessConcat([2], a + b, [2], a' + b');
    Lex.LessConcat(a, b, a', b');
    BytesOrder(ToUint64(h), ToUint64(h'));
    BytesOrder(ToUint64(i), ToUint64(i'));
    UnsignedInjective(h, h');
  }

  lemma NotLessByte()
    ensures !Lex.Less([2], [2])
  {
    Lex.Irreflexive([2]);
  }

  lemma UnsignedInjective(h: int64, h': int64)
    ensures ToUint64(h) == ToUint64(h') <==> h == h'
  {}

  lemma {:induction false} BytesOrder(u: uint64, v: uint64)
    ensures Lex.Less(BigEndian(u, 8), BigEndian(v, 8)) <==> u < v
    ensures BigEndian(u, 8) == BigEndian(v, 8) <==> u == v
  {
    hide BigEndian, Lex.Less;
    Pow256Eight();
    if u < v {
      BigEndianOrder(u, v, 8);
      Lex.Asymmetric(BigEndian(u, 8), BigEndian(v, 8));
    } else if v < u {
      BigEndianOrder(v, u, 8);
      Lex.Asymmetric(BigEndian(v, 8), BigEndian(u, 8));
    } else {
      Lex.Irreflexive(BigEndian(u, 8));
    }
  }

  /** On non-negative numbers key order is numeric order on (height, index). */
  lemma {:induction false} KeyOrder(h: int64, i: int32, h': int64, i': int32)
    requires h >= 0 && i >= 0 && h' >= 0 && i' >= 0
    ensures Lex.Less(IndexKey(h, i), IndexKey(h', i')) <==> h < h' || (h == h' && i < i')
  {
    hide IndexKey, Lex.Less;
    KeyOrderUnsigned(h, i, h', i');
  }

  /** A negative height breaks the agreement: it sorts after every non-negative one. */
  lemma {:induction false} KeyOrderNegative(h: int64, i: int32, h': int64, i': int32)
    requires h < 0 <= h'
    ensures Lex.Less(IndexKey(h', i'), IndexKey(h, i))
  {
    hide IndexKey, Lex.Less;
    KeyOrderUnsigned(h', i', h, i);
  }

  /** Iterators over the prefix 2 see exactly the keys that start with it. */
  predicate InIndexRange(k: bytes) {
    !Lex.Less(k, [2]) && Lex.Less(k, [3])
  }

  lemma {:induction false} InIndexRangeIff(k: bytes)
    ensures InIndexRange(k) <==> k != [] && k[0] == 2
  {
    var two: seq<int>, three: seq<int> := [2], [3];
    assert two[1..] == [] && three[1..] == [];
    if k != [] {
      assert !Lex.Less(k[1..], []);
    }
  }
}
