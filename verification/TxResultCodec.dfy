/** The generated codec of `TxResult`, the value stored in the Ethereum transaction index. */
module TxResultCodec {
  import opened Arith
  import opened Wire
  import opened Message

  datatype TxResult = TxResult(
    height: int64,
    txIndex: uint32,
    msgIndex: uint32,
    ethTxIndex: int32,
    failed: bool,
    gasUsed: uint64,
    cumulativeGasUsed: uint64)

  const Zero := TxResult(0, 0, 0, 0, false, 0, 0)

  /** The unsigned 64-bit number written for a field. */
  function Raw(m: TxResult, field: nat): (v: uint64) {
    match field
    case 1 => ToUint64(m.height)
    case 2 => m.txIndex
    case 3 => m.msgIndex
    case 4 => ToUint64(m.ethTxIndex)
    case 5 => if m.failed then 1 else 0
    case 6 => m.gasUsed
    case 7 => m.cumulativeGasUsed
    case _ => 0
  }

  /** Stores a decoded varint, cut to the width of the field. */
  function SetField(m: TxResult, field: nat, v: nat): TxResult {
    match field
    case 1 => m.(height := ToInt64(v % TWO64))
    case 2 => m.(txIndex := v % TWO32)
    case 3 => m.(msgIndex := v % TWO32)
    case 4 => m.(ethTxIndex := ToInt32(v))
    case 5 => m.(failed := v % TWO64 != 0)
    case 6 => m.(gasUsed := v % TWO64)
    case 7 => m.(cumulativeGasUsed := v % TWO64)
    case _ => m
  }

  function TxStep(m: TxResult, field: int, wireType: nat, s: bytes): Step<TxResult> {
    if !(1 <= field <= 7) then Unknown
    else if wireType != 0 then Fail(WrongWireType)
    else
      match ReadVarint(s, 0)
      case Bad(e) => Fail(e)
      case Got(v, n) => Known(SetField(m, field, v), n)
  }

  // ---------------------------------------------------------------- encoding

  /** Fields are written under one-byte tags with wire type 0, and left out when zero. */
  function Field(m: TxResult, field: nat): (s: bytes)
    requires 1 <= field <= 7
  {
    if Raw(m, field) == 0 then [] else [8 * field] + Varint(Raw(m, field))
  }

  /** The fields from the given one on, in ascending order. */
  function EncodeFrom(m: TxResult, field: nat): bytes
    requires 1 <= field <= 8
    decreases 8 - field
  {
    if field == 8 then [] else Field(m, field) + EncodeFrom(m, field + 1)
  }

  function Encode(m: TxResult): bytes {
    EncodeFrom(m, 1)
  }

  /** `Size`: the number of bytes the writer needs. */
  function Size(m: TxResult): nat {
    (if m.height != 0 then 1 + Sov(ToUint64(m.height)) else 0)
    + (if m.txIndex != 0 then 1 + Sov(m.txIndex) else 0)
    + (if m.msgIndex != 0 then 1 + Sov(m.msgIndex) else 0)
    + (if m.ethTxIndex != 0 then 1 + Sov(ToUint64(m.ethTxIndex)) else 0)
    + (if m.failed then 2 else 0)
    + (if m.gasUsed != 0 then 1 + Sov(m.gasUsed) else 0)
    + (if m.cumulativeGasUsed != 0 then 1 + Sov(m.cumulativeGasUsed) else 0)
  }

  function FieldSize(m: TxResult, field: nat): nat {
    if Raw(m, field) == 0 then 0 else 1 + Sov(Raw(m, field))
  }

  function SizeFrom(m: TxResult, field: nat): nat
    requires 1 <= field <= 8
    decreases 8 - field
  {
    if field == 8 then 0 else FieldSize(m, field) + SizeFrom(m, field + 1)
  }

  lemma {:induction false} SizeFromExact(m: TxResult, field: nat)
    requires 1 <= field <= 8
    ensures SizeFrom(m, field) == |EncodeFrom(m, field)| <= |Encode(m)|
    decreases 8 - field
  {
    hide Sov, Varint, Raw;
    if field < 8 {
      SovExact(Raw(m, field));
      SizeFromExact(m, field + 1);
    }
    SuffixLength(m, field);
  }

  lemma {:induction false} SuffixLength(m: TxResult, field: nat)
    requires 1 <= field <= 8
    ensures |EncodeFrom(m, field)| <= |Encode(m)|
  {
    hide Field;
    if field > 1 {
      SuffixLength(m, field - 1);
    }
  }

  lemma SovOne()
    ensures Sov(1) == 1
  {
    SovExact(1);
  }

  lemma {:induction false} FieldSizes(m: TxResult)
    ensures FieldSize(m, 1) == if m.height != 0 then 1 + Sov(ToUint64(m.height)) else 0
    ensures FieldSize(m, 2) == if m.txIndex != 0 then 1 + Sov(m.txIndex) else 0
    ensures FieldSize(m, 3) == if m.msgIndex != 0 then 1 + Sov(m.msgIndex) else 0
    ensures FieldSize(m, 4) == if m.ethTxIndex != 0 then 1 + Sov(ToUint64(m.ethTxIndex)) else 0
    ensures FieldSize(m, 5) == if m.failed then 2 else 0
    ensures FieldSize(m, 6) == if m.gasUsed != 0 then 1 + Sov(m.gasUsed) else 0
    ensures FieldSize(m, 7) == if m.cumulativeGasUsed != 0 then 1 + Sov(m.cumulativeGasUsed) else 0
  {
    hide Sov;
    SovOne();
  }

  lemma {:induction false} SizeFromIs(m: TxResult)
    ensures SizeFrom(m, 1) == FieldSize(m, 1) + FieldSize(m, 2) + FieldSize(m, 3) + FieldSize(m, 4) + FieldSize(m, 5)
                              + FieldSize(m, 6) + FieldSize(m, 7)
  {
    hide FieldSize;
    assert SizeFrom(m, 6) == FieldSize(m, 6) + FieldSize(m, 7);
    assert SizeFrom(m, 4) == FieldSize(m, 4) + FieldSize(m, 5) + SizeFrom(m, 6);
    assert SizeFrom(m, 2) == FieldSize(m, 2) + FieldSize(m, 3) + SizeFrom(m, 4);
  }

  lemma {:induction false} SizeUnfold(m: TxResult)
    ensures Size(m) == SizeFrom(m, 1)
  {
    hide FieldSize, SizeFrom, Sov, ToUint64;
    FieldSizes(m);
    SizeFromIs(m);
  }

  /** `Size` is exact. */
  lemma {:induction false} SizeExact(m: TxResult)
    ensures Size(m) == |Encode(m)|
  {
    hide *;
    SizeUnfold(m);
    SizeFromExact(m, 1);
    EncodeIs(m);
  }

  lemma EncodeIs(m: TxResult)
    ensures Encode(m) == EncodeFrom(m, 1)
  {}

  // ---------------------------------------------------------------- the backward writer

  /** Fields from the given one on are in place behind index i; the front is untouched. */
  ghost predicate Written(m: TxResult, field: nat, start: bytes, now: bytes, i: nat)
    requires 1 <= field <= 8
  {
    && |now| == |start| && i + |EncodeFrom(m, field)| == |now|
    && now[i..] == EncodeFrom(m, field)
    && now[..i] == start[..i]
  }

  lemma WrittenNothing(m: TxResult, start: bytes)
    ensures Written(m, 8, start, start, |start|)
  {}

  lemma {:induction false} WrittenField(m: TxResult, field: nat, start: bytes, before: bytes, i: nat, now: bytes,
                                        next: nat)
    requires 1 <= field <= 7 && Written(m, field + 1, start, before, i)
    requires |now| == |before| && next + |Field(m, field)| == i
    requires now[next..] == Field(m, field) + before[i..] && now[..next] == before[..next]
    ensures Written(m, field, start, now, next)
  {
    hide Field;
    assert before[..next] == before[..i][..next];
    assert start[..next] == start[..i][..next];
  }

  lemma {:induction false} FieldRoom(m: TxResult, field: nat, tag: byte, v: nat)
    requires 1 <= field <= 7 && tag == 8 * field && v == Raw(m, field)
    ensures Field(m, field) == if v == 0 then [] else [tag] + Varint(v)
    ensures |Field(m, field)| + |EncodeFrom(m, field + 1)| <= |Encode(m)|
    ensures |Varint(v)| == Sov(v)
  {
    hide Sov, Varint, Raw, Encode;
    SuffixLength(m, field);
    SovExact(v);
  }

  /** The conditional write of one field. */
  method MarshalField(ghost m: TxResult, ghost field: nat, ghost start: bytes,
                      buf: array<byte>, i: nat, tag: byte, v: nat) returns (next: nat)
    requires 1 <= field <= 7 && tag == 8 * field && v == Raw(m, field)
    requires |Encode(m)| <= buf.Length && Written(m, field + 1, start, buf[..], i)
    modifies buf
    ensures Written(m, field, start, buf[..], next)
  {
    hide Sov, Varint, Raw, Encode, EncodeFrom, Field;
    ghost var before := buf[..];
    FieldRoom(m, field, tag, v);
    next := i;
    if v != 0 {
      next := PutField(buf, i, tag, v);
      assert buf[i..] == before[i..];
    }
    assert buf[next..] == Field(m, field) + before[i..];
    WrittenField(m, field, start, before, i, buf[..], next);
  }

  /** Writes the fields from the last to the first, from the end of the buffer. */
  method MarshalToSizedBuffer(m: TxResult, buf: array<byte>) returns (n: nat)
    requires Size(m) <= buf.Length
    modifies buf
    ensures n == Size(m)
    ensures buf[buf.Length - n..] == Encode(m)
    ensures buf[..buf.Length - n] == old(buf[..buf.Length - n])
  {
    hide Size, EncodeFrom;
    SizeExact(m);
    ghost var start := buf[..];
    var i := buf.Length;
    WrittenNothing(m, start);
    i := MarshalField(m, 7, start, buf, i, 0x38, m.cumulativeGasUsed);
    i := MarshalField(m, 6, start, buf, i, 0x30, m.gasUsed);
    i := MarshalField(m, 5, start, buf, i, 0x28, if m.failed then 1 else 0);
    i := MarshalField(m, 4, start, buf, i, 0x20, ToUint64(m.ethTxIndex));
    i := MarshalField(m, 3, start, buf, i, 0x18, m.msgIndex);
    i := MarshalField(m, 2, start, buf, i, 0x10, m.txIndex);
    i := MarshalField(m, 1, start, buf, i, 0x08, ToUint64(m.height));
    n := buf.Length - i;
  }

  method Marshal(m: TxResult) returns (buf: array<byte>)
    ensures fresh(buf) && buf[..] == Encode(m)
  {
    SizeExact(m);
    buf := new byte[Size(m)];
    var n := MarshalToSizedBuffer(m, buf);
  }

  // ---------------------------------------------------------------- decoding

  lemma {:induction false} TxStepStable()
    ensures Stable(TxStep)
  {
    forall m, f, w, s, t
      ensures StableAt(TxStep, m, f, w, s, t)
    {
      hide SetField, ReadVarint;
      ReadPrefix(s, t, 0);
    }
  }

  /** m0 with one field taken from m, unless m leaves it out. */
  function Put(m0: TxResult, m: TxResult, field: nat): TxResult {
    if Raw(m, field) == 0 then m0 else SetField(m0, field, Raw(m, field))
  }

  function PutFrom(m0: TxResult, m: TxResult, field: nat): TxResult
    requires 1 <= field <= 8
    decreases 8 - field
  {
    if field == 8 then m0 else PutFrom(Put(m0, m, field), m, field + 1)
  }

  /** The merge of two messages: a field set in m wins over m0. */
  function Overlay(m0: TxResult, m: TxResult): TxResult {
    TxResult(
      if m.height != 0 then m.height else m0.height,
      if m.txIndex != 0 then m.txIndex else m0.txIndex,
      if m.msgIndex != 0 then m.msgIndex else m0.msgIndex,
      if m.ethTxIndex != 0 then m.ethTxIndex else m0.ethTxIndex,
      m.failed || m0.failed,
      if m.gasUsed != 0 then m.gasUsed else m0.gasUsed,
      if m.cumulativeGasUsed != 0 then m.cumulativeGasUsed else m0.cumulativeGasUsed)
  }

  /** Signed numbers survive sign extension, truncation and reinterpretation. */
  lemma SignedRoundTrip(x: int64, y: int32)
    ensures ToInt64(ToUint64(x)) == x
    ensures ToInt32(ToUint64(y)) == y
  {
    var u := ToUint64(y);
    if y < 0 {
      ModUnique(u, TWO32, TWO32 - 1, y + TWO32);
    } else {
      ModUnique(u, TWO32, 0, y);
    }
  }

  lemma {:induction false} PutIs(m0: TxResult, m: TxResult)
    ensures Put(m0, m, 1) == if m.height != 0 then m0.(height := m.height) else m0
    ensures Put(m0, m, 2) == if m.txIndex != 0 then m0.(txIndex := m.txIndex) else m0
    ensures Put(m0, m, 3) == if m.msgIndex != 0 then m0.(msgIndex := m.msgIndex) else m0
    ensures Put(m0, m, 4) == if m.ethTxIndex != 0 then m0.(ethTxIndex := m.ethTxIndex) else m0
    ensures Put(m0, m, 5) == if m.failed then m0.(failed := true) else m0
    ensures Put(m0, m, 6) == if m.gasUsed != 0 then m0.(gasUsed := m.gasUsed) else m0
    ensures Put(m0, m, 7) == if m.cumulativeGasUsed != 0 then m0.(cumulativeGasUsed := m.cumulativeGasUsed) else m0
  {
    hide ToInt32, ToInt64;
    SignedRoundTrip(m.height, m.ethTxIndex);
  }

  lemma {:induction false} PutFromUnfold(m0: TxResult, m: TxResult)
    ensures PutFrom(m0, m, 1) == Put(Put(Put(Put(Put(Put(Put(m0, m, 1), m, 2), m, 3), m, 4), m, 5), m, 6), m, 7)
  {
    hide Put;
    var m2 := Put(Put(m0, m, 1), m, 2);
    var m4 := Put(Put(m2, m, 3), m, 4);
    var m6 := Put(Put(m4, m, 5), m, 6);
    assert PutFrom(m0, m, 1) == PutFrom(m2, m, 3) == PutFrom(m4, m, 5) == PutFrom(m6, m, 7);
  }

  lemma {:induction false} PutAll(m0: TxResult, m: TxResult)
    ensures PutFrom(m0, m, 1) == Overlay(m0, m)
  {
    hide Put, PutFrom;
    var m1 := Put(m0, m, 1);
    var m2 := Put(m1, m, 2);
    var m3 := Put(m2, m, 3);
    var m4 := Put(m3, m, 4);
    var m5 := Put(m4, m, 5);
    var m6 := Put(m5, m, 6);
    var m7 := Put(m6, m, 7);
    PutFromUnfold(m0, m);
    PutIs(m0, m);
    PutIs(m1, m);
    PutIs(m2, m);
    PutIs(m3, m);
    PutIs(m4, m);
    PutIs(m5, m);
    PutIs(m6, m);
  }

  lemma {:induction false} DecodeField(m0: TxResult, m: TxResult, field: nat, y: bytes)
    requires 1 <= field <= 7
    ensures Decode(TxStep, m0, Field(m, field) + y) == Decode(TxStep, Put(m0, m, field), y)
  {
    hide Raw, SetField, Decode;
    var v := Raw(m, field);
    if v == 0 {
      assert Field(m, field) + y == y;
    } else {
      var s := Field(m, field) + y;
      assert s == [8 * field] + (Varint(v) + y);
      ShortTag(field, Varint(v) + y);
      ReadWritten64(v, y);
      hide ReadTag, ReadVarint, Varint;
      assert s[1..] == Varint(v) + y;
      DecodeKnown(TxStep, m0, s, Tag(field, 0, 1), SetField(m0, field, v), |Varint(v)|);
      assert s[1 + |Varint(v)|..] == y;
    }
  }

  lemma {:induction false} ShortTag(field: nat, rest: bytes)
    requires 1 <= field <= 15
    ensures ReadTag([8 * field] + rest) == Ok(Tag(field, 0, 1))
  {
    assert ReadVarint([8 * field] + rest, 0) == Got(8 * field, 1);
  }

  lemma {:induction false} DecodeFrom(m0: TxResult, m: TxResult, field: nat)
    requires 1 <= field <= 8
    ensures Decode(TxStep, m0, EncodeFrom(m, field)) == Ok(PutFrom(m0, m, field))
    decreases 8 - field
  {
    hide Field, Put;
    if field < 8 {
      DecodeField(m0, m, field, EncodeFrom(m, field + 1));
      DecodeFrom(Put(m0, m, field), m, field + 1);
    }
  }

  /** Decoding an encoded message merges it into the record decoded into. */
  lemma {:induction false} DecodeMerges(m0: TxResult, m: TxResult)
    ensures Decode(TxStep, m0, Encode(m)) == Ok(Overlay(m0, m))
  {
    hide Decode, Overlay;
    DecodeFrom(m0, m, 1);
    PutAll(m0, m);
  }

  /** Unmarshalling undoes marshalling, for every record. */
  lemma {:induction false} RoundTrip(m: TxResult)
    ensures Decode(TxStep, Zero, Encode(m)) == Ok(m)
  {
    hide Decode, Encode;
    DecodeMerges(Zero, m);
  }

  /** Concatenated encodings decode to the merge in which the later message wins. */
  lemma {:induction false} LastOneWins(a: TxResult, b: TxResult)
    ensures Decode(TxStep, Zero, Encode(a) + Encode(b)) == Ok(Overlay(a, b))
  {
    hide Decode, Encode, Overlay;
    TxStepStable();
    RoundTrip(a);
    Compose(TxStep, Zero, Encode(a), Encode(b));
    DecodeMerges(a, b);
  }

  /** Only the zero record has an empty encoding, so stored bytes are never mistaken for a missing entry. */
  lemma {:induction false} EmptyIffZero(m: TxResult)
    ensures Encode(m) == [] <==> m == Zero
  {
    hide Decode, Encode;
    RoundTrip(m);
    DecodeNothing(TxStep, Zero);
    SizeExact(Zero);
  }

  lemma {:induction false} EncodeInjective(a: TxResult, b: TxResult)
    requires Encode(a) == Encode(b)
    ensures a == b
  {
    hide *;
    RoundTrip(a);
    RoundTrip(b);
  }

  // ---------------------------------------------------------------- the index-driven decoder

  /** A register as wide as the field holds as much of a varint as the field keeps. */
  lemma {:induction false} WidthEnough(m: TxResult, field: nat, v: nat)
    requires 1 <= field <= 7
    ensures SetField(m, field, Truncate(v, if field in {2, 3, 4} then 32 else 64)) == SetField(m, field, v)
  {
    hide Pow2;
    Pow2Values();
  }

  lemma {:induction false} RegisterFits(v: nat)
    ensures Truncate(v, 32) < TWO32 && Truncate(v, 64) < TWO64
  {
    hide Pow2;
    Pow2Values();
  }

  /** A register that fits its field is stored as it is, two's complement where the field is signed. */
  lemma {:induction false} StoredAs(m: TxResult, v: nat)
    ensures v < TWO64 ==>
              && SetField(m, 1, v) == m.(height := if v < TWO63 then v else v - TWO64)
              && SetField(m, 5, v) == m.(failed := v != 0) && SetField(m, 6, v) == m.(gasUsed := v)
              && SetField(m, 7, v) == m.(cumulativeGasUsed := v)
    ensures v < TWO32 ==>
              && SetField(m, 2, v) == m.(txIndex := v) && SetField(m, 3, v) == m.(msgIndex := v)
              && SetField(m, 4, v) == m.(ethTxIndex := if v < TWO31 then v else v - TWO32)
  {}

  /** The `switch` on the field number; an unknown number is left to the skipper. */
  method FieldLoop(m: TxResult, field: int, wireType: nat, data: bytes, i: nat) returns (r: Step<TxResult>)
    requires i <= |data|
    ensures r == TxStep(m, field, wireType, data[i..])
  {
    hide ReadVarint, SetField, Truncate;
    if !(1 <= field <= 7) {
      return Unknown;
    }
    if wireType != 0 {
      return Fail(WrongWireType);
    }
    var v := ReadVarintLoop(data, i, if field in {2, 3, 4} then 32 else 64);
    if v.Bad? {
      return Fail(v.error);
    }
    ghost var full := ReadVarint(data[i..], 0).value;
    WidthEnough(m, field, full);
    RegisterFits(full);
    StoredAs(m, v.value);
    var stored := m;
    match field {
      case 1 => stored := m.(height := if v.value < TWO63 then v.value else v.value - TWO64);
      case 2 => stored := m.(txIndex := v.value);
      case 3 => stored := m.(msgIndex := v.value);
      case 4 => stored := m.(ethTxIndex := if v.value < TWO31 then v.value else v.value - TWO32);
      case 5 => stored := m.(failed := v.value != 0);
      case 6 => stored := m.(gasUsed := v.value);
      case _ => stored := m.(cumulativeGasUsed := v.value);
    }
    return Known(stored, v.size - i);
  }

  /** The tag loop of `Unmarshal`. */
  method Unmarshal(m0: TxResult, data: bytes) returns (r: Result<TxResult>)
    requires Addressable(data)
    ensures r == Decode(TxStep, m0, data)
  {
    hide *;
    var m, i := m0, 0;
    assert data[0..] == data;
    TxStepStable();
    while i < |data|
      invariant 0 <= i <= |data|
      invariant Decode(TxStep, m0, data) == Decode(TxStep, m, data[i..])
      decreases |data| - i
    {
      var tag := ReadTagLoop(data, i);
      DecodeRound(TxStep, m, data, i);
      if tag.Err? {
        return Err(tag.error);
      }
      var Tag(field, wireType, size) := tag.value;
      var step := FieldLoop(m, field, wireType, data, i + size);
      match step
      case Fail(e) =>
        return Err(e);
      case Known(m', used) =>
        m, i := m', i + size + used;
      case Unknown =>
        AddressableSuffix(data, i);
        var skipped := SkipLoop(data[i..]);
        if skipped.Err? {
          return Err(skipped.error);
        }
        if i + skipped.value > |data| {
          return Err(Truncated);
        }
        i := i + skipped.value;
    }
    assert data[i..] == [];
    DecodeNothing(TxStep, m);
    return Ok(m);
  }
}
