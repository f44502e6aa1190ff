/** The generated codec of `ExtensionOptionsWeb3Tx`, which adds length-delimited fields to the varint case. */
module Web3Codec {
  import opened Arith
  import opened Wire
  import opened Message

  /** Strings and byte slices are both bytes on the wire. */
  datatype Web3Tx = Web3Tx(typedDataChainID: uint64, feePayer: bytes, feePayerSig: bytes)

  const Zero := Web3Tx(0, [], [])

  /** Slices that a 64-bit platform can hold. */
  predicate Valid(m: Web3Tx) {
    Addressable(m.feePayer) && Addressable(m.feePayerSig)
  }

  /** The bytes of a length-delimited field, after its tag. */
  function ReadBlob(s: bytes): (r: Result<(bytes, nat)>)
    ensures r.Ok? ==> r.value.1 <= |s|
  {
    match ReadVarint(s, 0)
    case Bad(e) => Err(e)
    case Got(v, n) =>
      var length := v % TWO64;
      if length >= TWO63 || n + length > |s| then Err(Truncated)
      else Ok((s[n..n + length], n + length))
  }

  function Web3Step(m: Web3Tx, field: int, wireType: nat, s: bytes): Step<Web3Tx> {
    if field == 1 then
      if wireType != 0 then Fail(WrongWireType)
      else
        match ReadVarint(s, 0)
        case Bad(e) => Fail(e)
        case Got(v, n) => Known(m.(typedDataChainID := v % TWO64), n)
    else if field == 2 || field == 3 then
      if wireType != 2 then Fail(WrongWireType)
      else
        match ReadBlob(s)
        case Err(e) => Fail(e)
        case Ok((blob, n)) => Known(if field == 2 then m.(feePayer := blob) else m.(feePayerSig := blob), n)
    else Unknown
  }

  // ---------------------------------------------------------------- encoding

  function Blob(tag: byte, payload: bytes): bytes {
    if payload == [] then [] else [tag] + Varint(|payload|) + payload
  }

  function Number(tag: byte, v: nat): bytes {
    if v == 0 then [] else [tag] + Varint(v)
  }

  function Encode(m: Web3Tx): bytes {
    Number(0x08, m.typedDataChainID) + (Blob(0x12, m.feePayer) + Blob(0x1a, m.feePayerSig))
  }

  function Size(m: Web3Tx): nat {
    (if m.typedDataChainID != 0 then 1 + Sov(m.typedDataChainID) else 0)
    + (if |m.feePayer| > 0 then 1 + |m.feePayer| + Sov(|m.feePayer|) else 0)
    + (if |m.feePayerSig| > 0 then 1 + |m.feePayerSig| + Sov(|m.feePayerSig|) else 0)
  }

  /** `Size` is exact. */
  lemma {:induction false} SizeExact(m: Web3Tx)
    ensures Size(m) == |Encode(m)|
  {
    hide Sov, Varint;
    SovExact(m.typedDataChainID);
    SovExact(|m.feePayer|);
    SovExact(|m.feePayerSig|);
  }

  /** Copies a payload in front of index i. */
  method PutPayload(buf: array<byte>, i: nat, payload: bytes) returns (next: nat)
    requires |payload| <= i <= buf.Length
    modifies buf
    ensures next + |payload| == i
    ensures buf[next..] == payload + old(buf[i..])
    ensures buf[..next] == old(buf[..next])
  {
    hide *;
    next := i - |payload|;
    forall j | 0 <= j < |payload| {
      buf[next + j] := payload[j];
    }
  }

  lemma {:induction false} BlobBytes(tag: byte, payload: bytes, rest: bytes)
    ensures payload == [] ==> Blob(tag, payload) == [] && Blob(tag, payload) + rest == rest
    ensures payload != [] ==> |Blob(tag, payload)| == 1 + |Varint(|payload|)| + |payload|
    ensures payload != [] ==> [tag] + Varint(|payload|) + (payload + rest) == Blob(tag, payload) + rest
  {
    hide Varint;
  }

  /** The conditional write of a length-delimited field: payload, then length and tag in front of it. */
  method PutBlob(buf: array<byte>, i: nat, tag: byte, payload: bytes) returns (next: nat)
    requires |Blob(tag, payload)| <= i <= buf.Length
    modifies buf
    ensures next + |Blob(tag, payload)| == i
    ensures buf[next..] == Blob(tag, payload) + old(buf[i..])
    ensures buf[..next] == old(buf[..next])
  {
    hide *;
    BlobBytes(tag, payload, buf[i..]);
    next := i;
    if |payload| > 0 {
      var p := PutPayload(buf, i, payload);
      next := PutField(buf, p, tag, |payload|);
    }
  }

  /** The conditional write of the chain identifier. */
  method PutNumber(buf: array<byte>, i: nat, tag: byte, v: nat) returns (next: nat)
    requires |Number(tag, v)| <= i <= buf.Length
    modifies buf
    ensures next + |Number(tag, v)| == i
    ensures buf[next..] == Number(tag, v) + old(buf[i..])
    ensures buf[..next] == old(buf[..next])
  {
    hide Varint;
    next := i;
    if v != 0 {
      next := PutField(buf, i, tag, v);
    }
  }

  method MarshalToSizedBuffer(m: Web3Tx, buf: array<byte>) returns (n: nat)
    requires Size(m) <= buf.Length
    modifies buf
    ensures n == Size(m)
    ensures buf[buf.Length - n..] == Encode(m)
    ensures buf[..buf.Length - n] == old(buf[..buf.Length - n])
  {
    hide Size, Blob, Number;
    SizeExact(m);
    var i := buf.Length;
    ghost var start := buf[..];
    i := PutBlob(buf, i, 0x1a, m.feePayerSig);
    assert buf[i..] == Blob(0x1a, m.feePayerSig) && buf[..i] == start[..i];
    i := PutBlob(buf, i, 0x12, m.feePayer);
    assert buf[..i] == start[..i];
    i := PutNumber(buf, i, 0x08, m.typedDataChainID);
    assert buf[..i] == start[..i];
    n := buf.Length - i;
  }

  // ---------------------------------------------------------------- decoding

  lemma {:induction false} BlobPrefix(s: bytes, t: bytes)
    requires ReadBlob(s).Ok?
    ensures ReadBlob(s + t) == ReadBlob(s)
  {
    hide ReadVarint;
    ReadPrefix(s, t, 0);
    var Got(v, n) := ReadVarint(s, 0);
    var length := v % TWO64;
    assert (s + t)[n..n + length] == s[n..n + length];
  }

  lemma {:induction false} Web3StepStable()
    ensures Stable(Web3Step)
  {
    forall m, f, w, s, t
      ensures StableAt(Web3Step, m, f, w, s, t)
    {
      hide ReadVarint, ReadBlob;
      ReadPrefix(s, t, 0);
      if ReadBlob(s).Ok? {
        BlobPrefix(s, t);
      }
    }
  }

  lemma {:induction false} BlobRoundTrip(payload: bytes, y: bytes)
    requires Addressable(payload)
    ensures ReadBlob(Varint(|payload|) + payload + y) == Ok((payload, |Varint(|payload|)| + |payload|))
  {
    hide ReadVarint, Varint;
    var s := Varint(|payload|) + payload + y;
    assert s == Varint(|payload|) + (payload + y);
    ReadWritten64(|payload|, payload + y);
    assert s[|Varint(|payload|)|..|Varint(|payload|)| + |payload|] == payload;
  }

  /** The tag byte of a field below 16. */
  lemma {:induction false} ShortTag(field: nat, wireType: nat, rest: bytes)
    requires 1 <= field <= 15 && wireType in {0, 2}
    ensures ReadTag([8 * field + wireType] + rest) == Ok(Tag(field, wireType, 1))
  {
    assert ReadVarint([8 * field + wireType] + rest, 0) == Got(8 * field + wireType, 1);
  }

  lemma {:induction false} DecodeNumber(m: Web3Tx, v: uint64, y: bytes)
    ensures Decode(Web3Step, m, Number(0x08, v) + y)
         == Decode(Web3Step, if v == 0 then m else m.(typedDataChainID := v), y)
  {
    hide ReadTag, ReadVarint, Varint, Decode, ReadBlob;
    var s := Number(0x08, v) + y;
    if v == 0 {
      assert s == y;
    } else {
      assert s == [0x08] + (Varint(v) + y);
      ShortTag(1, 0, Varint(v) + y);
      ReadWritten64(v, y);
      assert s[1..] == Varint(v) + y;
      DecodeKnown(Web3Step, m, s, Tag(1, 0, 1), m.(typedDataChainID := v), |Varint(v)|);
      assert s[1 + |Varint(v)|..] == y;
    }
  }

  lemma {:induction false} DecodeBlob(m: Web3Tx, field: nat, payload: bytes, y: bytes)
    requires field in {2, 3} && Addressable(payload)
    ensures Decode(Web3Step, m, Blob(8 * field + 2, payload) + y)
         == Decode(Web3Step, if payload == [] then m
                             else if field == 2 then m.(feePayer := payload) else m.(feePayerSig := payload), y)
  {
    hide ReadTag, ReadVarint, Varint, Decode, ReadBlob, Addressable;
    var s := Blob(8 * field + 2, payload) + y;
    if payload == [] {
      assert s == y;
    } else {
      var t := Varint(|payload|) + payload + y;
      assert s == [8 * field + 2] + t;
      ShortTag(field, 2, t);
      BlobRoundTrip(payload, y);
      assert s[1..] == t;
      var n := |Varint(|payload|)| + |payload|;
      DecodeKnown(Web3Step, m, s, Tag(field, 2, 1),
        if field == 2 then m.(feePayer := payload) else m.(feePayerSig := payload), n);
      assert s[1 + n..] == y;
    }
  }

  /** The merge of two messages: a field set in m wins over m0. */
  function Overlay(m0: Web3Tx, m: Web3Tx): Web3Tx {
    Web3Tx(
      if m.typedDataChainID != 0 then m.typedDataChainID else m0.typedDataChainID,
      if m.feePayer != [] then m.feePayer else m0.feePayer,
      if m.feePayerSig != [] then m.feePayerSig else m0.feePayerSig)
  }

  /** Decoding an encoded message merges it into the record decoded into. */
  lemma {:induction false} DecodeMerges(m0: Web3Tx, m: Web3Tx)
    requires Valid(m)
    ensures Decode(Web3Step, m0, Encode(m)) == Ok(Overlay(m0, m))
  {
    hide Decode, Number, Blob, Addressable;
    var m1 := if m.typedDataChainID == 0 then m0 else m0.(typedDataChainID := m.typedDataChainID);
    var m2 := if m.feePayer == [] then m1 else m1.(feePayer := m.feePayer);
    DecodeNumber(m0, m.typedDataChainID, Blob(0x12, m.feePayer) + Blob(0x1a, m.feePayerSig));
    DecodeBlob(m1, 2, m.feePayer, Blob(0x1a, m.feePayerSig));
    DecodeBlob(m2, 3, m.feePayerSig, []);
    assert Blob(0x1a, m.feePayerSig) + [] == Blob(0x1a, m.feePayerSig);
    DecodeNothing(Web3Step, Overlay(m0, m));
  }

  /** Unmarshalling undoes marshalling. */
  lemma {:induction false} RoundTrip(m: Web3Tx)
    requires Valid(m)
    ensures Decode(Web3Step, Zero, Encode(m)) == Ok(m)
  {
    hide Decode, Encode, Valid;
    DecodeMerges(Zero, m);
  }

  /** Concatenated encodings decode to the merge in which the later message wins. */
  lemma {:induction false} LastOneWins(a: Web3Tx, b: Web3Tx)
    requires Valid(a) && Valid(b)
    ensures Decode(Web3Step, Zero, Encode(a) + Encode(b)) == Ok(Overlay(a, b))
  {
    hide Decode, Encode, Overlay, Valid;
    Web3StepStable();
    RoundTrip(a);
    Compose(Web3Step, Zero, Encode(a), Encode(b));
    DecodeMerges(a, b);
  }

  // ---------------------------------------------------------------- the index-driven decoder

  /** Reads a length and slices the payload; the end may overflow to a negative index. */
  method BlobLoop(data: bytes, i: nat) returns (r: Result<(bytes, nat)>)
    requires i <= |data| && Addressable(data)
    ensures r == ReadBlob(data[i..])
  {
    hide ReadVarint;
    var v := ReadUint64(data, i);
    if v.Bad? {
      return Err(v.error);
    }
    var length := ToInt64(v.value);
    if length < 0 {
      return Err(Truncated);
    }
    var post := if v.size + length < TWO63 then v.size + length else v.size + length - TWO64;
    if post < 0 || post > |data| {
      return Err(Truncated);
    }
    assert data[i..][v.size - i..post - i] == data[v.size..post];
    return Ok((data[v.size..post], post - i));
  }

  /** The `switch` on the field number; an unknown number is left to the skipper. */
  method FieldLoop(m: Web3Tx, field: int, wireType: nat, data: bytes, i: nat) returns (r: Step<Web3Tx>)
    requires i <= |data| && Addressable(data)
    ensures r == Web3Step(m, field, wireType, data[i..])
  {
    hide ReadVarint, ReadBlob, Addressable;
    if field == 1 {
      if wireType != 0 {
        return Fail(WrongWireType);
      }
      var v := ReadUint64(data, i);
      if v.Bad? {
        return Fail(v.error);
      }
      return Known(m.(typedDataChainID := v.value), v.size - i);
    } else if field == 2 || field == 3 {
      if wireType != 2 {
        return Fail(WrongWireType);
      }
      var b := BlobLoop(data, i);
      if b.Err? {
        return Fail(b.error);
      }
      var (blob, n) := b.value;
      return Known(if field == 2 then m.(feePayer := blob) else m.(feePayerSig := blob), n);
    } else {
      return Unknown;
    }
  }

  /** The tag loop of `Unmarshal`. */
  method Unmarshal(m0: Web3Tx, data: bytes) returns (r: Result<Web3Tx>)
    requires Addressable(data)
    ensures r == Decode(Web3Step, m0, data)
  {
    hide *;
    var m, i := m0, 0;
    assert data[0..] == data;
    Web3StepStable();
    while i < |data|
      invariant 0 <= i <= |data|
      invariant Decode(Web3Step, m0, data) == Decode(Web3Step, m, data[i..])
      decreases |data| - i
    {
      var tag := ReadTagLoop(data, i);
      DecodeRound(Web3Step, m, data, i);
      if tag.Err? {
        return Err(tag.error);
      }
      var Tag(field, wireType, size) := tag.value;
      var step := FieldLoop(m, field, wireType, data, i + size);
      match step
      case Fail(e) =>
        return Err(e);
      case Known(m', used) =>
        m, i := m', i + size + used;
      case Unknown =>
        AddressableSuffix(data, i);
        var skipped := SkipLoop(data[i..]);
        if skipped.Err? {
          return Err(skipped.error);
        }
        if i + skipped.value > |data| {
          return Err(Truncated);
        }
        i := i + skipped.value;
    }
    assert data[i..] == [];
    DecodeNothing(Web3Step, m);
    return Ok(m);
  }
}
