/**
 The protobuf wire format shared by the generated codecs: base-128 varints, field tags,
 the skipping of unknown fields and the tag loop of a message decoder.

 The functions are the specification, on byte sequences; the methods are the index-driven
 loops of the generated code, proved against them.
 */
module Wire {
  import opened Arith

  /** Lengths a 64-bit platform can index. */
  predicate Addressable(s: bytes) {
    |s| < TWO63
  }

  /** `Truncated` stands for both "unexpected EOF" and "negative length". */
  datatype Error = IntOverflow | Truncated | EndGroup | IllegalTag | WrongWireType | IllegalWireType

  datatype Result<+T> = Ok(value: T) | Err(error: Error)

  // ---------------------------------------------------------------- varints

  /** The base-128 encoding: seven bits a byte, least significant group first. */
  function Varint(v: nat): (s: bytes)
    ensures |s| > 0
  {
    if v < 128 then [v] else [v % 128 + 128] + Varint(v / 128)
  }

  /** Number of significant bits, as `bits.Len64`. */
  function BitLen(x: nat): nat {
    if x == 0 then 0 else 1 + BitLen(x / 2)
  }

  /** `sov`: the closed form the generated code uses for the length of a varint. */
  function Sov(v: nat): nat {
    (BitLen(Or(v, 1)) + 6) / 7
  }

  lemma {:induction false} BitLenOrOne(x: nat)
    ensures BitLen(Or(x, 1)) == if x == 0 then 1 else BitLen(x)
  {
    if x > 0 {
      assert Or(x, 1) == 2 * (x / 2) + 1;
    }
  }

  lemma {:induction false} BitLenShift(v: nat)
    requires v >= 128
    ensures BitLen(v) == 7 + BitLen(v / 128)
  {
    var a := v / 2;
    var b := a / 2;
    var c := b / 2;
    var d := c / 2;
    var e := d / 2;
    var f := e / 2;
    assert v / 128 == f / 2;
    assert BitLen(v) == 1 + BitLen(a) == 2 + BitLen(b) == 3 + BitLen(c);
    assert BitLen(c) == 1 + BitLen(d) == 2 + BitLen(e) == 3 + BitLen(f) == 4 + BitLen(f / 2);
  }

  lemma {:induction false} BitLenSmall(v: nat, k: nat)
    requires v < Pow2(k)
    ensures BitLen(v) <= k
  {
    if v > 0 {
      BitLenSmall(v / 2, k - 1);
    }
  }

  /** The closed form is exact: it counts the bytes the varint loop writes. */
  lemma {:induction false} SovExact(v: nat)
    ensures Sov(v) == |Varint(v)|
  {
    BitLenOrOne(v);
    if v < 128 {
      Pow2Values();
      BitLenSmall(v, 7);
      assert v > 0 ==> BitLen(v) >= 1;
    } else {
      BitLenShift(v);
      BitLenOrOne(v / 128);
      SovExact(v / 128);
    }
  }

  lemma {:induction false} VarintBound(v: nat, k: nat)
    requires v < Pow2(7 * k) && k > 0
    ensures |Varint(v)| <= k
  {
    if v >= 128 {
      Pow2Values();
      if k == 1 {
        assert false;
      }
      Pow2Add(7, 7 * (k - 1));
      VarintBound(v / 128, k - 1);
    }
  }

  datatype Read = Got(value: nat, size: nat) | Bad(error: Error)

  /** Reads a varint; k bytes of it are already consumed, and the eleventh is an overflow. */
  function ReadVarint(s: bytes, k: nat): (r: Read)
    requires k <= 10
    ensures r.Got? ==> 0 < r.size <= |s| && r.size + k <= 10
    decreases 10 - k
  {
    if k == 10 then Bad(IntOverflow)
    else if s == [] then Bad(Truncated)
    else if s[0] < 128 then Got(s[0], 1)
    else
      match ReadVarint(s[1..], k + 1)
      case Got(v, n) => Got(s[0] - 128 + 128 * v, n + 1)
      case Bad(e) => Bad(e)
  }

  /** Reading undoes writing, whatever follows. */
  lemma {:induction false} ReadWritten(v: nat, rest: bytes, k: nat)
    requires |Varint(v)| + k <= 10
    ensures ReadVarint(Varint(v) + rest, k) == Got(v, |Varint(v)|)
  {
    var s := Varint(v) + rest;
    if v >= 128 {
      assert s[1..] == Varint(v / 128) + rest;
      ReadWritten(v / 128, rest, k + 1);
    }
  }

  lemma {:induction false} ReadWritten64(v: uint64, rest: bytes)
    ensures ReadVarint(Varint(v) + rest, 0) == Got(v, |Varint(v)|)
  {
    Pow2Values();
    Pow2Add(64, 6);
    VarintBound(v, 10);
    ReadWritten(v, rest, 0);
  }

  /** A varint that was read stays what it is when more bytes follow. */
  lemma {:induction false} ReadPrefix(s: bytes, t: bytes, k: nat)
    requires k <= 10
    ensures ReadVarint(s, k).Got? ==> ReadVarint(s + t, k) == ReadVarint(s, k)
    decreases 10 - k
  {
    if k < 10 && s != [] && s[0] >= 128 {
      assert (s + t)[1..] == s[1..] + t;
      ReadPrefix(s[1..], t, k + 1);
    }
  }

  /** Puts the k groups of `low` in front of a varint read after them. */
  function Prepend(low: nat, k: nat, r: Read): Read {
    match r
    case Got(v, n) => Got(low + v * Pow2(7 * k), n + k)
    case Bad(e) => Bad(e)
  }

  lemma {:induction false} PrependNothing(r: Read, w: nat)
    ensures Prepend(0, 0, r) == r && Pow2(0) == 1 && Truncate(0, w) == 0
  {}

  lemma {:induction false} ReadEnds(low: nat, s: bytes, k: nat)
    requires k == 10 || (k < 10 && s == [])
    ensures Prepend(low, k, ReadVarint(s, k)) == Bad(if k == 10 then IntOverflow else Truncated)
  {}

  lemma {:induction false} GroupProduct(c: nat, v: nat, k: nat)
    ensures c * Pow2(7 * k) + v * Pow2(7 * (k + 1)) == (c + 128 * v) * Pow2(7 * k)
  {
    hide Pow2;
    Pow2Values();
    Pow2Add(7, 7 * k);
    Associate(v, 128, Pow2(7 * k));
    Distribute(c, v * 128, Pow2(7 * k));
  }

  lemma {:induction false} PrependGroup(low: nat, k: nat, s: bytes)
    requires k < 10 && s != [] && s[0] >= 128
    ensures Prepend(low, k, ReadVarint(s, k))
         == Prepend(low + s[0] % 128 * Pow2(7 * k), k + 1, ReadVarint(s[1..], k + 1))
  {
    hide Pow2;
    var r := ReadVarint(s[1..], k + 1);
    if r.Got? {
      GroupProduct(s[0] % 128, r.value, k);
    }
  }

  /** `low` with a further seven-bit group on top of its k groups. */
  ghost function WithGroup(low: nat, k: nat, c: nat): nat {
    low + c * Pow2(7 * k)
  }

  /** One round of the varint loop: what the register holds and what is left to read. */
  lemma {:induction false} GroupRead(s: bytes, k: nat, low: nat, w: nat)
    requires k < 10 && s != [] && low < Pow2(7 * k)
    ensures Or(Truncate(low, w), ShiftLeft(s[0] % 128, 7 * k, w)) == Truncate(WithGroup(low, k, s[0] % 128), w)
    ensures WithGroup(low, k, s[0] % 128) < Pow2(7 * (k + 1))
    ensures Prepend(low, k, ReadVarint(s, k)) ==
            if s[0] < 128 then Got(WithGroup(low, k, s[0] % 128), k + 1)
            else Prepend(WithGroup(low, k, s[0] % 128), k + 1, ReadVarint(s[1..], k + 1))
  {
    OrTruncated(low, s[0] % 128, 7 * k, w);
    GroupsBound(low, s[0] % 128, k);
    if s[0] >= 128 {
      PrependGroup(low, k, s);
    }
  }

  /** The varint loop of the decoders: groups are OR-ed into a w-bit register. */
  method ReadVarintLoop(data: bytes, start: nat, w: nat) returns (r: Read)
    requires start <= |data|
    ensures match ReadVarint(data[start..], 0)
            case Got(v, n) => r == Got(Truncate(v, w), start + n)
            case Bad(e) => r == Bad(e)
  {
    hide *;
    PrependNothing(ReadVarint(data[start..], 0), w);
    var i, shift, acc := start, 0, 0;
    ghost var k, low := 0, 0;
    while true
      invariant start <= i <= |data| && k <= 10 && shift == 7 * k && i == start + k
      invariant 0 <= low < Pow2(shift) && acc == Truncate(low, w)
      invariant ReadVarint(data[start..], 0) == Prepend(low, k, ReadVarint(data[i..], k))
      decreases 10 - k
    {
      if shift >= 64 {
        ReadEnds(low, data[i..], k);
        return Bad(IntOverflow);
      }
      if i >= |data| {
        ReadEnds(low, data[i..], k);
        return Bad(Truncated);
      }
      var b := data[i];
      GroupRead(data[i..], k, low, w);
      assert data[i..][1..] == data[i + 1..];
      acc := Or(acc, ShiftLeft(b % 128, shift, w));
      i := i + 1;
      if b < 0x80 {
        return Got(acc, i);
      }
      low, k, shift := WithGroup(low, k, b % 128), k + 1, shift + 7;
    }
  }

  lemma {:induction false} GroupsBound(low: nat, c: nat, k: nat)
    requires low < Pow2(7 * k) && c < 128
    ensures low + c * Pow2(7 * k) < Pow2(7 * (k + 1))
  {
    Pow2Values();
    Pow2Add(7 * k, 7);
    var p := Pow2(7 * k);
    Distribute(c, 128 - c, p);
    MulAtLeast(128 - c, p);
  }

  /** The byte `v&0x7f | 0x80`. */
  function LowGroup(v: nat): (b: byte) {
    v % 128 + 128
  }

  /** `v >> 7` */
  function HighGroups(v: nat): (h: nat)
    ensures v >= 128 ==> h < v
  {
    v / 128
  }

  /** Moves one group of a varint to the part already written. */
  lemma {:induction false} VarintGroup(done: bytes, w: nat)
    ensures w >= 128 ==> done + Varint(w) == done + [LowGroup(w)] + Varint(HighGroups(w))
    ensures w < 128 ==> Varint(w) == [w]
  {}

  /** Writes v so that it ends just before `offset`, in a buffer filled from its end. */
  method EncodeVarint(buf: array<byte>, offset: nat, v: nat) returns (base: nat)
    requires Sov(v) <= offset <= buf.Length
    modifies buf
    ensures base + |Varint(v)| == offset
    ensures buf[base..offset] == Varint(v)
    ensures forall j | 0 <= j < base || offset <= j < buf.Length :: buf[j] == old(buf[j])
  {
    hide *;
    SovExact(v);
    base := offset - Sov(v);
    var o, w: nat := base, v;
    ghost var done: bytes := [];
    while w >= 0x80
      invariant o == base + |done| && done + Varint(w) == Varint(v)
      invariant forall j | 0 <= j < |done| :: buf[base + j] == done[j]
      invariant forall j | 0 <= j < base || offset <= j < buf.Length :: buf[j] == old(buf[j])
      decreases w
    {
      VarintGroup(done, w);
      done := done + [LowGroup(w)];
      buf[o] := LowGroup(w);
      w := HighGroups(w);
      o := o + 1;
    }
    VarintGroup(done, w);
    buf[o] := w;
    assert buf[base..offset] == done + Varint(w);
  }

  /** Writes a tag and a varint in front of index i. */
  method PutField(buf: array<byte>, i: nat, tag: byte, v: nat) returns (next: nat)
    requires |Varint(v)| + 1 <= i <= buf.Length
    modifies buf
    ensures next + 1 + |Varint(v)| == i
    ensures buf[next..] == [tag] + Varint(v) + old(buf[i..])
    ensures buf[..next] == old(buf[..next])
  {
    hide *;
    SovExact(v);
    var base := EncodeVarint(buf, i, v);
    next := base - 1;
    buf[next] := tag;
    assert buf[next..] == [tag] + buf[base..i] + buf[i..];
  }

  // ---------------------------------------------------------------- skipping unknown fields

  datatype Kind = Leaf | Open | Close

  /** One tag with the payload that belongs to it; a group's tags are pieces of their own. */
  datatype Piece = Piece(size: nat, kind: Kind)

  function ReadPiece(s: bytes): (r: Result<Piece>)
    ensures r.Ok? ==> 0 < r.value.size <= |s|
  {
    match ReadVarint(s, 0)
    case Bad(e) => Err(e)
    case Got(tag, n) =>
      match Payload(tag % 8, s[n..])
      case Err(e) => Err(e)
      case Ok(k) => Ok(Piece(n + k, KindOf(tag % 8)))
  }

  function KindOf(wireType: nat): Kind {
    if wireType == 3 then Open else if wireType == 4 then Close else Leaf
  }

  /** Bytes of payload after a tag of the given wire type. */
  function Payload(wireType: nat, s: bytes): (r: Result<nat>)
    ensures r.Ok? ==> r.value <= |s|
  {
    match wireType
    case 0 => (
      match ReadVarint(s, 0)
      case Bad(e) => Err(e)
      case Got(_, k) => Ok(k))
    case 1 => Fitting(8, s)
    case 2 => (
      match ReadVarint(s, 0)
      case Bad(e) => Err(e)
      case Got(v, k) => if v % TWO64 >= TWO63 then Err(Truncated) else Fitting(k + v % TWO64, s))
    case 3 => Ok(0)
    case 4 => Ok(0)
    case 5 => Fitting(4, s)
    case _ => Err(IllegalWireType)
  }

  function Fitting(n: nat, s: bytes): Result<nat> {
    if n <= |s| then Ok(n) else Err(Truncated)
  }

  /** The open groups after a piece. */
  function Deeper(kind: Kind, depth: nat): nat {
    match kind
    case Leaf => depth
    case Open => depth + 1
    case Close => if depth == 0 then 0 else depth - 1
  }

  /** Bytes up to the end of the field that starts here, inside `depth` open groups. */
  function Skip(s: bytes, depth: nat): (r: Result<nat>)
    ensures r.Ok? ==> 0 < r.value <= |s|
    decreases |s|
  {
    match ReadPiece(s)
    case Err(e) => Err(e)
    case Ok(p) =>
      if p.kind == Close && depth == 0 then Err(EndGroup)
      else if Deeper(p.kind, depth) == 0 then Ok(p.size)
      else Further(p.size, Skip(s[p.size..], Deeper(p.kind, depth)))
  }

  function Further(n: nat, r: Result<nat>): Result<nat> {
    match r
    case Ok(k) => Ok(n + k)
    case Err(e) => Err(e)
  }

  lemma {:induction false} PayloadPrefix(wireType: nat, s: bytes, t: bytes)
    requires Payload(wireType, s).Ok?
    ensures Payload(wireType, s + t) == Payload(wireType, s)
  {
    hide ReadVarint;
    ReadPrefix(s, t, 0);
  }

  lemma {:induction false} PiecePrefix(s: bytes, t: bytes)
    requires ReadPiece(s).Ok?
    ensures ReadPiece(s + t) == ReadPiece(s)
  {
    hide ReadVarint, Payload;
    ReadPrefix(s, t, 0);
    var Got(tag, n) := ReadVarint(s, 0);
    assert (s + t)[n..] == s[n..] + t;
    PayloadPrefix(tag % 8, s[n..], t);
  }

  lemma {:induction false} SkipPrefix(s: bytes, t: bytes, depth: nat)
    requires Skip(s, depth).Ok?
    ensures Skip(s + t, depth) == Skip(s, depth)
    decreases |s|
  {
    hide ReadPiece;
    var p := ReadPiece(s).value;
    var d := Deeper(p.kind, depth);
    PiecePrefix(s, t);
    if d > 0 {
      assert (s + t)[p.size..] == s[p.size..] + t;
      SkipPrefix(s[p.size..], t, d);
    }
  }

  /** The 64-bit instance of the varint loop. */
  method ReadUint64(data: bytes, start: nat) returns (r: Read)
    requires start <= |data|
    ensures match ReadVarint(data[start..], 0)
            case Got(v, n) => r == Got(v % TWO64, start + n)
            case Bad(e) => r == Bad(e)
  {
    Pow2Values();
    r := ReadVarintLoop(data, start, 64);
  }

  /** Moves an index past a payload; a length may carry it past 2^63, where it turns negative. */
  method PayloadLoop(data: bytes, from: nat, wireType: nat) returns (r: Result<int>)
    requires from <= |data| && Addressable(data)
    ensures match Payload(wireType, data[from..])
            case Ok(k) => r == Ok(from + k)
            case Err(e) => r == Err(e) || (e == Truncated && r.Ok? && !(0 <= r.value <= |data|))
  {
    if wireType == 0 {
      var v := ReadUint64(data, from);
      return if v.Bad? then Err(v.error) else Ok(v.size);
    } else if wireType == 1 {
      return Ok(from + 8);
    } else if wireType == 2 {
      var v := ReadUint64(data, from);
      if v.Bad? {
        return Err(v.error);
      }
      var i, length := v.size, ToInt64(v.value);
      if length < 0 {
        return Err(Truncated);
      }
      return Ok(if i + length < TWO63 then i + length else i + length - TWO64);
    } else if wireType == 3 || wireType == 4 {
      return Ok(from);
    } else if wireType == 5 {
      return Ok(from + 4);
    } else {
      return Err(IllegalWireType);
    }
  }

  /** One round of the skip loop, from a tag to the end of its payload. */
  method PieceLoop(data: bytes, from: nat) returns (r: Result<(int, Kind)>)
    requires from <= |data| && Addressable(data)
    ensures match ReadPiece(data[from..])
            case Ok(p) => r == Ok((from + p.size, p.kind))
            case Err(e) => r == Err(e) ||
                           (e == Truncated && r.Ok? && r.value.1 == Leaf && !(0 <= r.value.0 <= |data|))
  {
    var tag := ReadUint64(data, from);
    if tag.Bad? {
      return Err(tag.error);
    }
    assert data[from..][tag.size - from..] == data[tag.size..];
    TagLow(ReadVarint(data[from..], 0).value);
    var wireType := tag.value % 8;
    var next := PayloadLoop(data, tag.size, wireType);
    if next.Err? {
      return Err(next.error);
    }
    return Ok((next.value, KindOf(wireType)));
  }

  /** The skip loop of the decoders; it may report an end beyond the data, which its caller rejects. */
  method SkipLoop(data: bytes) returns (r: Result<nat>)
    requires Addressable(data)
    ensures match Skip(data, 0)
            case Ok(n) => r == Ok(n)
            case Err(e) => r == Err(e) || (e == Truncated && r.Ok? && r.value > |data|)
  {
    hide ReadPiece, Skip;
    var i, depth := 0, 0;
    while i < |data|
      invariant 0 <= i && 0 <= depth && (i == 0 <==> depth == 0)
      invariant i <= |data| ==> Skip(data, 0) == Further(i, Skip(data[i..], depth))
      invariant i > |data| ==> Skip(data, 0) == Err(Truncated)
      decreases |data| - i
    {
      var piece := PieceLoop(data, i);
      SkipRound(data, i, depth, ReadPiece(data[i..]));
      if piece.Err? {
        return Err(piece.error);
      }
      var (next, kind) := piece.value;
      i := next;
      if kind == Open {
        depth := depth + 1;
      } else if kind == Close {
        if depth == 0 {
          return Err(EndGroup);
        }
        depth := depth - 1;
      }
      if i < 0 {
        return Err(Truncated);
      }
      if depth == 0 {
        return Ok(i);
      }
    }
    SkipNothing(depth);
    assert i == |data| ==> data[i..] == [];
    return Err(Truncated);
  }

  lemma AddressableSuffix(s: bytes, i: nat)
    requires i <= |s| && Addressable(s)
    ensures Addressable(s[i..])
  {}

  lemma {:induction false} SkipNothing(depth: nat)
    ensures Skip([], depth) == Err(Truncated)
  {}

  lemma {:induction false} SkipRound(s: bytes, i: nat, depth: nat, r: Result<Piece>)
    requires i <= |s| && r == ReadPiece(s[i..])
    ensures r.Err? ==> Skip(s[i..], depth) == Err(r.error)
    ensures r.Ok? ==>
              Further(i, Skip(s[i..], depth)) ==
              if r.value.kind == Close && depth == 0 then Err(EndGroup)
              else if Deeper(r.value.kind, depth) == 0 then Ok(i + r.value.size)
              else Further(i + r.value.size, Skip(s[i + r.value.size..], Deeper(r.value.kind, depth)))
  {
    hide ReadPiece;
    if r.Ok? {
      assert s[i..][r.value.size..] == s[i + r.value.size..];
    }
  }

  lemma {:induction false} TagLow(v: nat)
    ensures v % TWO64 % 8 == v % 8
  {
    ModMod(v, 8, TWO64 / 8, TWO64, v % TWO64);
  }
}
