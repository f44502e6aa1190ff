/**
 The decoding loop common to the generated messages: read a tag, hand a known field to the
 message, skip an unknown one. A message is described by its field handler.
 */
module Message {
  import opened Arith
  import opened Wire
  import U = UnknownFields

  /** What a message does with the bytes after a tag. */
  datatype Step<+M> = Unknown | Known(m: M, used: nat) | Fail(error: Error)

  type Handler<!M> = (M, int, nat, bytes) -> Step<M>

  datatype Tag = Tag(field: int, wireType: nat, size: nat)

  /** The field number is truncated to 32 bits, so that huge tags alias small ones. */
  function TagOf(v: nat, size: nat): (r: Result<Tag>)
    ensures r.Ok? ==> r.value.size == size
  {
    var wire := v % TWO64;
    var field, wireType := ToInt32(wire / 8), wire % 8;
    if wireType == 4 then Err(EndGroup)
    else if field <= 0 then Err(IllegalTag)
    else Ok(Tag(field, wireType, size))
  }

  function ReadTag(s: bytes): (r: Result<Tag>)
    ensures r.Ok? ==> 0 < r.value.size <= |s|
  {
    match ReadVarint(s, 0)
    case Bad(e) => Err(e)
    case Got(v, n) => TagOf(v, n)
  }

  /** Merges the encoded fields into m, in order. */
  function Decode<M>(h: Handler<M>, m: M, s: bytes): Result<M>
    decreases |s|
  {
    if s == [] then Ok(m)
    else
      match ReadTag(s)
      case Err(e) => Err(e)
      case Ok(t) =>
        match h(m, t.field, t.wireType, s[t.size..])
        case Fail(e) => Err(e)
        case Known(m', k) =>
          if t.size + k > |s| then Err(Truncated) else Decode(h, m', s[t.size + k..])
        case Unknown =>
          match Skip(s, 0)
          case Err(e) => Err(e)
          case Ok(k) => Decode(h, m, s[k..])
  }

  /** A handler decides by the bytes it uses: more bytes behind them change nothing. */
  ghost predicate Stable<M(!new)>(h: Handler<M>) {
    forall m, f, w, s, t :: StableAt(h, m, f, w, s, t)
  }

  ghost predicate StableAt<M>(h: Handler<M>, m: M, f: int, w: nat, s: bytes, t: bytes) {
    match h(m, f, w, s)
    case Unknown => h(m, f, w, s + t) == Unknown
    case Known(m', k) => k <= |s| && h(m, f, w, s + t) == Known(m', k)
    case Fail(_) => true
  }

  lemma {:induction false} TagPrefix(s: bytes, t: bytes)
    requires ReadTag(s).Ok?
    ensures ReadTag(s + t) == ReadTag(s)
  {
    hide ReadVarint, TagOf;
    ReadPrefix(s, t, 0);
  }

  lemma DecodeNothing<M>(h: Handler<M>, m: M)
    ensures Decode(h, m, []) == Ok(m)
  {}

  lemma {:induction false} DecodeKnown<M>(h: Handler<M>, m: M, s: bytes, t: Tag, m': M, k: nat)
    requires ReadTag(s) == Ok(t) && h(m, t.field, t.wireType, s[t.size..]) == Known(m', k) && t.size + k <= |s|
    ensures Decode(h, m, s) == Decode(h, m', s[t.size + k..])
  {
    hide ReadTag, Skip;
  }

  lemma {:induction false} DecodeUnknown<M>(h: Handler<M>, m: M, s: bytes, t: Tag)
    requires ReadTag(s) == Ok(t) && h(m, t.field, t.wireType, s[t.size..]) == Unknown
    ensures Skip(s, 0).Err? ==> Decode(h, m, s) == Err(Skip(s, 0).error)
    ensures Skip(s, 0).Ok? ==> Decode(h, m, s) == Decode(h, m, s[Skip(s, 0).value..])
  {
    hide ReadTag, Skip;
  }

  /** One round of the tag loop, at index i of the data. */
  lemma {:induction false} DecodeRound<M(!new)>(h: Handler<M>, m: M, data: bytes, i: nat)
    requires Stable(h) && i < |data|
    ensures var s := data[i..];
            match ReadTag(s)
            case Err(e) => Decode(h, m, s) == Err(e)
            case Ok(t) =>
              match h(m, t.field, t.wireType, data[i + t.size..])
              case Fail(e) => Decode(h, m, s) == Err(e)
              case Known(m', k) => i + t.size + k <= |data| && Decode(h, m, s) == Decode(h, m', data[i + t.size + k..])
              case Unknown =>
                match Skip(s, 0)
                case Err(e) => Decode(h, m, s) == Err(e)
                case Ok(k) => Decode(h, m, s) == Decode(h, m, data[i + k..])
  {
    hide ReadTag, Skip;
    var s := data[i..];
    if ReadTag(s).Ok? {
      var t := ReadTag(s).value;
      assert s[t.size..] == data[i + t.size..];
      assert StableAt(h, m, t.field, t.wireType, s[t.size..], []);
      match h(m, t.field, t.wireType, s[t.size..])
      case Fail(_) =>
      case Known(m', k) => assert s[t.size + k..] == data[i + t.size + k..];
      case Unknown =>
        if Skip(s, 0).Ok? {
          assert s[Skip(s, 0).value..] == data[i + Skip(s, 0).value..];
        }
    }
  }

  /** Decoding is a left fold over the input: the bytes after x meet the record x left behind. */
  lemma {:induction false} Compose<M(!new)>(h: Handler<M>, m: M, x: bytes, y: bytes)
    requires Stable(h) && Decode(h, m, x).Ok?
    ensures Decode(h, m, x + y) == Decode(h, Decode(h, m, x).value, y)
    decreases |x|
  {
    if x == [] {
      assert x + y == y;
    } else {
      DecodeHead(h, m, x);
      hide Decode, ReadTag, Skip;
      var t := ReadTag(x).value;
      TagPrefix(x, y);
      assert (x + y)[t.size..] == x[t.size..] + y;
      assert StableAt(h, m, t.field, t.wireType, x[t.size..], y);
      match h(m, t.field, t.wireType, x[t.size..])
      case Known(m', k) =>
        ComposeKnown(h, m, x, y, t, m', k);
        Compose(h, m', x[t.size + k..], y);
      case Unknown =>
        ComposeUnknown(h, m, x, y, t);
        Compose(h, m, x[Skip(x, 0).value..], y);
    }
  }

  lemma {:induction false} DecodeHead<M>(h: Handler<M>, m: M, s: bytes)
    requires s != [] && Decode(h, m, s).Ok?
    ensures ReadTag(s).Ok?
    ensures var t := ReadTag(s).value;
            match h(m, t.field, t.wireType, s[t.size..])
            case Fail(_) => false
            case Known(_, k) => t.size + k <= |s|
            case Unknown => Skip(s, 0).Ok?
  {
    hide ReadTag, Skip;
  }

  lemma {:induction false} ComposeUnknown<M>(h: Handler<M>, m: M, x: bytes, y: bytes, t: Tag)
    requires ReadTag(x) == Ok(t) && ReadTag(x + y) == Ok(t) && Skip(x, 0).Ok?
    requires h(m, t.field, t.wireType, x[t.size..]) == Unknown
    requires h(m, t.field, t.wireType, (x + y)[t.size..]) == Unknown
    ensures Decode(h, m, x) == Decode(h, m, x[Skip(x, 0).value..])
    ensures Decode(h, m, x + y) == Decode(h, m, x[Skip(x, 0).value..] + y)
  {
    hide Decode, ReadTag, Skip;
    DecodeUnknown(h, m, x, t);
    DecodeUnknown(h, m, x + y, t);
    SkipPrefix(x, y, 0);
    assert (x + y)[Skip(x, 0).value..] == x[Skip(x, 0).value..] + y;
  }

  lemma {:induction false} ComposeKnown<M>(h: Handler<M>, m: M, x: bytes, y: bytes, t: Tag, m': M, k: nat)
    requires ReadTag(x) == Ok(t) && ReadTag(x + y) == Ok(t) && t.size + k <= |x|
    requires h(m, t.field, t.wireType, x[t.size..]) == Known(m', k)
    requires h(m, t.field, t.wireType, x[t.size..] + y) == Known(m', k)
    ensures Decode(h, m, x) == Decode(h, m', x[t.size + k..])
    ensures Decode(h, m, x + y) == Decode(h, m', x[t.size + k..] + y)
  {
    hide ReadTag;
    DecodeKnown(h, m, x, t, m', k);
    assert (x + y)[t.size..] == x[t.size..] + y;
    assert (x + y)[t.size + k..] == x[t.size + k..] + y;
    DecodeKnown(h, m, x + y, t, m', k);
  }

  /** The number under which a decoder sees a raw field. */
  function Number(f: U.Field): int {
    ToInt32(U.Value(if f.Group? then f.open else f.tag) % TWO64 / 8)
  }

  /** A well-formed field the message does not know, nested groups included, leaves no trace. */
  lemma {:induction false} UnknownIgnored<M(!new)>(h: Handler<M>, m: M, f: U.Field, y: bytes)
    requires U.WellFormed(f) && Number(f) > 0
    requires forall m, w, s :: h(m, Number(f), w, s) == Unknown
    ensures Decode(h, m, U.Encode(f) + y) == Decode(h, m, y)
  {
    hide ReadTag, Skip, U.Encode, U.WellFormed;
    var s := U.Encode(f) + y;
    var t := FieldTag(f, y);
    U.SkipField(f, y, 0);
    DecodeUnknown(h, m, s, t);
    assert s[|U.Encode(f)|..] == y;
  }

  lemma {:induction false} FieldTag(f: U.Field, y: bytes) returns (t: Tag)
    requires U.WellFormed(f) && Number(f) > 0
    ensures ReadTag(U.Encode(f) + y) == Ok(t) && t.field == Number(f)
  {
    hide ReadVarint;
    var tag := if f.Group? then f.open else f.tag;
    var s := U.Encode(f) + y;
    assert s == tag + s[|tag|..];
    U.ReadIsVarint(tag, s[|tag|..], 0);
    TagLow(U.Value(tag));
    t := Tag(Number(f), U.Value(tag) % TWO64 % 8, |tag|);
  }

  /** The same at any field boundary: inserting an unknown field into an encoding changes nothing. */
  lemma {:induction false} UnknownInserted<M(!new)>(h: Handler<M>, m: M, x: bytes, f: U.Field, y: bytes)
    requires Stable(h) && Decode(h, m, x).Ok? && U.WellFormed(f) && Number(f) > 0
    requires forall m, w, s :: h(m, Number(f), w, s) == Unknown
    ensures Decode(h, m, x + (U.Encode(f) + y)) == Decode(h, m, x + y)
  {
    hide Decode, U.WellFormed, U.Encode, Number;
    Compose(h, m, x, U.Encode(f) + y);
    Compose(h, m, x, y);
    UnknownIgnored(h, Decode(h, m, x).value, f, y);
  }

  /** Reads a tag at index i. */
  method ReadTagLoop(data: bytes, i: nat) returns (r: Result<Tag>)
    requires i <= |data|
    ensures r == ReadTag(data[i..])
  {
    hide ReadVarint, ToInt32;
    var wire := ReadUint64(data, i);
    if wire.Bad? {
      return Err(wire.error);
    }
    TagTruncated(ReadVarint(data[i..], 0).value, wire.size - i);
    var fieldNum, wireType := ToInt32(wire.value / 8), wire.value % 8;
    if wireType == 4 {
      return Err(EndGroup);
    }
    if fieldNum <= 0 {
      return Err(IllegalTag);
    }
    return Ok(Tag(fieldNum, wireType, wire.size - i));
  }

  lemma TagTruncated(v: nat, n: nat)
    ensures TagOf(v % TWO64, n) == TagOf(v, n)
  {}
}
