/**
 The grammar of a field a decoder does not know, with nested groups, and the proof that the
 skipper accepts exactly the bytes of that grammar.
 */
module UnknownFields {
  import opened Arith
  import opened Wire

  /** Raw fields: every varint keeps the bytes it was written with, minimal or not. */
  datatype Field =
    | Scalar(tag: bytes, value: bytes)
    | Fixed64(tag: bytes, payload: bytes)
    | Delimited(tag: bytes, length: bytes, payload: bytes)
    | Group(open: bytes, items: seq<Field>, close: bytes)
    | Fixed32(tag: bytes, payload: bytes)

  /** One to ten bytes, with the continuation bit on all but the last. */
  ghost predicate IsVarint(s: bytes) {
    && 0 < |s| <= 10
    && s[|s| - 1] < 128
    && forall i | 0 <= i < |s| - 1 :: s[i] >= 128
  }

  function Value(s: bytes): nat {
    if s == [] then 0 else s[0] % 128 + 128 * Value(s[1..])
  }

  ghost predicate IsTag(s: bytes, wireType: nat) {
    IsVarint(s) && Value(s) % 8 == wireType
  }

  /**
   What the skipper takes for a field. Field numbers play no part in it; `EncodingGuide` says which
   of these are fields of the encoding guide.
   */
  ghost predicate WellFormed(f: Field) {
    match f
    case Scalar(tag, value) => IsTag(tag, 0) && IsVarint(value)
    case Fixed64(tag, payload) => IsTag(tag, 1) && |payload| == 8
    case Delimited(tag, length, payload) =>
      IsTag(tag, 2) && IsVarint(length) && |payload| == Value(length) % TWO64 < TWO63
    case Group(open, items, close) =>
      IsTag(open, 3) && IsTag(close, 4) && forall i | i in items :: WellFormed(i)
    case Fixed32(tag, payload) => IsTag(tag, 5) && |payload| == 4
  }

  function Encode(f: Field): bytes {
    match f
    case Scalar(tag, value) => tag + value
    case Fixed64(tag, payload) => tag + payload
    case Delimited(tag, length, payload) => tag + length + payload
    case Group(open, items, close) => open + EncodeAll(items) + close
    case Fixed32(tag, payload) => tag + payload
  }

  function EncodeAll(items: seq<Field>): bytes {
    if items == [] then [] else Encode(items[0]) + EncodeAll(items[1..])
  }

  // ---------------------------------------------------------------- varints

  lemma {:induction false} ReadIsVarint(s: bytes, rest: bytes, k: nat)
    requires 0 < |s| && |s| + k <= 10 && s[|s| - 1] < 128
    requires forall i | 0 <= i < |s| - 1 :: s[i] >= 128
    ensures ReadVarint(s + rest, k) == Got(Value(s), |s|)
    decreases |s|
  {
    var t := s + rest;
    if |s| == 1 {
      assert Value(s[1..]) == 0;
      assert t[0] == s[0] < 128;
    } else {
      assert t[0] == s[0] >= 128;
      assert t[1..] == s[1..] + rest;
      ReadIsVarint(s[1..], rest, k + 1);
    }
  }

  lemma {:induction false} VarintCons(b: byte, v: bytes)
    requires b >= 128 && IsVarint(v) && |v| < 10
    ensures IsVarint([b] + v) && Value([b] + v) == b - 128 + 128 * Value(v)
  {
    assert ([b] + v)[1..] == v;
    assert forall i | 0 < i < |v| + 1 :: ([b] + v)[i] == v[i - 1];
  }

  lemma {:induction false} ReadGivesVarint(s: bytes, k: nat)
    requires k <= 10 && ReadVarint(s, k).Got?
    ensures IsVarint(s[..ReadVarint(s, k).size])
    ensures Value(s[..ReadVarint(s, k).size]) == ReadVarint(s, k).value
    decreases 10 - k
  {
    var n := ReadVarint(s, k).size;
    if s[0] >= 128 {
      ReadGivesVarint(s[1..], k + 1);
      VarintCons(s[0], s[1..][..n - 1]);
      assert s[..n] == [s[0]] + s[1..][..n - 1];
    } else {
      assert s[..n] == [s[0]];
      assert [s[0]][1..] == [];
    }
  }

  // ---------------------------------------------------------------- every well-formed field is skipped

  lemma {:induction false} TagThen(tag: bytes, wireType: nat, rest: bytes)
    requires IsTag(tag, wireType)
    ensures ReadPiece(tag + rest) ==
            match Payload(wireType, rest)
            case Err(e) => Err(e)
            case Ok(k) => Ok(Piece(|tag| + k, KindOf(wireType)))
  {
    hide Payload;
    ReadIsVarint(tag, rest, 0);
    assert (tag + rest)[|tag|..] == rest;
  }

  lemma {:induction false} PayloadOfVarint(value: bytes, rest: bytes)
    requires IsVarint(value)
    ensures Payload(0, value + rest) == Ok(|value|)
  {
    hide ReadVarint;
    ReadIsVarint(value, rest, 0);
  }

  lemma {:induction false} PayloadOfLength(length: bytes, payload: bytes, rest: bytes)
    requires IsVarint(length) && |payload| == Value(length) % TWO64 < TWO63
    ensures Payload(2, length + (payload + rest)) == Ok(|length| + |payload|)
  {
    hide ReadVarint;
    ReadIsVarint(length, payload + rest, 0);
  }

  lemma {:induction false} LeafPiece(f: Field, rest: bytes)
    requires WellFormed(f) && !f.Group?
    ensures ReadPiece(Encode(f) + rest) == Ok(Piece(|Encode(f)|, Leaf))
  {
    hide ReadVarint, ReadPiece, IsTag, IsVarint, Value;
    match f
    case Scalar(tag, value) =>
      assert Encode(f) + rest == tag + (value + rest);
      PayloadOfVarint(value, rest);
      TagThen(tag, 0, value + rest);
    case Fixed64(tag, payload) =>
      assert Encode(f) + rest == tag + (payload + rest);
      TagThen(tag, 1, payload + rest);
    case Delimited(tag, length, payload) =>
      assert Encode(f) + rest == tag + (length + (payload + rest));
      PayloadOfLength(length, payload, rest);
      TagThen(tag, 2, length + (payload + rest));
    case Fixed32(tag, payload) =>
      assert Encode(f) + rest == tag + (payload + rest);
      TagThen(tag, 5, payload + rest);
  }

  lemma SkipPiece(s: bytes, depth: nat, p: Piece)
    requires ReadPiece(s) == Ok(p) && (p.kind == Close ==> depth > 0)
    ensures Skip(s, depth) == if Deeper(p.kind, depth) == 0 then Ok(p.size)
                              else Further(p.size, Skip(s[p.size..], Deeper(p.kind, depth)))
  {}

  lemma {:induction false} SkipStarts(s: bytes, depth: nat)
    requires Skip(s, depth).Ok?
    ensures ReadPiece(s).Ok? && (ReadPiece(s).value.kind == Close ==> depth > 0)
  {
    hide ReadPiece;
  }

  /** A well-formed field is skipped whole, at any depth of enclosing groups. */
  lemma {:induction false} SkipField(f: Field, rest: bytes, depth: nat)
    requires WellFormed(f)
    ensures Skip(Encode(f) + rest, depth) ==
            if depth == 0 then Ok(|Encode(f)|) else Further(|Encode(f)|, Skip(rest, depth))
    decreases f, 1
  {
    hide ReadPiece, Skip;
    var s := Encode(f) + rest;
    if f.Group? {
      var body := EncodeAll(f.items);
      var inner := f.close + rest;
      TagThen(f.open, 3, body + inner);
      assert s == f.open + (body + inner);
      SkipPiece(s, depth, Piece(|f.open|, Open));
      assert s[|f.open|..] == body + inner;
      SkipAll(f.items, inner, depth + 1);
      TagThen(f.close, 4, rest);
      SkipPiece(inner, depth + 1, Piece(|f.close|, Close));
      assert inner[|f.close|..] == rest;
    } else {
      LeafPiece(f, rest);
      SkipPiece(s, depth, Piece(|Encode(f)|, Leaf));
      assert s[|Encode(f)|..] == rest;
    }
  }

  lemma {:induction false} SkipAll(items: seq<Field>, rest: bytes, depth: nat)
    requires depth > 0 && forall i | i in items :: WellFormed(i)
    ensures Skip(EncodeAll(items) + rest, depth) == Further(|EncodeAll(items)|, Skip(rest, depth))
    decreases items, 0
  {
    hide Skip, Encode;
    if items == [] {
      assert EncodeAll(items) + rest == rest;
    } else {
      var after := EncodeAll(items[1..]) + rest;
      assert EncodeAll(items) + rest == Encode(items[0]) + after;
      SkipField(items[0], after, depth);
      SkipAll(items[1..], rest, depth);
    }
  }

  // ---------------------------------------------------------------- whatever is skipped is a well-formed field

  lemma {:induction false} ParsePayload(tag: bytes, wireType: nat, rest: bytes) returns (f: Field)
    requires IsTag(tag, wireType) && Payload(wireType, rest).Ok? && KindOf(wireType) == Leaf
    ensures WellFormed(f) && Encode(f) == tag + rest[..Payload(wireType, rest).value]
  {
    hide ReadVarint, IsVarint, Value, IsTag;
    if wireType == 0 {
      ReadGivesVarint(rest, 0);
      f := Scalar(tag, rest[..ReadVarint(rest, 0).size]);
    } else if wireType == 1 {
      f := Fixed64(tag, rest[..8]);
    } else if wireType == 2 {
      ReadGivesVarint(rest, 0);
      var k, size := ReadVarint(rest, 0).size, Payload(wireType, rest).value;
      f := Delimited(tag, rest[..k], rest[k..size]);
      assert rest[..k] + rest[k..size] == rest[..size];
    } else {
      f := Fixed32(tag, rest[..4]);
    }
  }

  lemma {:induction false} ParseLeaf(s: bytes) returns (f: Field)
    requires ReadPiece(s).Ok? && ReadPiece(s).value.kind == Leaf
    ensures WellFormed(f) && Encode(f) == s[..ReadPiece(s).value.size]
  {
    hide ReadVarint, IsVarint, Value, Payload, WellFormed, Encode;
    ReadGivesVarint(s, 0);
    var Got(v, n) := ReadVarint(s, 0);
    var size := ReadPiece(s).value.size;
    f := ParsePayload(s[..n], v % 8, s[n..]);
    assert s[..n] + s[n..][..size - n] == s[..size];
  }

  lemma {:induction false} ParseTag(s: bytes)
    requires ReadPiece(s).Ok? && ReadPiece(s).value.kind != Leaf
    ensures IsTag(s[..ReadPiece(s).value.size], if ReadPiece(s).value.kind == Open then 3 else 4)
  {
    ReadGivesVarint(s, 0);
  }

  /** The items and closing tag of the innermost of `depth` open groups, where skipping first runs to. */
  ghost predicate Innermost(s: bytes, depth: nat, items: seq<Field>, close: bytes) {
    var k := |EncodeAll(items) + close|;
    && depth > 0 && IsTag(close, 4) && (forall i | i in items :: WellFormed(i))
    && k <= |s| && s[..k] == EncodeAll(items) + close
    && Skip(s, depth) == if depth == 1 then Ok(k) else Further(k, Skip(s[k..], depth - 1))
  }

  lemma {:induction false} ParseItems(s: bytes, depth: nat) returns (items: seq<Field>, close: bytes)
    requires depth > 0 && Skip(s, depth).Ok?
    ensures Innermost(s, depth, items, close)
    decreases |s|
  {
    hide Skip, ReadPiece, Encode, EncodeAll, IsTag, WellFormed, Innermost;
    SkipStarts(s, depth);
    var p := ReadPiece(s).value;
    SkipPiece(s, depth, p);
    var rest := s[p.size..];
    match p.kind
    case Close =>
      ParseTag(s);
      items, close := [], s[..p.size];
      NoItem(s, p.size, depth);
    case Leaf =>
      var f := ParseLeaf(s);
      var more;
      more, close := ParseItems(rest, depth);
      items := [f] + more;
      ConsItem(s, p.size, f, depth, more, close);
    case Open =>
      ParseTag(s);
      var inner, end := ParseItems(rest, depth + 1);
      var f, n := GroupItem(s, p.size, depth, inner, end);
      var more;
      more, close := ParseItems(s[n..], depth);
      items := [f] + more;
      ConsItem(s, n, f, depth, more, close);
  }

  lemma SliceJoin(s: bytes, n: nat, k: nat)
    requires n + k <= |s|
    ensures s[..n + k] == s[..n] + s[n..][..k] && s[n..][k..] == s[n + k..]
  {}

  lemma {:induction false} NoItem(s: bytes, n: nat, depth: nat)
    requires depth > 0 && n <= |s| && IsTag(s[..n], 4)
    requires Skip(s, depth) == if depth == 1 then Ok(n) else Further(n, Skip(s[n..], depth - 1))
    ensures Innermost(s, depth, [], s[..n])
  {
    hide Skip, IsTag;
    assert EncodeAll([]) + s[..n] == s[..n];
  }

  lemma {:induction false} ConsItem(s: bytes, n: nat, f: Field, depth: nat, more: seq<Field>, close: bytes)
    requires n <= |s| && WellFormed(f) && Encode(f) == s[..n]
    requires Skip(s, depth) == Further(n, Skip(s[n..], depth))
    requires Innermost(s[n..], depth, more, close)
    ensures Innermost(s, depth, [f] + more, close)
  {
    hide Skip, IsTag, WellFormed, Encode;
    var k := |EncodeAll(more) + close|;
    assert ([f] + more)[1..] == more;
    assert EncodeAll([f] + more) + close == Encode(f) + (EncodeAll(more) + close);
    SliceJoin(s, n, k);
  }

  lemma {:induction false} GroupItem(s: bytes, n: nat, depth: nat, inner: seq<Field>, end: bytes)
    returns (f: Field, next: nat)
    requires n <= |s| && IsTag(s[..n], 3) && Innermost(s[n..], depth + 1, inner, end)
    requires Skip(s, depth) == Further(n, Skip(s[n..], depth + 1))
    ensures n <= next <= |s| && WellFormed(f) && Encode(f) == s[..next]
    ensures Skip(s, depth) == if depth == 0 then Ok(next) else Further(next, Skip(s[next..], depth))
  {
    hide *;
    f := Group(s[..n], inner, end);
    next := GroupEnd(s, n, depth, s[n..], inner, end);
    GroupParts(f);
  }

  lemma {:induction false} GroupEnd(s: bytes, n: nat, depth: nat, rest: bytes, inner: seq<Field>, end: bytes)
    returns (next: nat)
    requires n <= |s| && rest == s[n..] && Innermost(rest, depth + 1, inner, end)
    ensures n <= next <= |s| && s[..next] == s[..n] + (EncodeAll(inner) + end)
    ensures IsTag(end, 4) && forall i | i in inner :: WellFormed(i)
    ensures Further(n, Skip(rest, depth + 1)) ==
            if depth == 0 then Ok(next) else Further(next, Skip(s[next..], depth))
  {
    hide Skip, IsTag, WellFormed, EncodeAll;
    var k := |EncodeAll(inner) + end|;
    SliceJoin(s, n, k);
    next := n + k;
  }

  lemma {:induction false} GroupParts(f: Field)
    requires f.Group?
    ensures Encode(f) == f.open + (EncodeAll(f.items) + f.close)
    ensures IsTag(f.open, 3) && IsTag(f.close, 4) && (forall i | i in f.items :: WellFormed(i)) ==> WellFormed(f)
  {
    hide IsTag, EncodeAll;
  }

  /** The skipper accepts exactly the well-formed fields: what it passes over is one of them, and conversely. */
  lemma {:induction false} SkipIffWellFormed(s: bytes, n: nat)
    ensures Skip(s, 0) == Ok(n) <==> n <= |s| && exists f :: WellFormed(f) && Encode(f) == s[..n]
  {
    if n <= |s| {
      forall f | WellFormed(f) && Encode(f) == s[..n]
        ensures Skip(s, 0) == Ok(n)
      {
        assert s == Encode(f) + s[n..];
        SkipField(f, s[n..], 0);
      }
    }
    if Skip(s, 0) == Ok(n) {
      var f := ParseField(s);
    }
  }

  lemma {:induction false} ParseField(s: bytes) returns (f: Field)
    requires Skip(s, 0).Ok?
    ensures WellFormed(f) && Encode(f) == s[..Skip(s, 0).value]
  {
    hide Skip, ReadPiece;
    SkipStarts(s, 0);
    var p := ReadPiece(s).value;
    SkipPiece(s, 0, p);
    if p.kind == Leaf {
      f := ParseLeaf(s);
    } else {
      ParseTag(s);
      var inner, end := ParseItems(s[p.size..], 1);
      var next;
      f, next := GroupItem(s, p.size, 0, inner, end);
    }
  }
}
