/**
 The fields of the Protocol Buffers encoding guide among the inputs the skipper accepts: every
 accepted input has one parse, and the skipper checks all of the guide but its field numbers.
 */
module EncodingGuide {
  import opened Arith
  import opened Wire
  import opened UnknownFields

  // ---------------------------------------------------------------- one parse

  /** A varint ends where its bytes say. */
  lemma {:induction false} VarintSplit(a: bytes, u: bytes, b: bytes, v: bytes)
    requires IsVarint(a) && IsVarint(b) && a + u == b + v
    ensures a == b && u == v
  {
    hide ReadVarint, Value;
    ReadIsVarint(a, u, 0);
    ReadIsVarint(b, v, 0);
    assert (a + u)[..|a|] == a && (b + v)[..|b|] == b;
    assert (a + u)[|a|..] == u && (b + v)[|b|..] == v;
  }

  lemma SameLengthSplit(a: bytes, u: bytes, b: bytes, v: bytes)
    requires |a| == |b| && a + u == b + v
    ensures a == b && u == v
  {
    assert (a + u)[..|a|] == a && (b + v)[..|b|] == b;
    assert (a + u)[|a|..] == u && (b + v)[|b|..] == v;
  }

  /** The tag a field begins with. */
  function TagOf(f: Field): bytes {
    if f.Group? then f.open else f.tag
  }

  function WireType(f: Field): nat {
    match f
    case Scalar(_, _) => 0
    case Fixed64(_, _) => 1
    case Delimited(_, _, _) => 2
    case Group(_, _, _) => 3
    case Fixed32(_, _) => 5
  }

  /** What follows the tag. */
  function BodyOf(f: Field): bytes {
    match f
    case Scalar(_, value) => value
    case Fixed64(_, payload) => payload
    case Delimited(_, length, payload) => length + payload
    case Group(_, items, close) => EncodeAll(items) + close
    case Fixed32(_, payload) => payload
  }

  lemma {:induction false} TagAndBody(f: Field, x: bytes)
    requires WellFormed(f)
    ensures IsTag(TagOf(f), WireType(f)) && Encode(f) + x == TagOf(f) + (BodyOf(f) + x)
  {
    hide IsTag, EncodeAll, IsVarint, Value;
    assert Encode(f) == TagOf(f) + BodyOf(f);
  }

  /** Fields that begin the same bytes have the same tag, hence the same wire type. */
  lemma {:induction false} SameTag(f: Field, x: bytes, g: Field, y: bytes)
    requires WellFormed(f) && WellFormed(g) && Encode(f) + x == Encode(g) + y
    ensures TagOf(f) == TagOf(g) && WireType(f) == WireType(g) && BodyOf(f) + x == BodyOf(g) + y
  {
    hide WellFormed, Encode, BodyOf, Value, IsVarint, TagOf, WireType;
    TagAndBody(f, x);
    TagAndBody(g, y);
    VarintSplit(TagOf(f), BodyOf(f) + x, TagOf(g), BodyOf(g) + y);
  }

  lemma {:induction false} SameBlob(f: Field, x: bytes, g: Field, y: bytes)
    requires f.Delimited? && g.Delimited? && WellFormed(f) && WellFormed(g) && BodyOf(f) + x == BodyOf(g) + y
    ensures f.length == g.length && f.payload == g.payload && x == y
  {
    hide IsTag, IsVarint, Value;
    assert BodyOf(f) + x == f.length + (f.payload + x);
    assert BodyOf(g) + y == g.length + (g.payload + y);
    VarintSplit(f.length, f.payload + x, g.length, g.payload + y);
    SameLengthSplit(f.payload, x, g.payload, y);
  }

  lemma {:induction false} SameLeaf(f: Field, x: bytes, g: Field, y: bytes)
    requires WellFormed(f) && WellFormed(g) && WireType(f) == WireType(g) != 3
    requires TagOf(f) == TagOf(g) && BodyOf(f) + x == BodyOf(g) + y
    ensures f == g && x == y
  {
    hide IsTag, IsVarint, Value;
    if f.Scalar? {
      VarintSplit(f.value, x, g.value, y);
    } else if f.Delimited? {
      SameBlob(f, x, g, y);
    } else {
      SameLengthSplit(f.payload, x, g.payload, y);
    }
  }

  /** The bytes determine the field, nested groups included, and where it ends. */
  lemma {:induction false} Unambiguous(f: Field, x: bytes, g: Field, y: bytes)
    requires WellFormed(f) && WellFormed(g) && Encode(f) + x == Encode(g) + y
    ensures f == g && x == y
    decreases f, 1
  {
    hide Encode, EncodeAll, IsTag;
    SameTag(f, x, g, y);
    if f.Group? {
      assert BodyOf(f) + x == EncodeAll(f.items) + (f.close + x);
      assert BodyOf(g) + y == EncodeAll(g.items) + (g.close + y);
      UnambiguousItems(f.items, f.close, x, g.items, g.close, y);
    } else {
      SameLeaf(f, x, g, y);
    }
  }

  lemma {:induction false} UnambiguousItems(fs: seq<Field>, c: bytes, x: bytes, gs: seq<Field>, d: bytes, y: bytes)
    requires (forall f | f in fs :: WellFormed(f)) && (forall g | g in gs :: WellFormed(g))
    requires IsTag(c, 4) && IsTag(d, 4) && EncodeAll(fs) + (c + x) == EncodeAll(gs) + (d + y)
    ensures fs == gs && c == d && x == y
    decreases fs, 0
  {
    hide WellFormed, Encode, Value, IsVarint;
    if fs == [] && gs == [] {
      assert EncodeAll(fs) + (c + x) == c + x && EncodeAll(gs) + (d + y) == d + y;
      VarintSplit(c, x, d, y);
    } else if fs == [] {
      assert EncodeAll(fs) + (c + x) == c + x;
      NotClosed(gs, d + y, c, x);
    } else if gs == [] {
      assert EncodeAll(gs) + (d + y) == d + y;
      NotClosed(fs, c + x, d, y);
    } else {
      var u, v := EncodeAll(fs[1..]) + (c + x), EncodeAll(gs[1..]) + (d + y);
      assert EncodeAll(fs) + (c + x) == Encode(fs[0]) + u && EncodeAll(gs) + (d + y) == Encode(gs[0]) + v;
      Unambiguous(fs[0], u, gs[0], v);
      UnambiguousItems(fs[1..], c, x, gs[1..], d, y);
      assert fs == [fs[0]] + fs[1..] && gs == [gs[0]] + gs[1..];
    }
  }

  /** A closing tag is not the beginning of an item. */
  lemma {:induction false} NotClosed(fs: seq<Field>, rest: bytes, close: bytes, x: bytes)
    requires fs != [] && WellFormed(fs[0]) && IsTag(close, 4)
    ensures EncodeAll(fs) + rest != close + x
  {
    hide WellFormed, Encode, Value, IsVarint, TagOf, BodyOf;
    var after := EncodeAll(fs[1..]) + rest;
    assert EncodeAll(fs) + rest == Encode(fs[0]) + after;
    TagAndBody(fs[0], after);
    if EncodeAll(fs) + rest == close + x {
      VarintSplit(TagOf(fs[0]), BodyOf(fs[0]) + after, close, x);
    }
  }

  /** What the skipper passes over is the encoding of one field and of no other. */
  lemma {:induction false} SkippedFieldUnique(s: bytes, f: Field, g: Field)
    requires WellFormed(f) && WellFormed(g) && Encode(f) <= s && Encode(g) <= s
    ensures f == g && Skip(s, 0) == Ok(|Encode(f)|)
  {
    hide WellFormed, Encode, Skip;
    var x, y := s[|Encode(f)|..], s[|Encode(g)|..];
    assert Encode(f) + x == s == Encode(g) + y;
    Unambiguous(f, x, g, y);
    SkipField(f, x, 0);
  }

  // ---------------------------------------------------------------- field numbers

  const MAX_FIELD_NUMBER: nat := 0x1fff_ffff

  /** The number in a tag, whose varint holds 64 bits. */
  function FieldNumber(tag: bytes): nat {
    Value(tag) % TWO64 / 8
  }

  predicate Numbered(tag: bytes) {
    1 <= FieldNumber(tag) <= MAX_FIELD_NUMBER
  }

  /**
   A field of section "Message Structure" of the encoding guide: numbers in their range throughout, and every
   group closed under the number that opened it.
   */
  ghost predicate InGuide(f: Field) {
    && WellFormed(f) && Numbered(TagOf(f))
    && (f.Group? ==> FieldNumber(f.close) == FieldNumber(f.open) && forall i | i in f.items :: InGuide(i))
  }

  /**
   An input the skipper accepts begins with a field of the guide if and only if the one field it
   begins with has its numbers in order.
   */
  lemma {:induction false} AcceptedInGuideIff(s: bytes, f: Field)
    requires WellFormed(f) && Encode(f) <= s
    ensures Skip(s, 0) == Ok(|Encode(f)|)
    ensures (exists g :: InGuide(g) && Encode(g) <= s && Skip(s, 0) == Ok(|Encode(g)|)) <==> InGuide(f)
  {
    hide WellFormed, Encode, Skip, Numbered;
    SkippedFieldUnique(s, f, f);
    if g :| InGuide(g) && Encode(g) <= s && Skip(s, 0) == Ok(|Encode(g)|) {
      SkippedFieldUnique(s, f, g);
    }
  }

  /** Group tags are paired without regard to their field numbers. */
  lemma {:induction false} AnyClosingTag(open: bytes, close: bytes, rest: bytes)
    requires IsTag(open, 3) && IsTag(close, 4)
    ensures Skip(open + close + rest, 0) == Ok(|open| + |close|)
    ensures (exists g :: InGuide(g) && Encode(g) <= open + close + rest) <==>
              1 <= FieldNumber(open) < 0x2000_0000 && FieldNumber(close) == FieldNumber(open)
  {
    hide Skip, IsTag, FieldNumber;
    var f, s := Group(open, [], close), open + close + rest;
    assert Encode(f) == open + close by {
      assert EncodeAll([]) == [] && open + [] == open;
    }
    assert Encode(f) <= s;
    AcceptedInGuideIff(s, f);
    if g :| InGuide(g) && Encode(g) <= s {
      SkippedFieldUnique(s, f, g);
    }
  }

  lemma {:induction false} ByteTag(b: byte)
    requires b < 128
    ensures IsVarint([b]) && Value([b]) == b && FieldNumber([b]) == b / 8 && IsTag([b], b % 8)
  {
    assert [b][1..] == [] && Value([]) == 0;
  }

  /** Field 1 opens a group and field 2 closes it: skipped, though no field of the guide. */
  lemma {:induction false} MismatchedGroup()
    ensures Skip([11, 20], 0) == Ok(2) && !exists g :: InGuide(g) && Encode(g) <= [11, 20]
  {
    hide Skip, IsTag, IsVarint, Value, FieldNumber, InGuide, Encode;
    ByteTag(11);
    ByteTag(20);
    assert [11, 20] == [11] + [20] + [];
    AnyClosingTag([11], [20], []);
  }

  /** Number zero inside a group of field 1: likewise. */
  lemma {:induction false} NumberZero()
    ensures Skip([11, 0, 5, 12], 0) == Ok(4) && !exists g :: InGuide(g) && Encode(g) <= [11, 0, 5, 12]
  {
    hide Skip, IsTag, IsVarint, Value, FieldNumber;
    ByteTag(11);
    ByteTag(0);
    ByteTag(5);
    ByteTag(12);
    var zero := Scalar([0], [5]);
    var f, s: bytes := Group([11], [zero], [12]), [11, 0, 5, 12];
    assert [zero][1..] == [] && EncodeAll([]) == [];
    assert Encode(zero) == [0, 5] && EncodeAll([zero]) == [0, 5] + [] == [0, 5];
    assert Encode(f) == [11] + [0, 5] + [12] == s;
    AcceptedInGuideIff(s, f);
    assert zero in f.items && !InGuide(zero);
    if g :| InGuide(g) && Encode(g) <= s {
      SkippedFieldUnique(s, f, g);
    }
  }
}
