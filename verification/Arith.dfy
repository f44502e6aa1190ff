/** Powers of two, bitwise OR and the two's-complement views of fixed-width integers. */
module Arith {

  const TWO31: int := 0x8000_0000
  const TWO32: int := 0x1_0000_0000
  const TWO63: int := 0x8000_0000_0000_0000
  const TWO64: int := 0x1_0000_0000_0000_0000

  type byte = b: int | 0 <= b < 256
  type bytes = seq<byte>
  type uint32 = x: int | 0 <= x < TWO32
  type int32 = x: int | -TWO31 <= x < TWO31
  type uint64 = x: int | 0 <= x < TWO64
  type int64 = x: int | -TWO63 <= x < TWO63

  /** `uint64(x)` of a signed integer: sign extension to 64 bits. */
  function ToUint64(x: int64): (u: uint64) {
    if x < 0 then x + TWO64 else x
  }

  /** `int64(u)`: reinterpretation of 64 bits as a signed integer. */
  function ToInt64(u: uint64): (x: int64) {
    if u < TWO63 then u else u - TWO64
  }

  /** `int32(u)`: truncation to 32 bits, reinterpreted as a signed integer. */
  function ToInt32(u: nat): (x: int32) {
    var t := u % TWO32;
    if t < TWO31 then t else t - TWO32
  }

  function Pow2(k: nat): (p: nat)
    ensures p > 0
  {
    if k == 0 then 1 else 2 * Pow2(k - 1)
  }

  lemma {:induction false} Pow2Add(a: nat, b: nat)
    ensures Pow2(a + b) == Pow2(a) * Pow2(b)
  {
    if a > 0 {
      Pow2Add(a - 1, b);
      assert a - 1 + b == a + b - 1;
    }
  }

  lemma {:induction false} Pow2Values()
    ensures Pow2(7) == 128
    ensures Pow2(32) == TWO32
    ensures Pow2(64) == TWO64
  {
    assert Pow2(7) == 128;
    assert Pow2(8) == 256;
    Pow2Add(8, 8);
    Pow2Add(16, 16);
    Pow2Add(32, 32);
  }

  /** The low w bits. */
  function Truncate(v: nat, w: nat): nat {
    v % Pow2(w)
  }

  /** A left shift in a w-bit register: bits past its width are lost. */
  function ShiftLeft(c: nat, k: nat, w: nat): nat {
    Truncate(c * Pow2(k), w)
  }

  /** Bitwise OR of two non-negative integers. */
  function Or(x: nat, y: nat): (z: nat)
    decreases x + y
  {
    if x == 0 then y
    else if y == 0 then x
    else 2 * Or(x / 2, y / 2) + (if x % 2 == 1 || y % 2 == 1 then 1 else 0)
  }

  /** OR-ing a value below 2^k with a multiple of 2^k is addition. */
  lemma {:induction false} OrDisjoint(x: nat, c: nat, k: nat)
    requires x < Pow2(k)
    ensures Or(x, c * Pow2(k)) == x + c * Pow2(k)
  {
    if k > 0 && x > 0 && c > 0 {
      var q := Pow2(k - 1);
      assert c * Pow2(k) == 2 * (c * q);
      assert c * q > 0;
      OrDisjoint(x / 2, c, k - 1);
    }
  }

  lemma {:induction false} MulAtLeast(d: int, m: nat)
    requires d >= 1
    ensures d * m >= m
  {}

  /** The quotient and remainder of a division are unique. */
  lemma {:induction false} ModUnique(x: nat, m: nat, q: nat, r: nat)
    requires 0 < m && r < m && x == q * m + r
    ensures x % m == r && x / m == q
  {
    DivisionUnique(q, r, x / m, x % m, m);
  }

  lemma {:induction false} DivisionUnique(q: int, r: int, q': int, r': int, m: nat)
    requires 0 <= r < m && 0 <= r' < m && q * m + r == q' * m + r'
    ensures q == q' && r == r'
  {
    assert (q - q') * m == r' - r;
    if q > q' {
      MulAtLeast(q - q', m);
    } else if q < q' {
      MulAtLeast(q' - q, m);
    }
  }

  lemma {:induction false} Distribute(x: int, y: int, a: int)
    ensures (x + y) * a == x * a + y * a
  {}

  lemma {:induction false} Associate(x: int, y: int, z: int)
    ensures x * (y * z) == (x * y) * z
  {}

  /** One accumulation step of a varint reader in a w-bit register. */
  lemma {:induction false} OrTruncated(p: nat, c: nat, k: nat, w: nat)
    requires p < Pow2(k)
    ensures Or(p % Pow2(w), c * Pow2(k) % Pow2(w)) == (p + c * Pow2(k)) % Pow2(w)
  {
    if k < w {
      Pow2Add(k, w - k);
      OrTruncatedBelow(p, c, k, Pow2(w - k), Pow2(w));
    } else {
      Pow2Add(w, k - w);
      OrTruncatedAbove(p, c, Pow2(w), Pow2(k - w), Pow2(k));
    }
  }

  lemma {:induction false} OrTruncatedBelow(p: nat, c: nat, k: nat, b: nat, m: nat)
    requires p < Pow2(k) && 0 < b && 0 < m == Pow2(k) * b
    ensures Or(p % m, c * Pow2(k) % m) == (p + c * Pow2(k)) % m
  {
    var q, r, low := LowPart(c, Pow2(k), b, m);
    ModUnique(p, m, 0, p);
    ModUnique(c * Pow2(k), m, q, low);
    ModUnique(p + c * Pow2(k), m, q, low + p);
    OrDisjoint(p, r, k);
  }

  lemma {:induction false} LowPart(c: nat, a: nat, b: nat, m: nat) returns (q: nat, r: nat, low: nat)
    requires 0 < b && m == a * b
    ensures c * a == q * m + low && low == r * a && low + a <= m
  {
    q, r := c / b, c % b;
    low := r * a;
    assert c == q * b + r;
    Distribute(q * b, r, a);
    Associate(q, b, a);
    Distribute(b - r, r, a);
    MulAtLeast(b - r, a);
  }

  lemma {:induction false} OrTruncatedAbove(p: nat, c: nat, a: nat, b: nat, m: nat)
    requires 0 < a && m == a * b
    ensures Or(p % a, c * m % a) == (p + c * m) % a
  {
    Associate(c, b, a);
    ModUnique(c * m, a, c * b, 0);
    var q, r := p / a, p % a;
    assert p == q * a + r;
    Distribute(q, c * b, a);
    ModUnique(p + c * m, a, q + c * b, r);
  }

  lemma {:induction false} Divide(v: nat, m: nat) returns (q: nat, r: nat)
    requires 0 < m
    ensures v == q * m + r && r < m && r == v % m
  {
    q, r := v / m, v % m;
  }

  /** Reducing modulo a multiple of `a` first changes nothing modulo `a`. */
  lemma {:induction false} ModMod(v: nat, a: nat, b: nat, m: nat, r: nat)
    requires 0 < a && 0 < m == b * a && r == v % m
    ensures r % a == v % a
  {
    var q, _ := Divide(v, m);
    var q', r' := Divide(r, a);
    Associate(q, b, a);
    Distribute(q * b, q', a);
    Quotient(v, a, q * b + q', r');
  }

  lemma {:induction false} Quotient(v: nat, a: nat, q: int, r: nat)
    requires r < a && v == q * a + r && 0 <= q
    ensures v % a == r
  {
    ModUnique(v, a, q, r);
  }
}
