/** JSON values and the string operations the EIP-712 encoder uses on names. */
module Json {
  import opened Options

  datatype JSON =
    | Null
    | Bool(b: bool)
    | Number(raw: string)
    | String(s: string)
    | Array(items: seq<JSON>)
    | Object(fields: seq<Field>)

  datatype Field = Field(name: string, value: JSON)

  /** The first field of a name, as a path query finds it. */
  function Find(fields: seq<Field>, name: string): (r: Option<JSON>)
    ensures r.Some? ==> exists i :: 0 <= i < |fields| && fields[i].name == name && fields[i].value == r.value
    ensures r.None? ==> forall i | 0 <= i < |fields| :: fields[i].name != name
  {
    if fields == [] then None
    else if fields[0].name == name then assert fields[0] == fields[0]; Some(fields[0].value)
    else
      var r := Find(fields[1..], name);
      assert forall i | 0 <= i < |fields[1..]| :: fields[1..][i] == fields[i + 1];
      r
  }

  predicate Has(v: JSON, name: string) {
    v.Object? && Find(v.fields, name).Some?
  }

  function Get(v: JSON, name: string): (r: JSON)
    requires Has(v, name)
    ensures r < v
  {
    Find(v.fields, name).value
  }

  lemma {:induction false} FindConcat(a: seq<Field>, b: seq<Field>, name: string)
    ensures Find(a + b, name) == if Find(a, name).Some? then Find(a, name) else Find(b, name)
  {
    if a == [] {
      assert a + b == b;
    } else {
      assert (a + b)[1..] == a[1..] + b;
      FindConcat(a[1..], b, name);
    }
  }

  // ---------------------------------------------------------------- decimal numerals

  function Digit(d: nat): char
    requires d < 10
  {
    '0' + d as char
  }

  predicate IsDigit(c: char) {
    '0' <= c <= '9'
  }

  /** `%d` of a non-negative number. */
  function Decimal(n: nat): (s: string)
    ensures |s| > 0 && forall i | 0 <= i < |s| :: IsDigit(s[i])
  {
    if n < 10 then [Digit(n)] else Decimal(n / 10) + [Digit(n % 10)]
  }

  /** The number a string of digits denotes, read from the left. */
  function Denotes(s: string): int {
    if s == "" then 0 else 10 * Denotes(s[..|s| - 1]) + (s[|s| - 1] as int - '0' as int)
  }

  /** The numeral denotes the number and has no leading zero. */
  lemma {:induction false} DecimalDenotes(n: nat)
    ensures Denotes(Decimal(n)) == n
    ensures n > 0 ==> Decimal(n)[0] != '0'
  {
    var s := Decimal(n);
    if n < 10 {
      assert s[..0] == "" && Denotes("") == 0;
    } else {
      DecimalDenotes(n / 10);
      assert s[..|s| - 1] == Decimal(n / 10);
    }
  }

  lemma {:induction false} DecimalInjective(a: nat, b: nat)
    requires Decimal(a) == Decimal(b)
    ensures a == b
  {
    var s := Decimal(a);
    assert s[|s| - 1] == Digit(a % 10) == Digit(b % 10);
    assert Digit(a % 10) as int == '0' as int + a % 10;
    assert Digit(b % 10) as int == '0' as int + b % 10;
    if a >= 10 && b >= 10 {
      assert s[..|s| - 1] == Decimal(a / 10) == Decimal(b / 10);
      DecimalInjective(a / 10, b / 10);
    }
  }
}
