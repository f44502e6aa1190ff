/**
 Inference of EIP-712 types from a JSON payload: a type map is grown while walking the objects,
 and equal schemas share one indexed name.
 */
module Schema {
  import opened Options
  import opened Json
  import opened TypeNames
  import opened Flatten
  import Lex

  const MAX_DUPLICATE_TYPE_DEFS: nat := 1000
  const TX_FIELD := "Tx"

  datatype Type = Type(name: string, ty: string)

  type Types = map<string, seq<Type>>

  // ---------------------------------------------------------------- sorted keys

  ghost predicate Descending(ks: seq<string>) {
    forall i, j | 0 <= i < j < |ks| :: Lex.StringLess(ks[j], ks[i])
  }

  function Insert(k: string, ks: seq<string>): seq<string> {
    if ks == [] then [k]
    else if k == ks[0] then ks
    else if Lex.StringLess(ks[0], k) then [k] + ks
    else [ks[0]] + Insert(k, ks[1..])
  }

  /** The keys of an object, without repetition, greatest first. */
  function SortedKeys(fields: seq<Field>): seq<string> {
    if fields == [] then [] else Insert(fields[0].name, SortedKeys(fields[1..]))
  }

  lemma {:induction false} InsertKeeps(k: string, ks: seq<string>)
    requires Descending(ks)
    ensures Descending(Insert(k, ks))
    ensures forall x :: x in Insert(k, ks) <==> x == k || x in ks
  {
    hide Lex.StringLess;
    if ks != [] && k != ks[0] {
      Lex.StringTotal(ks[0], k);
      if Lex.StringLess(ks[0], k) {
        forall i | 0 <= i < |ks|
          ensures Lex.StringLess(ks[i], k)
        {
          if i > 0 {
            Lex.StringTransitive(ks[i], ks[0], k);
          }
        }
      } else {
        var rest := Insert(k, ks[1..]);
        InsertKeeps(k, ks[1..]);
        forall i | 0 <= i < |rest|
          ensures Lex.StringLess(rest[i], ks[0])
        {
          assert rest[i] in rest;
        }
      }
    }
  }

  lemma {:induction false} SortedKeysAre(fields: seq<Field>)
    ensures Descending(SortedKeys(fields))
    ensures forall k :: k in SortedKeys(fields) <==> Find(fields, k).Some?
  {
    hide Insert, Descending;
    if fields == [] {
      NoneDescending();
    } else {
      SortedKeysAre(fields[1..]);
      InsertKeeps(fields[0].name, SortedKeys(fields[1..]));
    }
  }

  lemma NoneDescending()
    ensures Descending([])
  {}

  /** A set of keys has one descending listing, so the order of keys in the text cannot matter. */
  lemma {:induction false} DescendingUnique(a: seq<string>, b: seq<string>)
    requires Descending(a) && Descending(b) && forall k :: k in a <==> k in b
    ensures a == b
  {
    hide Lex.StringLess;
    assert b != [] ==> b[0] in b;
    if a != [] {
      assert a[0] in b;
      var i :| 0 <= i < |b| && b[i] == a[0];
      assert b[0] in a;
      var j :| 0 <= j < |a| && a[j] == b[0];
      if i > 0 {
        Lex.StringAsymmetric(a[0], b[0]);
        assert false;
      }
      forall k
        ensures k in a[1..] <==> k in b[1..]
      {
        TailWithout(a, k);
        TailWithout(b, k);
      }
      DescendingUnique(a[1..], b[1..]);
      assert a == [a[0]] + a[1..] && b == [b[0]] + b[1..];
    }
  }

  lemma {:induction false} TailWithout(a: seq<string>, k: string)
    requires Descending(a) && a != []
    ensures k in a[1..] <==> k in a && k != a[0]
  {
    hide Lex.StringLess;
    if k in a[1..] {
      var i :| 0 <= i < |a[1..]| && a[1..][i] == k;
      assert a[i + 1] == k;
      Lex.StringAsymmetric(k, a[0]);
    }
  }

  // ---------------------------------------------------------------- the type map

  /** `typeDefWithIndex` */
  function Indexed(def: string, i: nat): string {
    def + Decimal(i)
  }

  /** The name with this index belongs to other types. */
  ghost predicate Taken(m: Types, def: string, ts: seq<Type>, i: nat) {
    Indexed(def, i) in m && m[Indexed(def, i)] != ts
  }

  /** The first index whose name is free or already holds the same types. */
  function Slot(m: Types, def: string, ts: seq<Type>, i: nat): (r: Option<nat>)
    requires i <= MAX_DUPLICATE_TYPE_DEFS
    ensures r.Some? ==> i <= r.value < MAX_DUPLICATE_TYPE_DEFS
    ensures r.Some? ==> Indexed(def, r.value) !in m || m[Indexed(def, r.value)] == ts
    ensures forall j | i <= j < (if r.Some? then r.value else MAX_DUPLICATE_TYPE_DEFS) :: Taken(m, def, ts, j)
    decreases MAX_DUPLICATE_TYPE_DEFS - i
  {
    if i == MAX_DUPLICATE_TYPE_DEFS then None
    else if Indexed(def, i) !in m || m[Indexed(def, i)] == ts then Some(i)
    else Slot(m, def, ts, i + 1)
  }

  /** All smaller indices are taken, this one is not. */
  ghost predicate FirstFree(m: Types, def: string, ts: seq<Type>, n: nat) {
    !Taken(m, def, ts, n) && forall j | 0 <= j < n :: Taken(m, def, ts, j)
  }

  datatype Inferred = Failed | Inferred(types: Types, key: string)

  function AddTypes(m: Types, def: string, ts: seq<Type>): Inferred {
    match Slot(m, def, ts, 0)
    case None => Failed
    case Some(i) => Inferred(m[Indexed(def, i) := ts], Indexed(def, i))
  }

  /** `typeDefForPrefix` */
  function TypeDef(prefix: string, root: string): string {
    if prefix == ROOT_PREFIX then root else Sanitize(prefix)
  }

  /** `getEthTypeForJSON`: empty for objects, arrays and null. */
  function EthType(v: JSON): string {
    match v
    case Bool(_) => "bool"
    case Number(_) => "int64"
    case String(_) => "string"
    case _ => ""
  }

  datatype FieldResult = FieldFailed | FieldResult(types: Types, entries: seq<Type>)

  /** The type of an object: the types of its fields, added under the name of its prefix. */
  function Infer(m: Types, root: string, prefix: string, v: JSON): Inferred
    requires v.Object?
    decreases v, 2, 0
  {
    SortedKeysAre(v.fields);
    match InferFields(m, root, prefix, v, SortedKeys(v.fields))
    case FieldFailed => Failed
    case FieldResult(m', ts) => AddTypes(m', TypeDef(prefix, root), ts)
  }

  function InferFields(m: Types, root: string, prefix: string, v: JSON, keys: seq<string>): FieldResult
    requires forall k | k in keys :: Has(v, k)
    decreases v, 1, |keys|
  {
    if keys == [] then FieldResult(m, [])
    else
      match InferField(m, root, prefix, keys[0], Get(v, keys[0]))
      case FieldFailed => FieldFailed
      case FieldResult(m1, t) =>
        match InferFields(m1, root, prefix, v, keys[1..])
        case FieldFailed => FieldFailed
        case FieldResult(m2, ts) => FieldResult(m2, t + ts)
  }

  /** One field: an array takes the type of its first element; null and nested arrays are passed over. */
  function InferField(m: Types, root: string, prefix: string, name: string, v: JSON): FieldResult
    decreases v, 3, 0
  {
    if v.Array? && v.items == [] then FieldResult(m, [Type(name, "string[]")])
    else
      var elem, suffix := if v.Array? then v.items[0] else v, if v.Array? then "[]" else "";
      if EthType(elem) != "" then FieldResult(m, [Type(name, EthType(elem) + suffix)])
      else if elem.Object? then
        match Infer(m, root, prefix + "." + name, elem)
        case Failed => FieldFailed
        case Inferred(m', key) => FieldResult(m', [Type(name, Sanitize(key) + suffix)])
      else FieldResult(m, [])
  }

  // ---------------------------------------------------------------- messages

  function BaseTypes(): Types {
    map[
      "EIP712Domain" := [Type("name", "string"), Type("version", "string"), Type("chainId", "uint256"),
                         Type("verifyingContract", "string"), Type("salt", "string")],
      "Tx" := [Type("account_number", "string"), Type("chain_id", "string"), Type("fee", "Fee"),
               Type("memo", "string"), Type("sequence", "string")],
      "Fee" := [Type("amount", "Coin[]"), Type("gas", "string")],
      "Coin" := [Type("denom", "string"), Type("amount", "string")]
    ]
  }

  /** `msgRootType`: the last part of the message type, after slashes. */
  function RootType(msg: JSON): Option<string> {
    if !Has(msg, "type") || !Get(msg, "type").String? || Get(msg, "type").s == "" then None
    else
      var parts := Split(Get(msg, "type").s, '/');
      Some(TYPE_PREFIX + parts[|parts| - 1])
  }

  function AddMessage(m: Types, field: string, msg: JSON): Option<Types> {
    if !msg.Object? || RootType(msg).None? then None
    else
      match Infer(m, RootType(msg).value, ROOT_PREFIX, msg)
      case Failed => None
      case Inferred(m', key) =>
        Some(m'[TX_FIELD := (if TX_FIELD in m' then m'[TX_FIELD] else []) + [Type(field, key)]])
  }

  /** The type map after the first n messages of a flattened payload; a missing message is null. */
  function CreateTypes(payload: JSON, n: nat): Option<Types> {
    if n == 0 then Some(BaseTypes())
    else
      match CreateTypes(payload, n - 1)
      case None => None
      case Some(m) =>
        AddMessage(m, MsgField(n - 1), if Has(payload, MsgField(n - 1)) then Get(payload, MsgField(n - 1)) else Null)
  }

  // ---------------------------------------------------------------- the mutating walk

  /** `typesAreEqual` */
  method TypesAreEqual(a: seq<Type>, b: seq<Type>) returns (r: bool)
    ensures r <==> a == b
  {
    if |a| != |b| {
      return false;
    }
    for i := 0 to |a|
      invariant forall j | 0 <= j < i :: a[j] == b[j]
    {
      if a[i].name != b[i].name || a[i].ty != b[i].ty {
        return false;
      }
    }
    return true;
  }

  /** `msgRootType` */
  method MsgRootType(msg: JSON) returns (r: Option<string>)
    ensures r == RootType(msg)
  {
    hide Split;
    var msgType := "";
    if Has(msg, "type") && Get(msg, "type").String? {
      msgType := Get(msg, "type").s;
    }
    if msgType == "" {
      return None;
    }
    var tokens := Split(msgType, '/');
    return Some("Type" + tokens[|tokens| - 1]);
  }

  class TypeMap {
    var types: Types

    constructor ()
      ensures types == BaseTypes()
    {
      types := BaseTypes();
    }

    /** Finds or claims a name for the types. */
    method AddTypesToRoot(def: string, ts: seq<Type>) returns (key: Option<string>)
      modifies this
      ensures key.None? ==> AddTypes(old(types), def, ts) == Failed && types == old(types)
      ensures key.Some? ==> AddTypes(old(types), def, ts) == Inferred(types, key.value)
      ensures key.None? <==> forall i | 0 <= i < 1000 :: Taken(old(types), def, ts, i)
      ensures key.Some? ==> exists n: nat :: key.value == Indexed(def, n) && FirstFree(old(types), def, ts, n)
    {
      hide Indexed;
      var i := 0;
      while true
        invariant 0 <= i < MAX_DUPLICATE_TYPE_DEFS && types == old(types)
        invariant Slot(types, def, ts, 0) == Slot(types, def, ts, i)
        invariant forall j | 0 <= j < i :: Taken(types, def, ts, j)
        decreases MAX_DUPLICATE_TYPE_DEFS - i
      {
        var name := Indexed(def, i);
        if name in types {
          var same := TypesAreEqual(ts, types[name]);
          if same {
            assert FirstFree(types, def, ts, i);
            assert types == types[name := ts];
            return Some(name);
          }
        } else {
          assert FirstFree(types, def, ts, i);
          types := types[name := ts];
          return Some(name);
        }
        i := i + 1;
        if i == MAX_DUPLICATE_TYPE_DEFS {
          return None;
        }
      }
    }

    /** Walks an object in sorted key order, adding the types of its sub-objects first. */
    method RecursivelyAddTypesToRoot(root: string, prefix: string, v: JSON) returns (key: Option<string>)
      requires v.Object?
      modifies this
      ensures key.None? ==> Infer(old(types), root, prefix, v) == Failed
      ensures key.Some? ==> Infer(old(types), root, prefix, v) == Inferred(types, key.value)
      decreases v, 0
    {
      hide AddTypes, InferFields, InferField, SortedKeys, Sanitize;
      var typesToAdd: seq<Type> := [];
      SortedKeysAre(v.fields);
      var keys := SortedKeys(v.fields);
      assert keys[0..] == keys;
      ThenNothing(InferFields(types, root, prefix, v, keys));
      for n := 0 to |keys|
        invariant forall k | k in keys[n..] :: Has(v, k)
        invariant InferFields(old(types), root, prefix, v, keys)
               == Then(typesToAdd, InferFields(types, root, prefix, v, keys[n..]))
      {
        assert keys[n] in keys && keys[n..][0] == keys[n] && keys[n..][1..] == keys[n + 1..];
        FieldsUnfold(types, root, prefix, v, keys[n..]);
        var t := AddField(root, prefix, keys[n], Get(v, keys[n]));
        if t.None? {
          return None;
        }
        ThenThen(typesToAdd, t.value, InferFields(types, root, prefix, v, keys[n + 1..]));
        typesToAdd := typesToAdd + t.value;
      }
      FieldsEnd(types, root, prefix, v, keys[|keys|..]);
      assert typesToAdd + [] == typesToAdd;
      var def := root;
      if prefix != ROOT_PREFIX {
        def := SanitizeTypedef(prefix);
      }
      key := AddTypesToRoot(def, typesToAdd);
    }

    /** Adds the types of the messages in turn and their fields to the transaction schema. */
    method CreateEIP712Types(payload: JSON, n: nat) returns (ok: bool)
      requires types == BaseTypes()
      modifies this
      ensures ok ==> CreateTypes(payload, n) == Some(types)
      ensures !ok ==> CreateTypes(payload, n) == None
    {
      hide Infer, MsgField, RootType, BaseTypes, Find;
      for i := 0 to n
        invariant CreateTypes(payload, i) == Some(types)
      {
        var msg := if Has(payload, MsgField(i)) then Get(payload, MsgField(i)) else Null;
        var root := MsgRootType(msg);
        if !msg.Object? || root.None? {
          CreateFails(payload, i + 1, n);
          return false;
        }
        var key := RecursivelyAddTypesToRoot(root.value, ROOT_PREFIX, msg);
        if key.None? {
          CreateFails(payload, i + 1, n);
          return false;
        }
        types := types[TX_FIELD := (if TX_FIELD in types then types[TX_FIELD] else []) + [Type(MsgField(i), key.value)]];
      }
      return true;
    }

    /** The loop body: at most one entry for one field. */
    method AddField(root: string, prefix: string, name: string, field: JSON) returns (t: Option<seq<Type>>)
      modifies this
      ensures t.None? ==> InferField(old(types), root, prefix, name, field) == FieldFailed
      ensures t.Some? ==> InferField(old(types), root, prefix, name, field) == FieldResult(types, t.value)
      decreases field, 1
    {
      hide Infer, Sanitize;
      if field.Array? && field.items == [] {
        return Some([Type(name, "string[]")]);
      }
      var elem, suffix := if field.Array? then field.items[0] else field, if field.Array? then "[]" else "";
      var ethType := "";
      match elem {
        case Bool(_) => ethType := "bool";
        case Number(_) => ethType := "int64";
        case String(_) => ethType := "string";
        case _ =>
      }
      if ethType != "" {
        return Some([Type(name, ethType + suffix)]);
      }
      if elem.Object? {
        var sub := RecursivelyAddTypesToRoot(root, prefix + "." + name, elem);
        if sub.None? {
          return None;
        }
        var ty := SanitizeTypedef(sub.value);
        return Some([Type(name, ty + suffix)]);
      }
      return Some([]);
    }
  }

  lemma {:induction false} CreateFails(payload: JSON, i: nat, n: nat)
    requires CreateTypes(payload, i) == None && i <= n
    ensures CreateTypes(payload, n) == None
  {
    hide AddMessage, MsgField;
    if i < n {
      CreateFails(payload, i, n - 1);
    }
  }

  /** Entries found earlier, in front of those of the remaining keys. */
  ghost function Then(ts: seq<Type>, r: FieldResult): FieldResult {
    match r
    case FieldFailed => FieldFailed
    case FieldResult(m, us) => FieldResult(m, ts + us)
  }

  lemma ThenNothing(r: FieldResult)
    ensures Then([], r) == r
  {}

  lemma {:induction false} FieldsUnfold(m: Types, root: string, prefix: string, v: JSON, keys: seq<string>)
    requires keys != [] && forall k | k in keys :: Has(v, k)
    ensures var r := InferField(m, root, prefix, keys[0], Get(v, keys[0]));
            && (r == FieldFailed ==> InferFields(m, root, prefix, v, keys) == FieldFailed)
            && (r.FieldResult? ==>
                  InferFields(m, root, prefix, v, keys) == Then(r.entries, InferFields(r.types, root, prefix, v, keys[1..])))
  {
    hide InferField;
  }

  lemma FieldsEnd(m: Types, root: string, prefix: string, v: JSON, keys: seq<string>)
    requires keys == []
    ensures InferFields(m, root, prefix, v, keys) == FieldResult(m, [])
  {}

  lemma ThenThen(a: seq<Type>, b: seq<Type>, r: FieldResult)
    ensures Then(a, Then(b, r)) == Then(a + b, r)
  {
    if r.FieldResult? {
      assert a + (b + r.entries) == a + b + r.entries;
    }
  }
}
