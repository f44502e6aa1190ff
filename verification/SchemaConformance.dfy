/**
 Which values an inferred schema admits. A payload conforms to its own schema exactly when it
 has no nulls, no nested arrays and no array whose elements differ in shape from the first.
 */
module SchemaConformance {
  import opened Json
  import opened TypeNames
  import opened Schema
  import opened SchemaSound

  // ---------------------------------------------------------------- conformance

  predicate IsArrayName(ty: string) {
    |ty| >= 2 && ty[|ty| - 2..] == "[]"
  }

  ghost predicate Named(ts: seq<Type>, k: string) {
    exists i :: 0 <= i < |ts| && ts[i].name == k
  }

  /** The entries name exactly the keys of an object, each once. */
  ghost predicate NamesMatch(ts: seq<Type>, v: JSON) {
    && (forall k :: Has(v, k) <==> Named(ts, k))
    && (forall i, j | 0 <= i < j < |ts| :: ts[i].name != ts[j].name)
  }

  /** A value of a primitive or struct type (section "Definition of typed structured data" of EIP-712). */
  ghost predicate ConformsBase(m: Types, ty: string, v: JSON)
    decreases v, 2
  {
    if ty == "bool" then v.Bool?
    else if ty == "int64" then v.Number?
    else if ty == "string" then v.String?
    else if ty == "uint256" then v.Number?
    else
      && ty in m && v.Object? && NamesMatch(m[ty], v)
      && forall i | 0 <= i < |m[ty]| :: Has(v, m[ty][i].name) && Conforms(m, m[ty][i].ty, Get(v, m[ty][i].name))
  }

  /** A value of any type; `T[]` is an array of values of T. */
  ghost predicate Conforms(m: Types, ty: string, v: JSON)
    decreases v, 3
  {
    if IsArrayName(ty) then
      v.Array? && forall i | 0 <= i < |v.items| :: ConformsBase(m, ty[..|ty| - 2], v.items[i])
    else ConformsBase(m, ty, v)
  }

  // ---------------------------------------------------------------- shapes

  /** v could stand where t stood: same kinds and keys, arrays filled with what fits the first element. */
  ghost predicate Fits(t: JSON, v: JSON)
    decreases t
  {
    match t
    case Null => false
    case Bool(_) => v.Bool?
    case Number(_) => v.Number?
    case String(_) => v.String?
    case Array(items) =>
      v.Array? && forall i | 0 <= i < |v.items| :: if items == [] then v.items[i].String? else Fits(items[0], v.items[i])
    case Object(_) =>
      v.Object? && forall k :: (Has(t, k) <==> Has(v, k)) && (Has(t, k) && Has(v, k) ==> Fits(Get(t, k), Get(v, k)))
  }

  /** No null, no array of arrays, and every element of an array fits the first. */
  ghost predicate Supported(v: JSON) {
    match v
    case Null => false
    case Bool(_) => true
    case Number(_) => true
    case String(_) => true
    case Array(items) =>
      items == [] || (!items[0].Array? && Supported(items[0]) && forall i | 0 <= i < |items| :: Fits(items[0], items[i]))
    case Object(_) => forall k | Has(v, k) :: Supported(Get(v, k))
  }

  lemma {:induction false} FitsItself(t: JSON)
    requires Supported(t)
    ensures Fits(t, t)
  {
    hide Find;
    if t.Object? {
      forall k | Has(t, k)
        ensures Fits(Get(t, k), Get(t, k))
      {
        FitsItself(Get(t, k));
      }
    }
  }

  // ---------------------------------------------------------------- the type of a template

  /** The form of an inferred name: it cannot be a primitive type or an array type. */
  ghost predicate IsKeyName(k: string) {
    TYPE_PREFIX <= k && IsDigit(k[|k| - 1])
  }

  ghost predicate Typeable(v: JSON) {
    var elem := if v.Array? && v.items != [] then v.items[0] else v;
    (v.Array? && v.items == []) || (!elem.Array? && !elem.Null?)
  }

  /** `ty` is the type inference gives to t, in the map m. */
  ghost predicate DescribesBase(m: Types, ty: string, t: JSON)
    decreases t, 2, 0
  {
    match t
    case Bool(_) => ty == "bool"
    case Number(_) => ty == "int64"
    case String(_) => ty == "string"
    case Object(fields) =>
      && IsKeyName(ty) && ty in m
      && (forall k | k in SortedKeys(fields) :: Has(t, k))
      && DescribesFields(m, m[ty], t, SortedKeys(fields))
    case _ => false
  }

  ghost predicate Describes(m: Types, ty: string, t: JSON)
    decreases t, 3, 0
  {
    if !t.Array? then DescribesBase(m, ty, t)
    else if t.items == [] then ty == "string[]"
    else IsArrayName(ty) && DescribesBase(m, ty[..|ty| - 2], t.items[0])
  }

  /** One entry for each key whose value has a type, in order. */
  ghost predicate DescribesFields(m: Types, ts: seq<Type>, t: JSON, keys: seq<string>)
    requires forall k | k in keys :: Has(t, k)
    decreases t, 1, |keys|
  {
    if keys == [] then ts == []
    else if !Typeable(Get(t, keys[0])) then DescribesFields(m, ts, t, keys[1..])
    else
      && ts != [] && ts[0].name == keys[0] && Describes(m, ts[0].ty, Get(t, keys[0]))
      && DescribesFields(m, ts[1..], t, keys[1..])
  }

  lemma KeyNameIsNeither(k: string)
    requires IsKeyName(k)
    ensures k != "bool" && k != "int64" && k != "string" && k != "uint256" && !IsArrayName(k) && k != TX_FIELD
  {
    assert k[0] == 'T' && k[1] == 'y';
  }

  // ---------------------------------------------------------------- inference describes its input

  lemma {:induction false} KeyNameIndexed(def: string, i: nat)
    requires TYPE_PREFIX <= def
    ensures IsKeyName(Indexed(def, i))
  {
    var d := Decimal(i);
    assert Indexed(def, i)[|def| + |d| - 1] == d[|d| - 1];
  }

  /** Names come from the message type at the root and from the path below it. */
  ghost predicate Prefixed(root: string, prefix: string) {
    TYPE_PREFIX <= root && (prefix == ROOT_PREFIX || SubPrefix(prefix))
  }

  lemma {:induction false} TypeDefPrefixed(root: string, prefix: string)
    requires Prefixed(root, prefix)
    ensures TYPE_PREFIX <= TypeDef(prefix, root)
  {
    hide Sanitize;
    if prefix != ROOT_PREFIX {
      SanitizeSubPrefix(prefix);
    }
  }

  /** The name of a sub-object survives sanitizing, so the reference is the key it was added under. */
  lemma {:induction false} SubKeySanitized(root: string, prefix: string, i: nat)
    requires SubPrefix(prefix)
    ensures Sanitize(Indexed(TypeDef(prefix, root), i)) == Indexed(TypeDef(prefix, root), i)
  {
    hide Sanitize;
    SanitizeSubPrefix(prefix);
    SanitizeClean(prefix);
    SanitizeFixed(Indexed(Sanitize(prefix), i));
  }

  lemma {:induction false} InferDescribes(m: Types, root: string, prefix: string, v: JSON, m': Types)
    requires v.Object? && Prefixed(root, prefix) && Infer(m, root, prefix, v).Inferred?
    requires GrowsButTx(Infer(m, root, prefix, v).types, m')
    ensures DescribesBase(m', Infer(m, root, prefix, v).key, v)
    decreases v, 2, 0
  {
    hide Slot, TypeDef, SortedKeys, Indexed, IsKeyName, InferFields, DescribesFields, Prefixed;
    SortedKeysAre(v.fields);
    var keys := SortedKeys(v.fields);
    var r := InferFields(m, root, prefix, v, keys);
    var def := TypeDef(prefix, root);
    TypeDefPrefixed(root, prefix);
    KeyNameIndexed(def, Slot(r.types, def, r.entries, 0).value);
    var key := Infer(m, root, prefix, v).key;
    KeyNameIsNeither(key);
    AddGrows(r.types, def, r.entries);
    FieldsDescribe(m, root, prefix, v, keys, m');
  }

  lemma {:induction false} FieldsDescribe(m: Types, root: string, prefix: string, v: JSON, keys: seq<string>, m': Types)
    requires Prefixed(root, prefix) && (forall k | k in keys :: Has(v, k))
    requires InferFields(m, root, prefix, v, keys).FieldResult?
    requires GrowsButTx(InferFields(m, root, prefix, v, keys).types, m')
    ensures DescribesFields(m', InferFields(m, root, prefix, v, keys).entries, v, keys)
    decreases v, 1, |keys|
  {
    hide InferField, Describes, Typeable, Prefixed;
    if keys != [] {
      var name := keys[0];
      var r := InferField(m, root, prefix, name, Get(v, name));
      FieldsGrow(r.types, root, prefix, v, keys[1..]);
      FieldDescribes(m, root, prefix, name, Get(v, name), m');
      FieldsDescribe(r.types, root, prefix, v, keys[1..], m');
      var rest := InferFields(r.types, root, prefix, v, keys[1..]).entries;
      if r.entries == [] {
        assert r.entries + rest == rest;
      } else {
        assert (r.entries + rest)[1..] == rest;
      }
    }
  }

  lemma {:induction false} FieldDescribes(m: Types, root: string, prefix: string, name: string, v: JSON, m': Types)
    requires Prefixed(root, prefix) && InferField(m, root, prefix, name, v).FieldResult?
    requires GrowsButTx(InferField(m, root, prefix, name, v).types, m')
    ensures var ts := InferField(m, root, prefix, name, v).entries;
            if Typeable(v) then |ts| == 1 && ts[0].name == name && Describes(m', ts[0].ty, v) else ts == []
    decreases v, 3, 0
  {
    hide Infer, Sanitize, Prefixed, DescribesBase, Describes;
    EmptyDescribed(m');
    if !(v.Array? && v.items == []) {
      var elem := if v.Array? then v.items[0] else v;
      if EthType(elem) != "" {
        EthDescribes(m', elem);
        SuffixDescribes(m', EthType(elem), v);
      } else if elem.Object? {
        SubFieldDescribes(m, root, prefix, name, elem, m');
        SuffixDescribes(m', Infer(m, root, prefix + "." + name, elem).key, v);
      }
    }
  }

  lemma EmptyDescribed(m: Types)
    ensures Describes(m, "string[]", Array([]))
  {}

  lemma EthDescribes(m: Types, v: JSON)
    requires EthType(v) != ""
    ensures DescribesBase(m, EthType(v), v)
  {}

  lemma {:induction false} SuffixDescribes(m: Types, base: string, v: JSON)
    requires !(v.Array? && v.items == []) && DescribesBase(m, base, if v.Array? then v.items[0] else v)
    ensures Describes(m, base + (if v.Array? then "[]" else ""), v)
  {
    hide DescribesBase;
    assert base + "" == base;
    var arr := base + "[]";
    assert arr[..|base|] == base && arr[|base|..] == "[]";
  }

  lemma {:induction false} SubFieldDescribes(m: Types, root: string, prefix: string, name: string, elem: JSON,
                                             m': Types)
    requires Prefixed(root, prefix) && elem.Object?
    requires Infer(m, root, prefix + "." + name, elem).Inferred?
    requires GrowsButTx(Infer(m, root, prefix + "." + name, elem).types, m')
    ensures var key := Infer(m, root, prefix + "." + name, elem).key;
            Sanitize(key) == key && DescribesBase(m', key, elem)
    decreases elem, 2, 1
  {
    var sub := prefix + "." + name;
    SubPrefixExtends(root, prefix, name);
    InferDescribes(m, root, sub, elem, m');
    SubKeyFixed(m, root, sub, elem);
  }

  lemma {:induction false} SubPrefixExtends(root: string, prefix: string, name: string)
    requires Prefixed(root, prefix)
    ensures SubPrefix(prefix + "." + name) && Prefixed(root, prefix + "." + name)
  {}

  lemma {:induction false} SubKeyFixed(m: Types, root: string, prefix: string, v: JSON)
    requires v.Object? && SubPrefix(prefix) && Infer(m, root, prefix, v).Inferred?
    ensures Sanitize(Infer(m, root, prefix, v).key) == Infer(m, root, prefix, v).key
  {
    hide Slot, TypeDef, SortedKeys, Indexed, InferFields, Sanitize;
    SortedKeysAre(v.fields);
    var r := InferFields(m, root, prefix, v, SortedKeys(v.fields));
    SubKeySanitized(root, prefix, Slot(r.types, TypeDef(prefix, root), r.entries, 0).value);
  }

  // ---------------------------------------------------------------- what the described type admits

  /** With every field typed, the entries follow the keys one by one. */
  lemma {:induction false} EntriesFollowKeys(m: Types, ts: seq<Type>, t: JSON, keys: seq<string>)
    requires (forall k | k in keys :: Has(t, k)) && DescribesFields(m, ts, t, keys)
    requires forall k | k in keys :: Typeable(Get(t, k))
    ensures |ts| == |keys|
    ensures forall i | 0 <= i < |ts| :: ts[i].name == keys[i] && Describes(m, ts[i].ty, Get(t, keys[i]))
  {
    hide Describes, Typeable, Find;
    if keys != [] {
      EntriesFollowKeys(m, ts[1..], t, keys[1..]);
      forall i | 0 <= i < |ts|
        ensures ts[i].name == keys[i] && Describes(m, ts[i].ty, Get(t, keys[i]))
      {
        if i > 0 {
          assert ts[i] == ts[1..][i - 1] && keys[i] == keys[1..][i - 1];
        }
      }
    }
  }

  /** Whatever the other fields are, entries have names of typed keys, and each typed key has its entry. */
  lemma {:induction false} EntryOfKey(m: Types, ts: seq<Type>, t: JSON, keys: seq<string>, k: string)
    requires (forall k | k in keys :: Has(t, k)) && DescribesFields(m, ts, t, keys) && Descending(keys)
    ensures Named(ts, k) ==> k in keys && Typeable(Get(t, k))
    ensures k in keys && Typeable(Get(t, k)) ==>
              exists i :: 0 <= i < |ts| && ts[i].name == k && Describes(m, ts[i].ty, Get(t, k))
  {
    hide Describes, Typeable, Find;
    if keys != [] {
      TailWithout(keys, k);
      var us := if Typeable(Get(t, keys[0])) then ts[1..] else ts;
      EntryOfKey(m, us, t, keys[1..], k);
      if Typeable(Get(t, keys[0])) {
        assert forall i | 0 <= i < |us| :: us[i] == ts[i + 1];
        if Named(ts, k) && k != keys[0] {
          var i :| 0 <= i < |ts| && ts[i].name == k;
          assert us[i - 1].name == k;
        }
      }
    }
  }

  /** A supported template's type admits exactly the values that fit the template. */
  lemma {:induction false} BaseAdmits(m: Types, ty: string, t: JSON, v: JSON)
    requires DescribesBase(m, ty, t) && Supported(t)
    ensures ConformsBase(m, ty, v) <==> Fits(t, v)
    decreases t, 2
  {
    if t.Object? {
      ObjectAdmits(m, ty, t, v);
    }
  }

  lemma {:induction false} TypeAdmits(m: Types, ty: string, t: JSON, v: JSON)
    requires Describes(m, ty, t) && Supported(t)
    ensures Conforms(m, ty, v) <==> Fits(t, v)
    decreases t, 3
  {
    hide DescribesBase, ConformsBase;
    if !t.Array? {
      BaseIsNoArray(m, ty, t);
      BaseAdmits(m, ty, t, v);
    } else if t.items == [] {
      StringsConform(m, v);
    } else if v.Array? {
      forall i | 0 <= i < |v.items|
        ensures ConformsBase(m, ty[..|ty| - 2], v.items[i]) <==> Fits(t.items[0], v.items[i])
      {
        BaseAdmits(m, ty[..|ty| - 2], t.items[0], v.items[i]);
      }
    }
  }

  lemma {:induction false} BaseIsNoArray(m: Types, ty: string, t: JSON)
    requires DescribesBase(m, ty, t)
    ensures !IsArrayName(ty)
  {
    hide DescribesFields;
    if t.Object? {
      KeyNameIsNeither(ty);
    }
  }

  lemma {:induction false} StringsConform(m: Types, v: JSON)
    ensures Conforms(m, "string[]", v) <==> v.Array? && forall i | 0 <= i < |v.items| :: v.items[i].String?
  {
    assert "string[]"[..6] == "string";
  }

  lemma {:induction false} ObjectAdmits(m: Types, ty: string, t: JSON, v: JSON)
    requires t.Object? && DescribesBase(m, ty, t) && Supported(t)
    ensures ConformsBase(m, ty, v) <==> Fits(t, v)
    decreases t, 1
  {
    hide Find, Describes, Conforms, IsKeyName, SortedKeys, DescribesFields;
    KeyNameIsNeither(ty);
    SortedKeysAre(t.fields);
    var keys, ts := SortedKeys(t.fields), m[ty];
    forall k | k in keys
      ensures Typeable(Get(t, k))
    {
      SupportedTypeable(Get(t, k));
    }
    EntriesFollowKeys(m, ts, t, keys);
    NamesAreKeys(ts, keys);
    assert forall k :: Named(ts, k) <==> Has(t, k);
    if v.Object? && NamesMatch(ts, v) {
      forall k
        ensures Has(t, k) <==> Has(v, k)
      {
        assert Has(v, k) <==> Named(ts, k);
      }
      forall i | 0 <= i < |ts|
        ensures Has(v, ts[i].name)
        ensures Conforms(m, ts[i].ty, Get(v, ts[i].name)) <==> Fits(Get(t, keys[i]), Get(v, keys[i]))
      {
        assert keys[i] in keys && Has(t, keys[i]);
        TypeAdmits(m, ts[i].ty, Get(t, keys[i]), Get(v, keys[i]));
      }
    }
  }

  lemma {:induction false} SupportedTypeable(v: JSON)
    requires Supported(v)
    ensures Typeable(v)
  {}

  lemma {:induction false} NamesAreKeys(ts: seq<Type>, keys: seq<string>)
    requires |ts| == |keys| && Descending(keys) && forall i | 0 <= i < |ts| :: ts[i].name == keys[i]
    ensures forall k :: Named(ts, k) <==> k in keys
    ensures forall i, j | 0 <= i < j < |ts| :: ts[i].name != ts[j].name
  {
    forall i, j | 0 <= i < j < |ts|
      ensures ts[i].name != ts[j].name
    {
      Lex.StringAsymmetric(keys[j], keys[i]);
    }
    forall k | k in keys
      ensures Named(ts, k)
    {
      var i :| 0 <= i < |keys| && keys[i] == k;
      assert ts[i].name == k;
    }
  }

  // ---------------------------------------------------------------- unsupported values do not conform

  lemma {:induction false} UnsupportedBase(m: Types, ty: string, t: JSON)
    requires DescribesBase(m, ty, t) && !Supported(t)
    ensures !ConformsBase(m, ty, t)
    decreases t, 2
  {
    hide Find, Describes, Conforms, IsKeyName, SortedKeys, DescribesFields;
    KeyNameIsNeither(ty);
    var k :| Has(t, k) && !Supported(Get(t, k));
    SortedKeysAre(t.fields);
    EntryOfKey(m, m[ty], t, SortedKeys(t.fields), k);
    if Typeable(Get(t, k)) {
      var i :| 0 <= i < |m[ty]| && m[ty][i].name == k && Describes(m, m[ty][i].ty, Get(t, k));
      UnsupportedType(m, m[ty][i].ty, Get(t, k));
    }
  }

  lemma {:induction false} UnsupportedType(m: Types, ty: string, t: JSON)
    requires Describes(m, ty, t) && !Supported(t)
    ensures !Conforms(m, ty, t)
    decreases t, 3
  {
    hide DescribesBase, ConformsBase;
    if !t.Array? {
      BaseIsNoArray(m, ty, t);
      UnsupportedBase(m, ty, t);
    } else {
      var base, first := ty[..|ty| - 2], t.items[0];
      BaseIsNoArrayValue(m, base, first);
      if !Supported(first) {
        UnsupportedBase(m, base, first);
      } else {
        var i :| 0 <= i < |t.items| && !Fits(first, t.items[i]);
        BaseAdmits(m, base, first, t.items[i]);
      }
    }
  }

  lemma BaseIsNoArrayValue(m: Types, ty: string, t: JSON)
    requires DescribesBase(m, ty, t)
    ensures !t.Array?
  {}

  /**
   Soundness and its exact limit: in the map inference leaves behind, and in every later one, an
   object conforms to the type inferred for it if and only if it is supported.
   */
  lemma {:induction false} ConformsIffSupported(m: Types, root: string, prefix: string, v: JSON, m': Types)
    requires v.Object? && Prefixed(root, prefix) && Infer(m, root, prefix, v).Inferred?
    requires GrowsButTx(Infer(m, root, prefix, v).types, m')
    ensures ConformsBase(m', Infer(m, root, prefix, v).key, v) <==> Supported(v)
  {
    hide *;
    var key := Infer(m, root, prefix, v).key;
    InferDescribes(m, root, prefix, v, m');
    if Supported(v) {
      BaseAdmits(m', key, v, v);
      FitsItself(v);
    } else {
      UnsupportedBase(m', key, v);
    }
  }

  // ---------------------------------------------------------------- closed maps

  ghost predicate Primitive(ty: string) {
    ty == "bool" || ty == "int64" || ty == "string" || ty == "uint256"
  }

  /** A type a schema may refer to: primitive or defined, possibly as an array. */
  ghost predicate Known(m: Types, ty: string) {
    var base := if IsArrayName(ty) then ty[..|ty| - 2] else ty;
    Primitive(base) || base in m
  }

  ghost predicate AllKnown(m: Types, ts: seq<Type>) {
    forall i | 0 <= i < |ts| :: Known(m, ts[i].ty)
  }

  ghost predicate Closed(m: Types) {
    forall k | k in m :: AllKnown(m, m[k])
  }

  lemma {:induction false} KnownGrows(m: Types, m': Types, ts: seq<Type>)
    requires m.Keys <= m'.Keys && AllKnown(m, ts)
    ensures AllKnown(m', ts)
  {}

  lemma {:induction false} DescribedKnown(m: Types, ty: string, t: JSON)
    requires Describes(m, ty, t)
    ensures Known(m, ty)
  {
    hide DescribesFields;
    if t.Array? && t.items != [] {
      BaseKnown(m, ty[..|ty| - 2], t.items[0]);
    } else if !t.Array? {
      BaseKnown(m, ty, t);
    } else {
      assert "string[]"[..6] == "string";
    }
  }

  lemma {:induction false} BaseKnown(m: Types, ty: string, t: JSON)
    requires DescribesBase(m, ty, t)
    ensures (Primitive(ty) || ty in m) && !IsArrayName(ty)
  {
    hide DescribesFields;
    BaseIsNoArray(m, ty, t);
  }

  lemma {:induction false} EntriesKnown(m: Types, ts: seq<Type>, t: JSON, keys: seq<string>)
    requires (forall k | k in keys :: Has(t, k)) && DescribesFields(m, ts, t, keys)
    ensures AllKnown(m, ts)
  {
    hide Describes, Typeable, Find, Known;
    if keys != [] {
      if Typeable(Get(t, keys[0])) {
        EntriesKnown(m, ts[1..], t, keys[1..]);
        DescribedKnown(m, ts[0].ty, Get(t, keys[0]));
        forall i | 0 <= i < |ts|
          ensures Known(m, ts[i].ty)
        {
          if i > 0 {
            assert ts[i] == ts[1..][i - 1];
          }
        }
      } else {
        EntriesKnown(m, ts, t, keys[1..]);
      }
    }
  }

  /** Inference keeps the map closed. */
  lemma {:induction false} InferClosed(m: Types, root: string, prefix: string, v: JSON)
    requires v.Object? && Prefixed(root, prefix) && Closed(m) && Infer(m, root, prefix, v).Inferred?
    ensures Closed(Infer(m, root, prefix, v).types)
    decreases v, 2, 0
  {
    hide Slot, TypeDef, SortedKeys, Indexed, InferFields, DescribesFields, Prefixed, AllKnown;
    SortedKeysAre(v.fields);
    var keys := SortedKeys(v.fields);
    var r := InferFields(m, root, prefix, v, keys);
    var m' := Infer(m, root, prefix, v).types;
    FieldsClosed(m, root, prefix, v, keys);
    AddGrows(r.types, TypeDef(prefix, root), r.entries);
    FieldsDescribe(m, root, prefix, v, keys, r.types);
    EntriesKnown(r.types, r.entries, v, keys);
    forall k | k in m'
      ensures AllKnown(m', m'[k])
    {
      KnownGrows(r.types, m', m'[k]);
    }
  }

  lemma {:induction false} FieldsClosed(m: Types, root: string, prefix: string, v: JSON, keys: seq<string>)
    requires Prefixed(root, prefix) && Closed(m) && (forall k | k in keys :: Has(v, k))
    requires InferFields(m, root, prefix, v, keys).FieldResult?
    ensures Closed(InferFields(m, root, prefix, v, keys).types)
    decreases v, 1, |keys|
  {
    hide InferField, Closed, Prefixed;
    if keys != [] {
      FieldClosed(m, root, prefix, keys[0], Get(v, keys[0]));
      FieldsClosed(InferField(m, root, prefix, keys[0], Get(v, keys[0])).types, root, prefix, v, keys[1..]);
    }
  }

  lemma {:induction false} FieldClosed(m: Types, root: string, prefix: string, name: string, v: JSON)
    requires Prefixed(root, prefix) && Closed(m) && InferField(m, root, prefix, name, v).FieldResult?
    ensures Closed(InferField(m, root, prefix, name, v).types)
    decreases v, 3, 0
  {
    hide Infer, Sanitize, Closed, Prefixed;
    if !(v.Array? && v.items == []) {
      var elem := if v.Array? then v.items[0] else v;
      if EthType(elem) == "" && elem.Object? {
        SubPrefixExtends(root, prefix, name);
        InferClosed(m, root, prefix + "." + name, elem);
      }
    }
  }

  // ---------------------------------------------------------------- a null field

  /** A message with nothing but a null memo gets a type without fields, to which it does not conform. */
  lemma {:induction false} NullFieldFails()
    ensures var v := Object([Field("memo", Null)]);
            var r := Infer(map[], "TypeMsg", ROOT_PREFIX, v);
            r == Inferred(map["TypeMsg0" := []], "TypeMsg0") && !ConformsBase(r.types, r.key, v)
  {
    hide Sanitize, Conforms;
    var v := Object([Field("memo", Null)]);
    assert v.fields[1..] == [];
    assert SortedKeys(v.fields) == ["memo"];
    assert ["memo"][1..] == [];
    assert Get(v, "memo") == Null;
    assert InferFields(map[], "TypeMsg", ROOT_PREFIX, v, ["memo"]) == FieldResult(map[], []);
    assert Decimal(0) == "0" && "TypeMsg" + "0" == "TypeMsg0";
    assert Has(v, "memo") && !Named([], "memo");
  }
}
