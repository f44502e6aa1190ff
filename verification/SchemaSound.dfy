/**
 Stability of schema inference: the map only grows, inferring again changes nothing, and only
 the shape of a payload matters.
 */
module SchemaSound {
  import opened Json
  import opened TypeNames
  import opened Schema

  // ---------------------------------------------------------------- the map only grows

  /** Every entry of m is still there, unchanged. */
  ghost predicate Grows(m: Types, m': Types) {
    forall k | k in m :: k in m' && m'[k] == m[k]
  }

  /** The same, except for the transaction schema, to which messages are appended. */
  ghost predicate GrowsButTx(m: Types, m': Types) {
    forall k | k in m && k != TX_FIELD :: k in m' && m'[k] == m[k]
  }

  lemma {:induction false} InferGrows(m: Types, root: string, prefix: string, v: JSON)
    requires v.Object?
    ensures Infer(m, root, prefix, v).Inferred? ==> Grows(m, Infer(m, root, prefix, v).types)
    decreases v, 2, 0
  {
    hide Slot, TypeDef, SortedKeys;
    SortedKeysAre(v.fields);
    FieldsGrow(m, root, prefix, v, SortedKeys(v.fields));
  }

  lemma {:induction false} FieldsGrow(m: Types, root: string, prefix: string, v: JSON, keys: seq<string>)
    requires forall k | k in keys :: Has(v, k)
    ensures InferFields(m, root, prefix, v, keys).FieldResult? ==> Grows(m, InferFields(m, root, prefix, v, keys).types)
    decreases v, 1, |keys|
  {
    hide InferField;
    if keys != [] {
      FieldGrows(m, root, prefix, keys[0], Get(v, keys[0]));
      var r := InferField(m, root, prefix, keys[0], Get(v, keys[0]));
      if r.FieldResult? {
        FieldsGrow(r.types, root, prefix, v, keys[1..]);
      }
    }
  }

  lemma {:induction false} FieldGrows(m: Types, root: string, prefix: string, name: string, v: JSON)
    ensures InferField(m, root, prefix, name, v).FieldResult? ==> Grows(m, InferField(m, root, prefix, name, v).types)
    decreases v, 3, 0
  {
    hide Infer, Sanitize;
    if !(v.Array? && v.items == []) {
      var elem := if v.Array? then v.items[0] else v;
      if elem.Object? {
        InferGrows(m, root, prefix + "." + name, elem);
      }
    }
  }

  // ---------------------------------------------------------------- inferring again

  /** Inferred names end in a digit, so none is the transaction schema. */
  lemma {:induction false} IndexedIsNotTx(def: string, i: nat)
    ensures Indexed(def, i) != TX_FIELD
  {
    var d := Decimal(i);
    assert Indexed(def, i)[|def| + |d| - 1] == d[|d| - 1];
  }

  /** On a map that already has them, types find their name again. */
  lemma {:induction false} SlotStable(m: Types, def: string, ts: seq<Type>, i: nat, m': Types)
    requires i <= MAX_DUPLICATE_TYPE_DEFS && Slot(m, def, ts, i).Some?
    requires GrowsButTx(m[Indexed(def, Slot(m, def, ts, i).value) := ts], m')
    ensures Slot(m', def, ts, i) == Slot(m, def, ts, i)
    decreases MAX_DUPLICATE_TYPE_DEFS - i
  {
    hide Indexed;
    IndexedIsNotTx(def, i);
    if Indexed(def, i) in m && m[Indexed(def, i)] != ts {
      var n := Slot(m, def, ts, i).value;
      assert m[Indexed(def, n) := ts][Indexed(def, i)] == m[Indexed(def, i)] by {
        assert Indexed(def, n) !in m || m[Indexed(def, n)] == ts;
      }
      SlotStable(m, def, ts, i + 1, m');
    }
  }

  lemma {:induction false} AddStable(m: Types, def: string, ts: seq<Type>, m': Types)
    requires AddTypes(m, def, ts).Inferred? && GrowsButTx(AddTypes(m, def, ts).types, m')
    ensures AddTypes(m', def, ts) == Inferred(m', AddTypes(m, def, ts).key)
  {
    hide Slot, Indexed;
    SlotStable(m, def, ts, 0, m');
    var k := AddTypes(m, def, ts).key;
    IndexedIsNotTx(def, Slot(m, def, ts, 0).value);
    assert m'[k := ts] == m';
  }

  /**
   Inferring an object again, in any later map, changes nothing and gives the same name. Later
   maps are those of the code: other entries added, messages appended to the transaction schema.
   */
  lemma {:induction false} InferStable(m: Types, root: string, prefix: string, v: JSON, m': Types)
    requires v.Object? && Infer(m, root, prefix, v).Inferred?
    requires GrowsButTx(Infer(m, root, prefix, v).types, m')
    ensures Infer(m', root, prefix, v) == Inferred(m', Infer(m, root, prefix, v).key)
    decreases v, 2, 0
  {
    hide AddTypes, TypeDef, SortedKeys, InferFields;
    SortedKeysAre(v.fields);
    var keys := SortedKeys(v.fields);
    var r := InferFields(m, root, prefix, v, keys);
    AddGrows(r.types, TypeDef(prefix, root), r.entries);
    FieldsStable(m, root, prefix, v, keys, m');
    AddStable(r.types, TypeDef(prefix, root), r.entries, m');
  }

  lemma {:induction false} AddGrows(m: Types, def: string, ts: seq<Type>)
    ensures AddTypes(m, def, ts).Inferred? ==> Grows(m, AddTypes(m, def, ts).types)
  {
    hide Slot;
  }

  lemma {:induction false} FieldsStable(m: Types, root: string, prefix: string, v: JSON, keys: seq<string>, m': Types)
    requires (forall k | k in keys :: Has(v, k)) && InferFields(m, root, prefix, v, keys).FieldResult?
    requires GrowsButTx(InferFields(m, root, prefix, v, keys).types, m')
    ensures InferFields(m', root, prefix, v, keys)
         == FieldResult(m', InferFields(m, root, prefix, v, keys).entries)
    decreases v, 1, |keys|
  {
    hide InferField;
    if keys != [] {
      var r := InferField(m, root, prefix, keys[0], Get(v, keys[0]));
      FieldsGrow(r.types, root, prefix, v, keys[1..]);
      FieldStable(m, root, prefix, keys[0], Get(v, keys[0]), m');
      FieldsStable(r.types, root, prefix, v, keys[1..], m');
    }
  }

  lemma {:induction false} FieldStable(m: Types, root: string, prefix: string, name: string, v: JSON, m': Types)
    requires InferField(m, root, prefix, name, v).FieldResult?
    requires GrowsButTx(InferField(m, root, prefix, name, v).types, m')
    ensures InferField(m', root, prefix, name, v) == FieldResult(m', InferField(m, root, prefix, name, v).entries)
    decreases v, 3, 0
  {
    hide Infer, Sanitize;
    if !(v.Array? && v.items == []) {
      var elem := if v.Array? then v.items[0] else v;
      if EthType(elem) == "" && elem.Object? {
        InferStable(m, root, prefix + "." + name, elem, m');
      }
    }
  }

  /** Equal as far as inference looks: kinds, key sets and first elements, in any order of keys. */
  ghost predicate SameShape(v: JSON, w: JSON) {
    match (v, w)
    case (Null, Null) => true
    case (Bool(_), Bool(_)) => true
    case (Number(_), Number(_)) => true
    case (String(_), String(_)) => true
    case (Array(a), Array(b)) => (a == [] <==> b == []) && (a != [] && b != [] ==> SameShape(a[0], b[0]))
    case (Object(_), Object(_)) => forall k :: (Has(v, k) <==> Has(w, k)) && (Has(v, k) && Has(w, k) ==> SameShape(Get(v, k), Get(w, k)))
    case _ => false
  }

  lemma {:induction false} SameKeys(v: JSON, w: JSON)
    requires v.Object? && w.Object? && SameShape(v, w)
    ensures SortedKeys(v.fields) == SortedKeys(w.fields)
  {
    hide SortedKeys, Find;
    SortedKeysAre(v.fields);
    SortedKeysAre(w.fields);
    forall k
      ensures k in SortedKeys(v.fields) <==> k in SortedKeys(w.fields)
    {
      assert Has(v, k) <==> Has(w, k);
    }
    DescendingUnique(SortedKeys(v.fields), SortedKeys(w.fields));
  }

  /** Inference sees only the shape; the order of keys in the text is not part of it. */
  lemma {:induction false} InferSeesShape(m: Types, root: string, prefix: string, v: JSON, w: JSON)
    requires v.Object? && w.Object? && SameShape(v, w)
    ensures Infer(m, root, prefix, v) == Infer(m, root, prefix, w)
    decreases v, 2, 0
  {
    hide AddTypes, TypeDef, SortedKeys, SameShape, InferFields;
    SortedKeysAre(v.fields);
    SortedKeysAre(w.fields);
    SameKeys(v, w);
    FieldsSeeShape(m, root, prefix, v, w, SortedKeys(v.fields));
  }

  lemma {:induction false} FieldsSeeShape(m: Types, root: string, prefix: string, v: JSON, w: JSON, keys: seq<string>)
    requires v.Object? && w.Object? && SameShape(v, w) && forall k | k in keys :: Has(v, k) && Has(w, k)
    ensures InferFields(m, root, prefix, v, keys) == InferFields(m, root, prefix, w, keys)
    decreases v, 1, |keys|
  {
    hide InferField, Find;
    if keys != [] {
      assert SameShape(Get(v, keys[0]), Get(w, keys[0]));
      FieldSeesShape(m, root, prefix, keys[0], Get(v, keys[0]), Get(w, keys[0]));
      var r := InferField(m, root, prefix, keys[0], Get(v, keys[0]));
      if r.FieldResult? {
        FieldsSeeShape(r.types, root, prefix, v, w, keys[1..]);
      }
    }
  }

  lemma {:induction false} FieldSeesShape(m: Types, root: string, prefix: string, name: string, v: JSON, w: JSON)
    requires SameShape(v, w)
    ensures InferField(m, root, prefix, name, v) == InferField(m, root, prefix, name, w)
    decreases v, 3, 0
  {
    hide Infer, Sanitize;
    if !(v.Array? && v.items == []) {
      var a, b := if v.Array? then v.items[0] else v, if w.Array? then w.items[0] else w;
      assert SameShape(a, b);
      if a.Object? {
        InferSeesShape(m, root, prefix + "." + name, a, b);
      }
    }
  }
}
