/**
 The type map of a whole flattened transaction: where every message stands in it, that it is
 closed, and exactly which transactions conform to it.
 */
module SchemaPayload {
  import opened Options
  import opened Json
  import opened TypeNames
  import opened Flatten
  import opened Schema
  import opened SchemaSound
  import opened SchemaConformance

  /** The message at a position of a flattened payload. */
  function Message(payload: JSON, i: nat): JSON {
    if Has(payload, MsgField(i)) then Get(payload, MsgField(i)) else Null
  }

  /** The type name inferred for it. */
  function KeyOf(payload: JSON, i: nat): string {
    match CreateTypes(payload, i)
    case None => ""
    case Some(m) =>
      if Message(payload, i).Object? && RootType(Message(payload, i)).Some? then
        match Infer(m, RootType(Message(payload, i)).value, ROOT_PREFIX, Message(payload, i))
        case Inferred(_, key) => key
        case Failed => ""
      else ""
  }

  lemma {:induction false} RootTypePrefixed(msg: JSON)
    requires RootType(msg).Some?
    ensures Prefixed(RootType(msg).value, ROOT_PREFIX)
  {}

  /** What one more message does to the map. */
  lemma {:induction false} OneMessage(payload: JSON, i: nat)
    requires CreateTypes(payload, i + 1).Some?
    ensures CreateTypes(payload, i).Some? && Message(payload, i).Object? && RootType(Message(payload, i)).Some?
    ensures Has(payload, MsgField(i))
    ensures var m, m' := CreateTypes(payload, i).value, CreateTypes(payload, i + 1).value;
            var r := Infer(m, RootType(Message(payload, i)).value, ROOT_PREFIX, Message(payload, i));
            && r.Inferred? && KeyOf(payload, i) == r.key && Grows(m, r.types)
            && (TX_FIELD in m ==> m' == r.types[TX_FIELD := m[TX_FIELD] + [Type(MsgField(i), r.key)]])
  {
    hide Infer, RootType, MsgField, Find;
    var m := CreateTypes(payload, i).value;
    InferGrows(m, RootType(Message(payload, i)).value, ROOT_PREFIX, Message(payload, i));
  }

  lemma {:induction false} TxHasMessages(payload: JSON, n: nat)
    requires CreateTypes(payload, n).Some?
    ensures forall i | 0 <= i <= n :: CreateTypes(payload, i).Some?
    ensures var m := CreateTypes(payload, n).value;
            && GrowsButTx(BaseTypes(), m)
            && TX_FIELD in m
            && m[TX_FIELD] == BaseTypes()[TX_FIELD] + seq(n, i requires 0 <= i < n => Type(MsgField(i), KeyOf(payload, i)))
  {
    hide AddMessage, MsgField, KeyOf, Message, RootType, Infer;
    if n > 0 {
      OneMessage(payload, n - 1);
      TxHasMessages(payload, n - 1);
    }
  }

  lemma {:induction false} LaterMaps(payload: JSON, i: nat, n: nat)
    requires i <= n && CreateTypes(payload, n).Some?
    ensures CreateTypes(payload, i).Some?
    ensures GrowsButTx(CreateTypes(payload, i).value, CreateTypes(payload, n).value)
  {
    hide CreateTypes, MsgField, KeyOf, Message, RootType, Infer, BaseTypes;
    if i < n {
      OneMessage(payload, n - 1);
      TxHasMessages(payload, n - 1);
      LaterMaps(payload, i, n - 1);
    }
  }

  /**
   A later message of the same type and shape needs no new types: it is given the name of the
   earlier one, whatever came between, and only the transaction schema is extended.
   */
  lemma {:induction false} SameShapeSameType(payload: JSON, i: nat, j: nat)
    requires i < j && CreateTypes(payload, j).Some?
    requires RootType(Message(payload, j)) == RootType(Message(payload, i))
    requires SameShape(Message(payload, i), Message(payload, j))
    ensures KeyOf(payload, j) == KeyOf(payload, i)
    ensures TX_FIELD in CreateTypes(payload, j).value
    ensures var m := CreateTypes(payload, j).value;
            CreateTypes(payload, j + 1) == Some(m[TX_FIELD := m[TX_FIELD] + [Type(MsgField(j), KeyOf(payload, i))]])
  {
    hide MsgField, RootType, Infer, BaseTypes, SameShape, Find, CreateTypes;
    LaterMaps(payload, i + 1, j);
    OneMessage(payload, i);
    TxHasMessages(payload, i);
    TxHasMessages(payload, j);
    var m, a, b := CreateTypes(payload, j).value, Message(payload, i), Message(payload, j);
    var root := RootType(a).value;
    SameShapeObject(a, b);
    InferStable(CreateTypes(payload, i).value, root, ROOT_PREFIX, a, m);
    InferSeesShape(m, root, ROOT_PREFIX, a, b);
    AddInferred(payload, j, m, root);
  }

  lemma SameShapeObject(v: JSON, w: JSON)
    requires v.Object? && SameShape(v, w)
    ensures w.Object?
  {}

  /** A message whose types are all there. */
  lemma AddInferred(payload: JSON, j: nat, m: Types, root: string)
    requires CreateTypes(payload, j) == Some(m) && TX_FIELD in m && Message(payload, j).Object?
    requires RootType(Message(payload, j)) == Some(root)
    requires Infer(m, root, ROOT_PREFIX, Message(payload, j)).Inferred?
    requires Infer(m, root, ROOT_PREFIX, Message(payload, j)).types == m
    ensures KeyOf(payload, j) == Infer(m, root, ROOT_PREFIX, Message(payload, j)).key
    ensures CreateTypes(payload, j + 1) == Some(m[TX_FIELD := m[TX_FIELD] + [Type(MsgField(j), KeyOf(payload, j))]])
  {
    hide Infer, RootType, MsgField, Find;
  }

  /** A message conforms to its own type in the final map if and only if it is supported. */
  lemma {:induction false} MessageConforms(payload: JSON, i: nat, n: nat)
    requires i < n && CreateTypes(payload, n).Some?
    ensures ConformsBase(CreateTypes(payload, n).value, KeyOf(payload, i), Message(payload, i))
            <==> Supported(Message(payload, i))
    ensures IsKeyName(KeyOf(payload, i))
  {
    hide CreateTypes, MsgField, KeyOf, RootType, Infer, BaseTypes, ConformsBase, Supported, IsKeyName, Message, Prefixed;
    LaterMaps(payload, i + 1, n);
    OneMessage(payload, i);
    TxHasMessages(payload, i);
    var m, m', final := CreateTypes(payload, i).value, CreateTypes(payload, i + 1).value, CreateTypes(payload, n).value;
    var msg := Message(payload, i);
    RootTypePrefixed(msg);
    var r := Infer(m, RootType(msg).value, ROOT_PREFIX, msg);
    assert GrowsButTx(r.types, m');
    ConformsIffSupported(m, RootType(msg).value, ROOT_PREFIX, msg, final);
    InferDescribes(m, RootType(msg).value, ROOT_PREFIX, msg, final);
    DescribedKey(final, r.key, msg);
  }

  lemma DescribedKey(m: Types, ty: string, t: JSON)
    requires t.Object? && DescribesBase(m, ty, t)
    ensures IsKeyName(ty) && ty in m
  {}

  /** Every type the final map refers to is primitive or defined in it. */
  lemma {:induction false} CreateTypesClosed(payload: JSON, n: nat)
    requires CreateTypes(payload, n).Some?
    ensures Closed(CreateTypes(payload, n).value)
  {
    hide CreateTypes, MsgField, KeyOf, RootType, Infer, BaseTypes, Message, Prefixed, Known, IsKeyName;
    if n == 0 {
      BaseClosed();
      NoMessages(payload);
    } else {
      OneMessage(payload, n - 1);
      TxHasMessages(payload, n - 1);
      CreateTypesClosed(payload, n - 1);
      var m, m' := CreateTypes(payload, n - 1).value, CreateTypes(payload, n).value;
      var msg := Message(payload, n - 1);
      RootTypePrefixed(msg);
      var r := Infer(m, RootType(msg).value, ROOT_PREFIX, msg);
      InferClosed(m, RootType(msg).value, ROOT_PREFIX, msg);
      InferDescribes(m, RootType(msg).value, ROOT_PREFIX, msg, r.types);
      DescribedKey(r.types, r.key, msg);
      forall k | k in m'
        ensures AllKnown(m', m'[k])
      {
        if k == TX_FIELD {
          assert AllKnown(r.types, m[TX_FIELD]);
          KeyKnown(r.types, r.key);
          KnownGrows(r.types, m', m[TX_FIELD] + [Type(MsgField(n - 1), r.key)]);
        } else {
          KnownGrows(r.types, m', r.types[k]);
        }
      }
    }
  }

  lemma NoMessages(payload: JSON)
    ensures CreateTypes(payload, 0) == Some(BaseTypes())
  {}

  lemma KeyKnown(m: Types, ty: string)
    requires IsKeyName(ty) && ty in m
    ensures Known(m, ty)
  {}

  lemma {:induction false} BaseClosed()
    ensures Closed(BaseTypes())
  {
    hide Known;
    var m := BaseTypes();
    BaseKnownTypes(m);
    forall k | k in m
      ensures AllKnown(m, m[k])
    {
      assert k == "EIP712Domain" || k == "Tx" || k == "Fee" || k == "Coin";
    }
  }

  lemma {:induction false} BaseKnownTypes(m: Types)
    requires "Fee" in m && "Coin" in m
    ensures Known(m, "string") && Known(m, "uint256") && Known(m, "Fee") && Known(m, "Coin[]")
  {
    assert "Coin[]"[..4] == "Coin";
    assert "string"[4..] == "ng" && "uint256"[5..] == "56" && "Fee"[1..] == "ee";
  }

  // ---------------------------------------------------------------- the whole transaction

  /** The object has these keys and no others. */
  ghost predicate HasExactly(v: JSON, keys: set<string>) {
    forall k :: Has(v, k) <==> k in keys
  }

  ghost predicate IsStringField(v: JSON, k: string) {
    Has(v, k) && Get(v, k).String?
  }

  ghost predicate IsCoin(v: JSON) {
    v.Object? && HasExactly(v, {"denom", "amount"}) && IsStringField(v, "denom") && IsStringField(v, "amount")
  }

  ghost predicate IsFee(v: JSON) {
    && v.Object? && HasExactly(v, {"amount", "gas"}) && IsStringField(v, "gas")
    && Get(v, "amount").Array? && forall i | 0 <= i < |Get(v, "amount").items| :: IsCoin(Get(v, "amount").items[i])
  }

  ghost predicate IsHeader(v: JSON) {
    && IsStringField(v, "account_number") && IsStringField(v, "chain_id") && IsStringField(v, "memo")
    && IsStringField(v, "sequence") && Has(v, "fee") && IsFee(Get(v, "fee"))
  }

  ghost function HeaderNames(): set<string> {
    {"account_number", "chain_id", "fee", "memo", "sequence"}
  }

  ghost function MessageNames(n: nat): set<string> {
    set i | 0 <= i < n :: MsgField(i)
  }

  ghost predicate AllConform(m: Types, ts: seq<Type>, v: JSON) {
    forall i | 0 <= i < |ts| :: FieldConforms(m, ts[i], v)
  }

  ghost predicate FieldConforms(m: Types, t: Type, v: JSON) {
    Has(v, t.name) && Conforms(m, t.ty, Get(v, t.name))
  }

  ghost predicate DistinctEntries(ts: seq<Type>) {
    forall i, j | 0 <= i < j < |ts| :: ts[i].name != ts[j].name
  }

  ghost predicate NamesAre(ts: seq<Type>, names: set<string>) {
    forall k :: Named(ts, k) <==> k in names
  }

  lemma {:induction false} StructConforms(m: Types, ty: string, v: JSON, names: set<string>)
    requires ty in m && ty !in {"bool", "int64", "string", "uint256"} && v.Object?
    requires DistinctEntries(m[ty]) && NamesAre(m[ty], names)
    ensures ConformsBase(m, ty, v) <==> HasExactly(v, names) && AllConform(m, m[ty], v)
  {
    hide Find, Named, Conforms;
    assert NamesMatch(m[ty], v) <==> HasExactly(v, names);
    if AllConform(m, m[ty], v) {
      assert forall i | 0 <= i < |m[ty]| :: FieldConforms(m, m[ty][i], v);
    }
    if ConformsBase(m, ty, v) {
      assert forall i | 0 <= i < |m[ty]| :: FieldConforms(m, m[ty][i], v);
    }
  }

  lemma {:induction false} StringConforms(m: Types, name: string, v: JSON)
    ensures FieldConforms(m, Type(name, "string"), v) <==> IsStringField(v, name)
  {
    hide Find;
    assert "string"[4..] == "ng";
    if Has(v, name) {
      assert Conforms(m, "string", Get(v, name)) <==> ConformsBase(m, "string", Get(v, name));
    }
  }

  lemma {:induction false} PairNames(a: Type, b: Type)
    requires a.name != b.name
    ensures DistinctEntries([a, b]) && NamesAre([a, b], {a.name, b.name})
  {
    forall k
      ensures Named([a, b], k) <==> k in {a.name, b.name}
    {
      assert [a, b][0].name == a.name && [a, b][1].name == b.name;
    }
  }

  lemma {:induction false} PairConforms(m: Types, ty: string, a: Type, b: Type, v: JSON)
    requires ty in m && ty !in {"bool", "int64", "string", "uint256"} && v.Object?
    requires m[ty] == [a, b] && a.name != b.name
    ensures ConformsBase(m, ty, v)
            <==> HasExactly(v, {a.name, b.name}) && FieldConforms(m, a, v) && FieldConforms(m, b, v)
  {
    hide ConformsBase, FieldConforms, HasExactly, DistinctEntries, NamesAre;
    PairNames(a, b);
    StructConforms(m, ty, v, {a.name, b.name});
    assert m[ty][0] == a && m[ty][1] == b;
    assert AllConform(m, [a, b], v) <==> FieldConforms(m, a, v) && FieldConforms(m, b, v);
  }

  ghost predicate HasBase(m: Types) {
    && "Coin" in m && m["Coin"] == [Type("denom", "string"), Type("amount", "string")]
    && "Fee" in m && m["Fee"] == [Type("amount", "Coin[]"), Type("gas", "string")]
  }

  lemma {:induction false} CoinConforms(m: Types, v: JSON)
    requires HasBase(m)
    ensures ConformsBase(m, "Coin", v) <==> IsCoin(v)
  {
    hide FieldConforms, HasExactly, IsStringField;
    if v.Object? {
      assert "denom"[0] != "amount"[0];
      PairConforms(m, "Coin", Type("denom", "string"), Type("amount", "string"), v);
      StringConforms(m, "denom", v);
      StringConforms(m, "amount", v);
    }
  }

  lemma {:induction false} CoinsConform(m: Types, v: JSON)
    requires HasBase(m)
    ensures Conforms(m, "Coin[]", v) <==> v.Array? && forall i | 0 <= i < |v.items| :: IsCoin(v.items[i])
  {
    hide ConformsBase, IsCoin, HasBase;
    assert "Coin[]"[..4] == "Coin" && "Coin[]"[4..] == "[]";
    if v.Array? {
      forall i | 0 <= i < |v.items|
        ensures ConformsBase(m, "Coin", v.items[i]) <==> IsCoin(v.items[i])
      {
        CoinConforms(m, v.items[i]);
      }
    }
  }

  lemma {:induction false} FeeConforms(m: Types, v: JSON)
    requires HasBase(m)
    ensures ConformsBase(m, "Fee", v) <==> IsFee(v)
  {
    hide Conforms, IsStringField, IsCoin, Find;
    if v.Object? {
      assert "amount"[0] != "gas"[0];
      PairConforms(m, "Fee", Type("amount", "Coin[]"), Type("gas", "string"), v);
      StringConforms(m, "gas", v);
      if Has(v, "amount") {
        CoinsConform(m, Get(v, "amount"));
      } else {
        assert !HasExactly(v, {"amount", "gas"}) by {
          assert "amount" in {"amount", "gas"};
        }
      }
    }
  }

  function HeaderTypes(): seq<Type> {
    [Type("account_number", "string"), Type("chain_id", "string"), Type("fee", "Fee"), Type("memo", "string"),
     Type("sequence", "string")]
  }

  lemma {:induction false} HeaderConforms(m: Types, v: JSON)
    requires HasBase(m)
    ensures AllConform(m, HeaderTypes(), v) <==> IsHeader(v)
  {
    hide IsStringField, IsFee, HasBase, FieldConforms;
    var ts := HeaderTypes();
    StringConforms(m, "account_number", v);
    StringConforms(m, "chain_id", v);
    StringConforms(m, "memo", v);
    StringConforms(m, "sequence", v);
    FeeFieldConforms(m, v);
    assert AllConform(m, ts, v) <==>
      FieldConforms(m, ts[0], v) && FieldConforms(m, ts[1], v) && FieldConforms(m, ts[2], v) &&
      FieldConforms(m, ts[3], v) && FieldConforms(m, ts[4], v);
  }

  lemma {:induction false} FeeFieldConforms(m: Types, v: JSON)
    requires HasBase(m)
    ensures FieldConforms(m, Type("fee", "Fee"), v) <==> Has(v, "fee") && IsFee(Get(v, "fee"))
  {
    hide IsFee, HasBase, ConformsBase, Find;
    if Has(v, "fee") {
      FeeConforms(m, Get(v, "fee"));
      assert "Fee"[1..] == "ee";
    }
  }

  function MessageTypes(payload: JSON, n: nat): (ts: seq<Type>)
    ensures |ts| == n && forall i | 0 <= i < n :: ts[i] == Type(MsgField(i), KeyOf(payload, i))
  {
    seq(n, i requires 0 <= i < n => Type(MsgField(i), KeyOf(payload, i)))
  }

  lemma {:induction false} HeaderNamesAre()
    ensures DistinctEntries(HeaderTypes()) && NamesAre(HeaderTypes(), HeaderNames())
    ensures forall i: nat :: MsgField(i) !in HeaderNames()
  {
    hide Decimal, Named;
    forall i: nat
      ensures MsgField(i) !in HeaderNames()
    {
      assert MsgField(i)[1] == 's';
      assert "account_number"[1] == 'c' && "chain_id"[1] == 'h' && "fee"[1] == 'e' && "memo"[1] == 'e' && "sequence"[1] == 'e';
    }
    var ts := HeaderTypes();
    assert |ts[0].name| == 14 && |ts[1].name| == 8 && ts[1].name[0] == 'c' && |ts[2].name| == 3 && |ts[3].name| == 4
           && |ts[4].name| == 8 && ts[4].name[0] == 's';
    forall k
      ensures Named(ts, k) <==> k in HeaderNames()
    {
      HeaderNamed(k);
    }
  }

  lemma {:induction false} HeaderNamed(k: string)
    ensures Named(HeaderTypes(), k) <==> k in HeaderNames()
  {
    var ts := HeaderTypes();
    assert Named(ts, k) <==> ts[0].name == k || ts[1].name == k || ts[2].name == k || ts[3].name == k || ts[4].name == k;
  }

  lemma {:induction false} TxNamesAre(payload: JSON, n: nat)
    ensures var ts := HeaderTypes() + MessageTypes(payload, n);
            DistinctEntries(ts) && NamesAre(ts, HeaderNames() + MessageNames(n))
  {
    hide HeaderTypes, HeaderNames, MsgField, KeyOf;
    var h, ms := HeaderTypes(), MessageTypes(payload, n);
    var ts := h + ms;
    HeaderNamesAre();
    forall k
      ensures Named(ts, k) <==> k in HeaderNames() + MessageNames(n)
    {
      if Named(h, k) {
        var i :| 0 <= i < |h| && h[i].name == k;
        assert ts[i].name == k;
      }
      if k in MessageNames(n) {
        var i: nat :| i < n && k == MsgField(i);
        assert ts[|h| + i].name == k;
      }
      if Named(ts, k) {
        var i :| 0 <= i < |ts| && ts[i].name == k;
        if i < |h| {
          assert h[i].name == k;
          assert Named(h, k);
        } else {
          assert ts[i] == ms[i - |h|];
        }
      }
    }
    forall i, j | 0 <= i < j < |ts|
      ensures ts[i].name != ts[j].name
    {
      if i >= |h| {
        if MsgField(i - |h|) == MsgField(j - |h|) {
          MsgFieldInjective(i - |h|, j - |h|);
        }
      } else if j >= |h| {
        assert h[i].name == ts[i].name;
        assert Named(h, ts[i].name);
      }
    }
  }

  lemma {:induction false} MessagesConform(payload: JSON, n: nat)
    requires CreateTypes(payload, n).Some?
    ensures AllConform(CreateTypes(payload, n).value, MessageTypes(payload, n), payload)
            <==> forall i | 0 <= i < n :: Supported(Message(payload, i))
  {
    hide CreateTypes, MsgField, KeyOf, Message, Supported, FieldConforms;
    var m, ts := CreateTypes(payload, n).value, MessageTypes(payload, n);
    forall i | 0 <= i < n
      ensures FieldConforms(m, ts[i], payload) <==> Supported(Message(payload, i))
    {
      MessageFieldConforms(payload, i, n);
    }
    if AllConform(m, ts, payload) {
      forall i | 0 <= i < n
        ensures Supported(Message(payload, i))
      {
        assert FieldConforms(m, ts[i], payload);
      }
    }
  }

  lemma {:induction false} MessageFieldConforms(payload: JSON, i: nat, n: nat)
    requires i < n && CreateTypes(payload, n).Some?
    ensures FieldConforms(CreateTypes(payload, n).value, Type(MsgField(i), KeyOf(payload, i)), payload)
            <==> Supported(Message(payload, i))
  {
    hide CreateTypes, MsgField, KeyOf, Supported, ConformsBase, IsKeyName, RootType, Infer, Find;
    MessageConforms(payload, i, n);
    LaterMaps(payload, i + 1, n);
    OneMessage(payload, i);
    KeyNameIsNeither(KeyOf(payload, i));
  }

  lemma {:induction false} FinalHasBase(m: Types)
    requires GrowsButTx(BaseTypes(), m)
    ensures HasBase(m)
  {
    assert "Fee"[0] != TX_FIELD[0] && "Coin"[0] != TX_FIELD[0];
    assert "Fee" in BaseTypes() && "Coin" in BaseTypes();
  }

  lemma {:induction false} AllConformConcat(m: Types, a: seq<Type>, b: seq<Type>, v: JSON)
    ensures AllConform(m, a + b, v) <==> AllConform(m, a, v) && AllConform(m, b, v)
  {
    hide FieldConforms;
    if AllConform(m, a + b, v) {
      forall i | 0 <= i < |a|
        ensures FieldConforms(m, a[i], v)
      {
        assert (a + b)[i] == a[i];
      }
      forall i | 0 <= i < |b|
        ensures FieldConforms(m, b[i], v)
      {
        assert (a + b)[|a| + i] == b[i];
      }
    }
  }

  /**
   The transaction conforms to the schema inferred from it if and only if it has the header
   fields of a Cosmos transaction, nothing else beside its messages, and only supported messages.
   */
  lemma {:induction false} PayloadConforms(payload: JSON, n: nat)
    requires payload.Object? && CreateTypes(payload, n).Some?
    ensures ConformsBase(CreateTypes(payload, n).value, "Tx", payload)
            <==> (&& HasExactly(payload, HeaderNames() + MessageNames(n))
                  && IsHeader(payload)
                  && forall i | 0 <= i < n :: Supported(Message(payload, i)))
  {
    hide CreateTypes, MsgField, KeyOf, Supported, ConformsBase, IsHeader, HasExactly, HeaderNames, HeaderTypes, AllConform,
      DistinctEntries, NamesAre, Message, MessageNames, HasBase;
    var m, ms := CreateTypes(payload, n).value, MessageTypes(payload, n);
    TxHasMessages(payload, n);
    HeaderOfTx();
    assert m[TX_FIELD] == HeaderTypes() + ms;
    TxNamesAre(payload, n);
    assert TX_FIELD[0] == 'T';
    StructConforms(m, TX_FIELD, payload, HeaderNames() + MessageNames(n));
    AllConformConcat(m, HeaderTypes(), ms, payload);
    FinalHasBase(m);
    HeaderConforms(m, payload);
    MessagesConform(payload, n);
  }

  lemma HeaderOfTx()
    ensures BaseTypes()[TX_FIELD] == HeaderTypes()
  {}

  // ---------------------------------------------------------------- from the payload as signed

  ghost function Messages(p: JSON): seq<JSON>
    requires Flattenable(p)
  {
    Get(p, MSGS).items
  }

  ghost function Flat(p: JSON): JSON
    requires Flattenable(p)
  {
    Object(FlatFields(p.fields, Messages(p)))
  }

  lemma {:induction false} FlatMessage(p: JSON, i: nat)
    requires Flattenable(p) && DistinctNames(p.fields) && i < |Messages(p)|
    ensures Message(Flat(p), i) == Messages(p)[i]
  {
    hide MsgField, Find, FlatFields, Flattenable;
    FlatFind(p, MsgField(i));
  }

  lemma {:induction false} FlatHeaderField(p: JSON, k: string)
    requires Flattenable(p) && DistinctNames(p.fields) && k in HeaderNames()
    ensures Find(Flat(p).fields, k) == Find(p.fields, k)
  {
    hide MsgField, Find, FlatFields, HeaderNames, Flattenable;
    HeaderNamesAre();
    MsgsIsNoHeader();
    FlatFind(p, k);
  }

  lemma MsgsIsNoHeader()
    ensures MSGS !in HeaderNames()
  {
    assert MSGS[1] == 's';
    assert "account_number"[1] == 'c' && "chain_id"[1] == 'h' && "fee"[1] == 'e' && "memo"[1] == 'e' && "sequence"[1] == 'e';
  }

  lemma {:induction false} FlatHeader(p: JSON)
    requires Flattenable(p) && DistinctNames(p.fields)
    ensures IsHeader(Flat(p)) <==> IsHeader(p)
  {
    hide Find, FlatFields, IsFee;
    FlatHeaderField(p, "account_number");
    FlatHeaderField(p, "chain_id");
    FlatHeaderField(p, "fee");
    FlatHeaderField(p, "memo");
    FlatHeaderField(p, "sequence");
  }

  /** The flattened object has no other fields exactly when the payload has none. */
  lemma {:induction false} FlatNames(p: JSON)
    requires Flattenable(p) && DistinctNames(p.fields)
    ensures HasExactly(Flat(p), HeaderNames() + MessageNames(|Messages(p)|)) <==> HasExactly(p, HeaderNames() + {MSGS})
  {
    hide Find, FlatFields, HeaderNames, MsgField;
    var n := |Messages(p)|;
    HeaderNamesAre();
    MsgsIsNoHeader();
    forall k
      ensures (Has(Flat(p), k) <==> k in HeaderNames() + MessageNames(n)) <==> (Has(p, k) <==> k in HeaderNames() + {MSGS})
    {
      FlatFind(p, k);
      if k in MessageNames(n) {
        var i: nat :| i < n && k == MsgField(i);
        MsgFieldIsNotMsgs(i);
        assert !Has(p, MsgField(i));
      } else {
        assert forall i | 0 <= i < n :: MsgField(i) in MessageNames(n);
        if k == MSGS {
          MsgsIsNoHeader();
        }
      }
    }
  }

  /**
   End to end: a payload, once flattened, conforms to the schema inferred from it if and only if
   it has exactly the header fields and `msgs`, a well-formed header and only supported messages.
   */
  lemma {:induction false} SignedPayloadConforms(p: JSON)
    requires Flattenable(p) && DistinctNames(p.fields) && CreateTypes(Flat(p), |Messages(p)|).Some?
    ensures ConformsBase(CreateTypes(Flat(p), |Messages(p)|).value, "Tx", Flat(p))
            <==> (&& HasExactly(p, HeaderNames() + {"msgs"})
                  && IsHeader(p)
                  && forall i | 0 <= i < |Messages(p)| :: Supported(Messages(p)[i]))
  {
    hide CreateTypes, ConformsBase, HasExactly, HeaderNames, IsHeader, Supported, Message, MessageNames, FlatFields, Flattenable;
    var n := |Messages(p)|;
    PayloadConforms(Flat(p), n);
    FlatNames(p);
    FlatHeader(p);
    forall i | 0 <= i < n
      ensures Message(Flat(p), i) == Messages(p)[i]
    {
      FlatMessage(p, i);
    }
  }

  // ---------------------------------------------------------------- the domain

  function DomainTypes(): seq<Type> {
    [Type("name", "string"), Type("version", "string"), Type("chainId", "uint256"), Type("verifyingContract", "string"),
     Type("salt", "string")]
  }

  ghost function DomainNames(): set<string> {
    {"name", "version", "chainId", "verifyingContract", "salt"}
  }

  lemma {:induction false} DomainNamesAre()
    ensures DistinctEntries(DomainTypes()) && NamesAre(DomainTypes(), DomainNames())
  {
    var ts := DomainTypes();
    assert |ts[0].name| == 4 && ts[0].name[0] == 'n' && |ts[1].name| == 7 && ts[1].name[0] == 'v' && |ts[2].name| == 7
           && ts[2].name[0] == 'c' && |ts[3].name| == 17 && |ts[4].name| == 4 && ts[4].name[0] == 's';
    forall k
      ensures Named(ts, k) <==> k in DomainNames()
    {
      assert Named(ts, k) <==> ts[0].name == k || ts[1].name == k || ts[2].name == k || ts[3].name == k || ts[4].name == k;
    }
  }

  lemma {:induction false} ChainIdConforms(m: Types, v: JSON)
    ensures FieldConforms(m, Type("chainId", "uint256"), v) <==> Has(v, "chainId") && Get(v, "chainId").Number?
  {
    hide Find;
    assert "uint256"[5..] == "56";
    if Has(v, "chainId") {
      assert Conforms(m, "uint256", Get(v, "chainId")) <==> ConformsBase(m, "uint256", Get(v, "chainId"));
    }
  }

  /** In every final map the domain is the one of the signer: four strings and the number of the chain. */
  lemma {:induction false} DomainConforms(payload: JSON, n: nat, v: JSON)
    requires CreateTypes(payload, n).Some? && v.Object?
    ensures ConformsBase(CreateTypes(payload, n).value, "EIP712Domain", v)
            <==> (&& HasExactly(v, DomainNames())
                  && IsStringField(v, "name") && IsStringField(v, "version") && IsStringField(v, "verifyingContract")
                  && IsStringField(v, "salt") && Has(v, "chainId") && Get(v, "chainId").Number?)
  {
    hide CreateTypes, ConformsBase, HasExactly, DomainNames, DistinctEntries, NamesAre, FieldConforms, IsStringField, Find,
      KeyOf, MsgField;
    var m, ts := CreateTypes(payload, n).value, DomainTypes();
    TxHasMessages(payload, n);
    DomainOfBase(m);
    DomainNamesAre();
    StructConforms(m, "EIP712Domain", v, DomainNames());
    StringConforms(m, "name", v);
    StringConforms(m, "version", v);
    StringConforms(m, "verifyingContract", v);
    StringConforms(m, "salt", v);
    ChainIdConforms(m, v);
    assert AllConform(m, ts, v) <==>
      FieldConforms(m, ts[0], v) && FieldConforms(m, ts[1], v) && FieldConforms(m, ts[2], v) &&
      FieldConforms(m, ts[3], v) && FieldConforms(m, ts[4], v);
  }

  lemma {:induction false} DomainOfBase(m: Types)
    requires GrowsButTx(BaseTypes(), m)
    ensures "EIP712Domain" in m && m["EIP712Domain"] == DomainTypes()
    ensures "EIP712Domain" !in {"bool", "int64", "string", "uint256"}
  {
    assert "EIP712Domain"[0] == 'E';
    assert "EIP712Domain" in BaseTypes();
  }

  // ---------------------------------------------------------------- what the types are called

  /** The type of a message is named after what follows the last slash of its amino type. */
  lemma {:induction false} RootTypeLast(msg: JSON, space: string, name: string)
    requires Has(msg, "type") && Get(msg, "type") == String(space + "/" + name) && Free(name, '/')
    ensures RootType(msg) == Some("Type" + name)
  {
    hide Split, Find;
    SplitLast(space, name, '/');
  }

  /** Without a slash, after the whole of it. */
  lemma {:induction false} RootTypeWhole(msg: JSON, name: string)
    requires Has(msg, "type") && Get(msg, "type") == String(name) && name != "" && Free(name, '/')
    ensures RootType(msg) == Some("Type" + name)
  {
    hide Split, Find;
    SplitClean(name, '/');
  }

  lemma RootTypeNone(msg: JSON)
    ensures RootType(msg).None? <==> !(Has(msg, "type") && Get(msg, "type").String? && Get(msg, "type").s != "")
  {
    hide Split, Find;
  }

  lemma {:induction false} InferNamed(m: Types, root: string, prefix: string, v: JSON) returns (n: nat)
    requires v.Object? && Infer(m, root, prefix, v).Inferred?
    ensures n < 1000
    ensures Infer(m, root, prefix, v).key == (if prefix == "_" then root else Sanitize(prefix)) + Decimal(n)
  {
    hide SortedKeys, InferFields, Decimal, Sanitize;
    SortedKeysAre(v.fields);
    var r := InferFields(m, root, prefix, v, SortedKeys(v.fields));
    n := Slot(r.types, TypeDef(prefix, root), r.entries, 0).value;
  }

  /** `cosmos-sdk/MsgSend` is given the type `TypeMsgSend` with a number. */
  lemma {:induction false} MessageNamed(payload: JSON, i: nat, space: string, name: string) returns (n: nat)
    requires CreateTypes(payload, i + 1).Some? && Free(name, '/')
    requires Has(Message(payload, i), "type") && Get(Message(payload, i), "type") == String(space + "/" + name)
    ensures n < 1000 && KeyOf(payload, i) == "Type" + name + Decimal(n)
  {
    hide CreateTypes, MsgField, RootType, Infer, Find, Decimal;
    OneMessage(payload, i);
    RootTypeLast(Message(payload, i), space, name);
    n := InferNamed(CreateTypes(payload, i).value, RootType(Message(payload, i)).value, ROOT_PREFIX, Message(payload, i));
  }

  /** The type of an object in a field, or in an array in a field, is named after its path. */
  lemma {:induction false} FieldNamed(m: Types, root: string, prefix: string, name: string, v: JSON) returns (n: nat)
    requires Prefixed(root, prefix) && InferField(m, root, prefix, name, v).FieldResult?
    requires v.Object? || (v.Array? && v.items != [] && v.items[0].Object?)
    ensures n < 1000
    ensures InferField(m, root, prefix, name, v).entries
         == [Type(name, Sanitize(prefix + "." + name) + Decimal(n) + (if v.Array? then "[]" else ""))]
  {
    hide Infer, Sanitize, Decimal, Prefixed;
    var elem := if v.Array? then v.items[0] else v;
    SubPrefixExtends(root, prefix, name);
    n := InferNamed(m, root, prefix + "." + name, elem);
    SubKeyFixed(m, root, prefix + "." + name, elem);
  }
}
