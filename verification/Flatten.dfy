/** Flattening a payload: `msgs[i]` becomes the field `msg{i}`. */
module Flatten {
  import opened Options
  import opened Json

  const MSGS := "msgs"

  /** `msgFieldForIndex` */
  function MsgField(i: nat): string {
    "msg" + Decimal(i)
  }

  /** `msg` and the number. */
  lemma MsgFieldIs(i: nat)
    ensures MsgField(i)[..3] == "msg" && Denotes(MsgField(i)[3..]) == i
  {
    hide Decimal;
    DecimalDenotes(i);
    assert MsgField(i)[3..] == Decimal(i);
  }

  lemma {:induction false} MsgFieldInjective(i: nat, j: nat)
    requires MsgField(i) == MsgField(j)
    ensures i == j
  {
    hide Decimal;
    assert MsgField(i)[3..] == Decimal(i) && MsgField(j)[3..] == Decimal(j);
    DecimalInjective(i, j);
  }

  lemma {:induction false} MsgFieldIsNotMsgs(i: nat)
    ensures MsgField(i) != MSGS
  {
    hide Decimal;
    assert IsDigit(MsgField(i)[3]) && MSGS[3] == 's';
  }

  /** Names occur once, as in any object a path query can address. */
  ghost predicate DistinctNames(fields: seq<Field>) {
    forall i, j | 0 <= i < j < |fields| :: fields[i].name != fields[j].name
  }

  /** Deletes the first field of a name. */
  function Remove(fields: seq<Field>, name: string): seq<Field> {
    if fields == [] then []
    else if fields[0].name == name then fields[1..]
    else [fields[0]] + Remove(fields[1..], name)
  }

  datatype Flattened = Malformed | Flattened(payload: JSON, count: nat)

  /** The messages as fields, in order. */
  function MsgFields(msgs: seq<JSON>): seq<Field> {
    seq(|msgs|, i requires 0 <= i < |msgs| => Field(MsgField(i), msgs[i]))
  }

  /** A payload whose messages are objects and whose other fields leave their names free. */
  ghost predicate Flattenable(p: JSON) {
    && Has(p, MSGS) && Get(p, MSGS).Array?
    && var msgs := Get(p, MSGS).items;
       forall i | 0 <= i < |msgs| :: msgs[i].Object? && !Has(p, MsgField(i))
  }

  function FlatFields(fields: seq<Field>, msgs: seq<JSON>): seq<Field> {
    Remove(fields + MsgFields(msgs), MSGS)
  }

  lemma {:induction false} MsgFieldsFind(msgs: seq<JSON>, name: string)
    ensures (forall i | 0 <= i < |msgs| :: name != MsgField(i)) ==> Find(MsgFields(msgs), name) == None
    ensures forall i | 0 <= i < |msgs| :: name == MsgField(i) ==> Find(MsgFields(msgs), name) == Some(msgs[i])
  {
    hide MsgField, Find;
    var fs := MsgFields(msgs);
    forall i | 0 <= i < |msgs| && name == MsgField(i)
      ensures Find(fs, name) == Some(msgs[i])
    {
      assert fs[i].name == name;
      var j :| 0 <= j < |fs| && fs[j].name == name && fs[j].value == Find(fs, name).value;
      MsgFieldInjective(i, j);
    }
  }

  lemma {:induction false} RemoveFind(fields: seq<Field>, name: string, key: string)
    ensures key != name ==> Find(Remove(fields, name), key) == Find(fields, key)
    ensures DistinctNames(fields) ==> Find(Remove(fields, name), name) == None
  {
    if fields != [] {
      var rest := fields[1..];
      assert forall i | 0 <= i < |rest| :: rest[i] == fields[i + 1];
      RemoveFind(rest, name, key);
      if fields[0].name != name {
        assert ([fields[0]] + Remove(rest, name))[1..] == Remove(rest, name);
      }
    }
  }

  /** Sets each message in turn, refusing an occupied name or a message that is no object; then drops `msgs`. */
  method FlattenPayloadMessages(p: JSON) returns (r: Flattened)
    ensures r.Flattened? <==> Flattenable(p)
    ensures r.Flattened? ==> r == Flattened(Object(FlatFields(p.fields, Get(p, MSGS).items)), |Get(p, MSGS).items|)
  {
    hide Find, MsgField, Remove;
    if !Has(p, MSGS) {
      return Malformed;
    }
    if !Get(p, MSGS).Array? {
      return Malformed;
    }
    var msgs := Get(p, MSGS).items;
    var flattened := p.fields;
    for i := 0 to |msgs|
      invariant flattened == p.fields + MsgFields(msgs[..i])
      invariant forall j | 0 <= j < i :: msgs[j].Object? && !Has(p, MsgField(j))
    {
      FindConcat(p.fields, MsgFields(msgs[..i]), MsgField(i));
      forall j | 0 <= j < i
        ensures MsgField(j) != MsgField(i)
      {
        if MsgField(j) == MsgField(i) {
          MsgFieldInjective(j, i);
        }
      }
      MsgFieldsFind(msgs[..i], MsgField(i));
      if Find(flattened, MsgField(i)).Some? {
        return Malformed;
      }
      if !msgs[i].Object? {
        return Malformed;
      }
      assert MsgFields(msgs[..i + 1]) == MsgFields(msgs[..i]) + [Field(MsgField(i), msgs[i])];
      flattened := flattened + [Field(MsgField(i), msgs[i])];
    }
    assert msgs[..|msgs|] == msgs;
    return Flattened(Object(Remove(flattened, MSGS)), |msgs|);
  }

  /** What each name holds after flattening: the messages by number, and every other field as it was. */
  lemma {:induction false} FlatFind(p: JSON, name: string)
    requires Flattenable(p) && DistinctNames(p.fields)
    ensures var msgs := Get(p, MSGS).items;
            var f := FlatFields(p.fields, msgs);
            && (name == MSGS ==> Find(f, name) == None)
            && (forall i | 0 <= i < |msgs| :: name == MsgField(i) ==> Find(f, name) == Some(msgs[i]))
            && (name != MSGS && (forall i | 0 <= i < |msgs| :: name != MsgField(i)) ==>
                  Find(f, name) == Find(p.fields, name))
  {
    hide Find, MsgField, Remove;
    var msgs := Get(p, MSGS).items;
    var all := p.fields + MsgFields(msgs);
    AllDistinct(p);
    RemoveFind(all, MSGS, name);
    FindConcat(p.fields, MsgFields(msgs), name);
    MsgFieldsFind(msgs, name);
    forall i | 0 <= i < |msgs|
      ensures MsgField(i) != MSGS
    {
      MsgFieldIsNotMsgs(i);
    }
  }

  lemma {:induction false} AllDistinct(p: JSON)
    requires Flattenable(p) && DistinctNames(p.fields)
    ensures DistinctNames(p.fields + MsgFields(Get(p, MSGS).items))
  {
    hide Find, MsgField;
    var msgs := Get(p, MSGS).items;
    var all := p.fields + MsgFields(msgs);
    var n := |p.fields|;
    forall i, j | 0 <= i < j < |all|
      ensures all[i].name != all[j].name
    {
      if n <= j {
        assert all[j].name == MsgField(j - n) && !Has(p, MsgField(j - n));
        if n <= i && MsgField(i - n) == MsgField(j - n) {
          MsgFieldInjective(i - n, j - n);
        }
      }
    }
  }

  predicate IsMsgField(name: string, n: nat) {
    exists i :: 0 <= i < n && name == MsgField(i)
  }

  /** Reads a field of the original payload back from the flattened object and the number of messages. */
  ghost function Recover(f: JSON, n: nat, name: string): Option<JSON>
    requires f.Object? && forall i | 0 <= i < n :: Has(f, MsgField(i))
  {
    if name == MSGS then Some(Array(seq(n, i requires 0 <= i < n => Get(f, MsgField(i)))))
    else if IsMsgField(name, n) then None
    else Find(f.fields, name)
  }

  /** Flattening loses nothing: object and count give back every field of the payload. */
  lemma {:induction false} FlattenInvertible(p: JSON, name: string)
    requires Flattenable(p) && DistinctNames(p.fields)
    ensures var f, n := Object(FlatFields(p.fields, Get(p, MSGS).items)), |Get(p, MSGS).items|;
            && (forall i | 0 <= i < n :: Has(f, MsgField(i)))
            && Recover(f, n, name) == Find(p.fields, name)
  {
    hide Find, MsgField, FlatFields;
    var msgs := Get(p, MSGS).items;
    var f, n := Object(FlatFields(p.fields, msgs)), |msgs|;
    forall i | 0 <= i < n
      ensures Has(f, MsgField(i)) && Get(f, MsgField(i)) == msgs[i]
    {
      FlatFind(p, MsgField(i));
    }
    if name == MSGS {
      assert seq(n, i requires 0 <= i < n => Get(f, MsgField(i))) == msgs;
    } else if IsMsgField(name, n) {
      var i :| 0 <= i < n && name == MsgField(i);
      assert !Has(p, MsgField(i));
    } else {
      FlatFind(p, name);
    }
  }

  /** Two payloads whose flattened objects hold the same fields, and as many messages, hold the same fields. */
  lemma {:induction false} FlattenInjective(p: JSON, q: JSON, name: string)
    requires Flattenable(p) && DistinctNames(p.fields) && Flattenable(q) && DistinctNames(q.fields)
    requires forall k :: Find(FlatFields(p.fields, Get(p, MSGS).items), k) == Find(FlatFields(q.fields, Get(q, MSGS).items), k)
    requires |Get(p, MSGS).items| == |Get(q, MSGS).items|
    ensures Find(p.fields, name) == Find(q.fields, name)
  {
    hide Find, MsgField, FlatFields, IsMsgField;
    FlattenInvertible(p, name);
    FlattenInvertible(q, name);
    var f, g := Object(FlatFields(p.fields, Get(p, MSGS).items)), Object(FlatFields(q.fields, Get(q, MSGS).items));
    var n := |Get(p, MSGS).items|;
    assert seq(n, i requires 0 <= i < n => Get(f, MsgField(i))) == seq(n, i requires 0 <= i < n => Get(g, MsgField(i)));
  }
}
